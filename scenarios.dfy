/** Whole parses of concrete command lines, from a zeroed result buffer to
    what the accessors then return, including the behaviours of cargparse.c
    that a reader of its documentation would not expect. Each token's step
    is proved on its own and the runs are then chained from those steps. */
module Scenarios {
  import opened Types
  import opened Values
  import opened Classify
  import opened Registry
  import opened Engine
  import opened Accessor
  import opened ParseLaws

  /** With no option flagged REQUIRED, the end-of-input checks pass exactly
      when nothing is pending. */
  lemma NothingRequired(opts: seq<OptionSpec>, st: State)
    requires WellFormed(opts, st) && st.optIdx == -1
    requires forall i :: 0 <= i < |opts| ==> opts[i].flags == FLAG_NONE
    ensures Finish(opts, st) == Ok
  {
  }

  // ---------------------------------------------------------------------
  // `-c/--count`: an int option with one argument.

  function CountOpts(): seq<OptionSpec> {
    [IntOption(Some('c'), Some("count"), None, FLAG_NONE, 1)]
  }

  /** `-c` with nothing pending makes the option pending and changes no slot. */
  lemma CountNameStep(res: seq<ParseRes>, pos: nat)
    requires |res| == 1
    ensures Step(CountOpts(), State(res, -1, -1, false), "-c", pos, NO_FLOATS) == (Ok, State(res, 0, -1, false))
  {
    var opts := CountOpts();
    assert GetArgType("-c") == ShortArg;
    assert HasShortName(opts[0], 'c') && FindShort(opts, 'c') == 0;
    assert HandleShortOption(opts, res, "-c") == (Ok, 0, res);
  }

  /** A valid int token for the pending, still empty `-c` binds to it and
      closes it. */
  lemma CountValueStep(tok: string, pos: nat)
    requires GetArgType(tok) == PosArg && IntegerShape(tok)
    ensures Step(CountOpts(), State(Zeroed(1), 0, -1, false), tok, pos, NO_FLOATS)
            == (Ok, State([ParseRes(true, pos, 1)], -1, -1, false))
  {
    var opts := CountOpts();
    var st := State(Zeroed(1), 0, -1, false);
    var res := [ParseRes(true, pos, 1)];
    assert Zeroed(1) == [EMPTY_RES] && Admits(NO_FLOATS, Int, tok);
    PendingValueStep(opts, st, tok, pos, NO_FLOATS);
    assert Zeroed(1)[0 := Appended(EMPTY_RES, 1, pos, 1)] == res && Closed(opts, res, 0);
  }

  /** `prog -c <tok>` for a token the int reader accepts leaves the
      option satisfied with its one value at position 2. */
  lemma CountParse(tok: string)
    requires GetArgType(tok) == PosArg && IntegerShape(tok)
    ensures Parse(CountOpts(), Zeroed(1), ["prog", "-c", tok], NO_FLOATS) == (Ok, [ParseRes(true, 2, 1)])
  {
    var opts := CountOpts();
    var argv := ["prog", "-c", tok];
    var st1 := State(Zeroed(1), 0, -1, false);
    var st2 := State([ParseRes(true, 2, 1)], -1, -1, false);
    CountNameStep(Zeroed(1), 1);
    CountValueStep(tok, 2);
    assert Run(opts, st1, argv, 2, 3, NO_FLOATS) == (Ok, st2);
    assert Run(opts, Init(Zeroed(1)), argv, 1, 3, NO_FLOATS) == (Ok, st2);
    NothingRequired(opts, st2);
  }

  /** What the accessors read from `prog -c <tok>` once it has parsed. */
  lemma CountReads(tok: string)
    requires IsValidInt(tok)
    ensures var argv, res := ["prog", "-c", tok], [ParseRes(true, 2, 1)];
            && GetIntShort(CountOpts(), res, argv, 'c', 0, 0) == (Ok, ParseInt(tok))
            && GetIntLong(CountOpts(), res, argv, "count", 0, 0) == (Ok, ParseInt(tok))
            && GetIntShort(CountOpts(), res, argv, 'c', 0, 1) == (ErrNargOutOfRange, None)
            && GetArgCountShort(CountOpts(), res, 'c') == (Ok, 1)
  {
    var opts := CountOpts();
    var argv, res := ["prog", "-c", tok], [ParseRes(true, 2, 1)];
    assert HasShortName(opts[0], 'c') && FindShort(opts, 'c') == 0;
    assert HasLongName(opts[0], "count") && FindLong(opts, "count") == 0;
    assert TokenAt(res, argv, 0, 0) == tok;
  }

  /** `prog -c <n>` parses and every accessor reads n back, for every
      integer n, negative ones included. */
  lemma IntRoundTrip(n: int)
    ensures var argv := ["prog", "-c", DecimalString(n)];
            var p := Parse(CountOpts(), Zeroed(1), argv, NO_FLOATS);
            && p == (Ok, [ParseRes(true, 2, 1)])
            && GetIntShort(CountOpts(), p.1, argv, 'c', 0, 0) == (Ok, Some(n))
            && GetIntLong(CountOpts(), p.1, argv, "count", 0, 0) == (Ok, Some(n))
            && GetIntShort(CountOpts(), p.1, argv, 'c', 0, 1) == (ErrNargOutOfRange, None)
            && GetArgCountShort(CountOpts(), p.1, 'c') == (Ok, 1)
  {
    DecimalIsPositional(n);
    ParseIntRoundTrip(n);
    CountParse(DecimalString(n));
    CountReads(DecimalString(n));
  }

  /** `--` does not supply a value: `prog -c` and `prog -c --` both fail
      with OPTION_NEEDS_ARG. */
  lemma PendingOptionNeedsValue()
    ensures Parse(CountOpts(), Zeroed(1), ["prog", "-c"], NO_FLOATS).0 == ErrOptionNeedsArg
    ensures Parse(CountOpts(), Zeroed(1), ["prog", "-c", "--"], NO_FLOATS).0 == ErrOptionNeedsArg
  {
    var opts := CountOpts();
    var st0 := Init(Zeroed(1));
    var st1 := State(Zeroed(1), 0, -1, false);
    CountNameStep(Zeroed(1), 1);
    assert Run(opts, st0, ["prog", "-c"], 1, 2, NO_FLOATS) == (Ok, st1);
    assert GetArgType("--") == DoubleHyphen;
    assert Step(opts, st1, "--", 2, NO_FLOATS) == (ErrOptionNeedsArg, st1);
    assert Run(opts, st0, ["prog", "-c", "--"], 1, 3, NO_FLOATS) == (ErrOptionNeedsArg, st1);
  }

  /** A single-value option named twice: the second name makes it pending
      again, and its value is refused with OPTION_ALREADY_SET. */
  lemma RepeatedOptionRefused()
    ensures Parse(CountOpts(), Zeroed(1), ["prog", "-c", "1", "-c", "2"], NO_FLOATS).0 == ErrOptionAlreadySet
  {
    var opts := CountOpts();
    var argv := ["prog", "-c", "1", "-c", "2"];
    ParseIntRoundTrip(1);
    assert DecimalString(1) == "1" && GetArgType("1") == PosArg && GetArgType("2") == PosArg;
    var res := [ParseRes(true, 2, 1)];
    var st1 := State(Zeroed(1), 0, -1, false);
    var st2 := State(res, -1, -1, false);
    var st3 := State(res, 0, -1, false);
    CountNameStep(Zeroed(1), 1);
    CountValueStep("1", 2);
    CountNameStep(res, 3);
    AlreadySetRefusesValue(opts, st3, "2", 4, NO_FLOATS);
    assert Run(opts, st3, argv, 4, 5, NO_FLOATS).0 == ErrOptionAlreadySet;
    assert Run(opts, st2, argv, 3, 5, NO_FLOATS).0 == ErrOptionAlreadySet;
    assert Run(opts, st1, argv, 2, 5, NO_FLOATS).0 == ErrOptionAlreadySet;
    assert Run(opts, Init(Zeroed(1)), argv, 1, 5, NO_FLOATS).0 == ErrOptionAlreadySet;
  }

  // ---------------------------------------------------------------------
  // `-p`: an int option taking exactly two values.

  function PairOpts(): seq<OptionSpec> {
    [IntOption(Some('p'), None, None, FLAG_NONE, 2)]
  }

  /** `-p` makes the two-value option pending and changes no slot. */
  lemma PairNameStep()
    ensures Step(PairOpts(), Init(Zeroed(1)), "-p", 1, NO_FLOATS) == (Ok, State(Zeroed(1), 0, -1, false))
  {
    var opts := PairOpts();
    assert GetArgType("-p") == ShortArg;
    assert HasShortName(opts[0], 'p') && FindShort(opts, 'p') == 0;
    assert Activate(opts, Zeroed(1), 0) == (Zeroed(1), 0);
  }

  /** `prog -p 1`: the one value binds to `-p` but leaves it pending. */
  lemma PairOneValueRun()
    ensures Run(PairOpts(), Init(Zeroed(1)), ["prog", "-p", "1"], 1, 3, NO_FLOATS)
            == (Ok, State([ParseRes(false, 2, 1)], 0, -1, false))
  {
    var opts, argv := PairOpts(), ["prog", "-p", "1"];
    var st1 := State(Zeroed(1), 0, -1, false);
    var st2 := State([ParseRes(false, 2, 1)], 0, -1, false);
    PairNameStep();
    ParseIntRoundTrip(1);
    assert DecimalString(1) == "1" && GetArgType("1") == PosArg;
    PendingValueStep(opts, st1, "1", 2, NO_FLOATS);
    assert Zeroed(1)[0 := Appended(Zeroed(1)[0], 2, 2, 1)] == st2.res;
    assert Step(opts, st1, "1", 2, NO_FLOATS) == (Ok, st2);
    assert Run(opts, st1, argv, 2, 3, NO_FLOATS) == (Ok, st2);
  }

  /** `prog -p 1x`: the value is refused as soon as it is met. */
  lemma PairTrailingRun()
    ensures Run(PairOpts(), Init(Zeroed(1)), ["prog", "-p", "1x"], 1, 3, NO_FLOATS).0 == ErrInvalidValue
  {
    var opts := PairOpts();
    var st1 := State(Zeroed(1), 0, -1, false);
    PairNameStep();
    ParseIntRejectsTrailing("1", 'x');
    assert "1" + ['x'] == "1x" && GetArgType("1x") == PosArg;
    assert !Admits(NO_FLOATS, Int, "1x");
    assert Step(opts, st1, "1x", 2, NO_FLOATS).0 == ErrInvalidValue;
  }

  /** One value of two is bound but leaves the option pending, so the parse
      ends with OPTION_NEEDS_ARG; a value with trailing characters is refused
      with INVALID_VALUE as soon as it is met. */
  lemma PairShortfall()
    ensures Parse(PairOpts(), Zeroed(1), ["prog", "-p", "1"], NO_FLOATS).0 == ErrOptionNeedsArg
    ensures Parse(PairOpts(), Zeroed(1), ["prog", "-p", "1x"], NO_FLOATS).0 == ErrInvalidValue
  {
    PairOneValueRun();
    PairTrailingRun();
  }

  // ---------------------------------------------------------------------
  // `-z`: a zero-or-more int option.

  function ZeroOrMoreOpts(): seq<OptionSpec> {
    [IntOption(Some('z'), None, None, FLAG_NONE, NARGS_ZERO_OR_MORE)]
  }

  /** `-z` satisfies the option at once and leaves it pending. */
  lemma ZeroOrMoreNameStep()
    ensures Step(ZeroOrMoreOpts(), Init(Zeroed(1)), "-z", 1, NO_FLOATS)
            == (Ok, State([ParseRes(true, 0, 0)], 0, -1, false))
  {
    var opts := ZeroOrMoreOpts();
    assert GetArgType("-z") == ShortArg;
    assert HasShortName(opts[0], 'z') && FindShort(opts, 'z') == 0;
    assert Zeroed(1) == [EMPTY_RES];
    assert Zeroed(1)[0 := Zeroed(1)[0].(isGot := true)] == [ParseRes(true, 0, 0)];
    assert Activate(opts, Zeroed(1), 0) == ([ParseRes(true, 0, 0)], 0);
  }

  /** A zero-or-more option given without values must be closed by `--`
      (at the end of input it is still pending and the parse fails); the
      accessor then answers ZERO_NARGS and the count is 0. */
  lemma ZeroOrMoreWithoutValues()
    ensures Parse(ZeroOrMoreOpts(), Zeroed(1), ["prog", "-z"], NO_FLOATS).0 == ErrOptionNeedsArg
    ensures var argv := ["prog", "-z", "--"];
            var p := Parse(ZeroOrMoreOpts(), Zeroed(1), argv, NO_FLOATS);
            && p == (Ok, [ParseRes(true, 0, 0)])
            && GetIntShort(ZeroOrMoreOpts(), p.1, argv, 'z', 5, 0) == (ZeroNargs, None)
            && GetArgCountShort(ZeroOrMoreOpts(), p.1, 'z') == (Ok, 0)
  {
    var opts := ZeroOrMoreOpts();
    var res := [ParseRes(true, 0, 0)];
    var st1 := State(res, 0, -1, false);
    ZeroOrMoreNameStep();
    assert Run(opts, Init(Zeroed(1)), ["prog", "-z"], 1, 2, NO_FLOATS) == (Ok, st1);
    var st2 := State(res, -1, -1, true);
    assert GetArgType("--") == DoubleHyphen;
    assert Step(opts, st1, "--", 2, NO_FLOATS) == (Ok, st2);
    assert Run(opts, Init(Zeroed(1)), ["prog", "-z", "--"], 1, 3, NO_FLOATS) == (Ok, st2);
    NothingRequired(opts, st2);
    assert HasShortName(opts[0], 'z') && FindShort(opts, 'z') == 0;
    assert EmptyZeroOrMore(opts, res, 0);
  }

  // ---------------------------------------------------------------------
  // `file`: a single positional.

  function FileOpts(): seq<OptionSpec> {
    [PositionalOption(Some("file"), None, FLAG_NONE)]
  }

  /** A value with the cursor at -1 goes to `file`. */
  lemma FileFirstStep(res: seq<ParseRes>, arg: string, pos: nat, after: bool)
    requires |res| == 1 && GetArgType(arg) == PosArg
    ensures Step(FileOpts(), State(res, -1, -1, after), arg, pos, NO_FLOATS)
            == (Ok, State([Bound(FileOpts(), res, 0, arg, pos, NO_FLOATS).1], -1, 0, after))
  {
    var opts := FileOpts();
    assert NextPositional(opts, -1) == 0;
    assert res[0 := Bound(opts, res, 0, arg, pos, NO_FLOATS).1] == [Bound(opts, res, 0, arg, pos, NO_FLOATS).1];
  }

  /** A second value for a single positional is UNEXPECTED_POSITIONAL. */
  lemma SecondValueUnexpected()
    ensures Parse(FileOpts(), Zeroed(1), ["prog", "a", "b"], NO_FLOATS).0 == ErrUnexpectedPositional
  {
    var opts := FileOpts();
    assert GetArgType("a") == PosArg && GetArgType("b") == PosArg;
    assert NextPositional(opts, 0) == -1;
    assert Zeroed(1) == [EMPTY_RES];
    FileFirstStep(Zeroed(1), "a", 1, false);
    var st1 := State([ParseRes(true, 1, 1)], -1, 0, false);
    NoPositionalLeft(opts, st1, "b", 2, NO_FLOATS);
    assert Run(opts, Init(Zeroed(1)), ["prog", "a", "b"], 1, 3, NO_FLOATS).0 == ErrUnexpectedPositional;
  }

  /** With `--` between the two values, the cursor, having run off the end,
      starts over at the first positional, which then holds two values. */
  lemma DoubleHyphenRestartParse()
    ensures Parse(FileOpts(), Zeroed(1), ["prog", "a", "--", "b"], NO_FLOATS) == (Ok, [ParseRes(true, 1, 2)])
  {
    var opts := FileOpts();
    var argv := ["prog", "a", "--", "b"];
    assert GetArgType("a") == PosArg && GetArgType("b") == PosArg && GetArgType("--") == DoubleHyphen;
    assert NextPositional(opts, 0) == -1;
    assert Zeroed(1) == [EMPTY_RES];
    var res1 := [ParseRes(true, 1, 1)];
    FileFirstStep(Zeroed(1), "a", 1, false);
    var st1 := State(res1, -1, 0, false);
    var st2 := State(res1, -1, -1, true);
    assert Step(opts, st1, "--", 2, NO_FLOATS) == (Ok, st2);
    FileFirstStep(res1, "b", 3, true);
    var st3 := State([ParseRes(true, 1, 2)], -1, 0, true);
    assert Run(opts, st2, argv, 3, 4, NO_FLOATS) == (Ok, st3);
    assert Run(opts, st1, argv, 2, 4, NO_FLOATS) == (Ok, st3);
    assert Run(opts, Init(Zeroed(1)), argv, 1, 4, NO_FLOATS) == (Ok, st3);
    NothingRequired(opts, st3);
  }

  /** `prog a -- b` with the single positional `file`: it holds two values,
      and the second one the accessor reads is the `--` token itself, since
      values are read as consecutive tokens from the first one. */
  lemma DoubleHyphenRestartsCursor()
    ensures var argv := ["prog", "a", "--", "b"];
            var p := Parse(FileOpts(), Zeroed(1), argv, NO_FLOATS);
            && p == (Ok, [ParseRes(true, 1, 2)])
            && GetArgCountLong(FileOpts(), p.1, "file") == (Ok, 2)
            && GetPositional(FileOpts(), p.1, argv, "file", "", 0) == (Ok, Some("a"))
            && GetPositional(FileOpts(), p.1, argv, "file", "", 1) == (Ok, Some("--"))
  {
    var opts := FileOpts();
    var argv := ["prog", "a", "--", "b"];
    var res := [ParseRes(true, 1, 2)];
    DoubleHyphenRestartParse();
    assert HasLongName(opts[0], "file") && FindLong(opts, "file") == 0;
    assert TokenAt(res, argv, 0, 0) == "a" && TokenAt(res, argv, 0, 1) == "--";
  }

  // ---------------------------------------------------------------------
  // `-v`, a flag, and `files`, an open-ended positional.

  function FilesOpts(): seq<OptionSpec> {
    [BoolOption(Some('v'), None, None, FLAG_NONE),
     OptionSpec(Pos, None, Some("files"), None, FLAG_NONE, NARGS_ONE_OR_MORE)]
  }

  /** The first value goes to `files`. */
  lemma FilesFirstStep()
    ensures Step(FilesOpts(), Init(Zeroed(2)), "a", 1, NO_FLOATS)
            == (Ok, State([EMPTY_RES, ParseRes(true, 1, 1)], -1, 1, false))
  {
    var opts := FilesOpts();
    assert GetArgType("a") == PosArg;
    assert NextPositional(opts, -1) == 1;
    assert Zeroed(2) == [EMPTY_RES, EMPTY_RES];
    var res1 := [EMPTY_RES, ParseRes(true, 1, 1)];
    assert Zeroed(2)[1 := res1[1]] == res1;
    assert HandlePositionalArg(opts, Zeroed(2), -1, "a", 1, NO_FLOATS) == (Ok, 1, res1);
  }

  /** `-v` marks the flag. */
  lemma FilesFlagStep()
    ensures Step(FilesOpts(), State([EMPTY_RES, ParseRes(true, 1, 1)], -1, 1, false), "-v", 2, NO_FLOATS)
            == (Ok, State([ParseRes(true, 0, 1), ParseRes(true, 1, 1)], -1, 1, false))
  {
    var opts := FilesOpts();
    var res1 := [EMPTY_RES, ParseRes(true, 1, 1)];
    assert GetArgType("-v") == ShortArg;
    assert HasShortName(opts[0], 'v') && FindShort(opts, 'v') == 0;
    assert res1[0 := Marked(res1[0])] == [ParseRes(true, 0, 1), ParseRes(true, 1, 1)];
  }

  /** The second value also goes to the open-ended `files`. */
  lemma FilesSecondStep()
    ensures Step(FilesOpts(), State([ParseRes(true, 0, 1), ParseRes(true, 1, 1)], -1, 1, false), "b", 3, NO_FLOATS)
            == (Ok, State([ParseRes(true, 0, 1), ParseRes(true, 1, 2)], -1, 1, false))
  {
    var opts := FilesOpts();
    var res2 := [ParseRes(true, 0, 1), ParseRes(true, 1, 1)];
    var res3 := [ParseRes(true, 0, 1), ParseRes(true, 1, 2)];
    assert GetArgType("b") == PosArg;
    assert res2[1 := res3[1]] == res3;
    assert HandlePositionalArg(opts, res2, 1, "b", 3, NO_FLOATS) == (Ok, 1, res3);
  }

  /** `prog a -v b`: both values go to `files`, which records the position
      of the first and a count of two. */
  lemma FilesParse()
    ensures Parse(FilesOpts(), Zeroed(2), ["prog", "a", "-v", "b"], NO_FLOATS)
            == (Ok, [ParseRes(true, 0, 1), ParseRes(true, 1, 2)])
  {
    var opts := FilesOpts();
    var argv := ["prog", "a", "-v", "b"];
    var st1 := State([EMPTY_RES, ParseRes(true, 1, 1)], -1, 1, false);
    var st2 := State([ParseRes(true, 0, 1), ParseRes(true, 1, 1)], -1, 1, false);
    var st3 := State([ParseRes(true, 0, 1), ParseRes(true, 1, 2)], -1, 1, false);
    FilesFirstStep();
    FilesFlagStep();
    FilesSecondStep();
    assert Run(opts, st2, argv, 3, 4, NO_FLOATS) == (Ok, st3);
    assert Run(opts, st1, argv, 2, 4, NO_FLOATS) == (Ok, st3);
    assert Run(opts, Init(Zeroed(2)), argv, 1, 4, NO_FLOATS) == (Ok, st3);
    NothingRequired(opts, st3);
  }

  /** `prog a -v b`: the accessor reads values as consecutive tokens from
      the first one, so the second value of `files` it returns is `-v`, not
      `b`. */
  lemma ConsecutiveReadQuirk()
    ensures var argv := ["prog", "a", "-v", "b"];
            var p := Parse(FilesOpts(), Zeroed(2), argv, NO_FLOATS);
            && p == (Ok, [ParseRes(true, 0, 1), ParseRes(true, 1, 2)])
            && GetBoolShort(FilesOpts(), p.1, argv, 'v') == (Ok, Some(true))
            && GetPositional(FilesOpts(), p.1, argv, "files", "", 1) == (Ok, Some("-v"))
  {
    var opts := FilesOpts();
    var argv := ["prog", "a", "-v", "b"];
    var res := [ParseRes(true, 0, 1), ParseRes(true, 1, 2)];
    FilesParse();
    assert HasShortName(opts[0], 'v') && FindShort(opts, 'v') == 0;
    assert HasLongName(opts[1], "files") && FindLong(opts, "files") == 1;
    assert TokenAt(res, argv, 1, 1) == "-v";
  }

  // ---------------------------------------------------------------------
  // Flags `-v`, `-q` and an int option `-n`.

  function BundleOpts(): seq<OptionSpec> {
    [BoolOption(Some('v'), None, None, FLAG_NONE),
     BoolOption(Some('q'), None, None, FLAG_NONE),
     IntOption(Some('n'), None, None, FLAG_NONE, 1)]
  }

  /** The bundle loop on `vq` marks both flags. */
  lemma MarkBothFlags()
    ensures MarkBools(BundleOpts(), Zeroed(3), "vq") == (Ok, [ParseRes(true, 0, 1), ParseRes(true, 0, 1), EMPTY_RES])
  {
    var opts := BundleOpts();
    assert HasShortName(opts[0], 'v') && FindShort(opts, 'v') == 0;
    assert HasShortName(opts[1], 'q') && FindShort(opts, 'q') == 1;
    assert Zeroed(3) == [EMPTY_RES, EMPTY_RES, EMPTY_RES];
    var m1 := [ParseRes(true, 0, 1), EMPTY_RES, EMPTY_RES];
    assert Zeroed(3)[0 := Marked(EMPTY_RES)] == m1;
    var m2 := [ParseRes(true, 0, 1), ParseRes(true, 0, 1), EMPTY_RES];
    assert m1[1 := Marked(EMPTY_RES)] == m2;
    assert "vq"[1..] == "q" && "q"[1..] == "";
    assert MarkBools(opts, m1, "q") == (Ok, m2);
  }

  /** The token `-vq` marks both flags and leaves nothing pending. */
  lemma BothFlagsStep()
    ensures StepShort(BundleOpts(), Init(Zeroed(3)), "-vq")
            == (Ok, State([ParseRes(true, 0, 1), ParseRes(true, 0, 1), EMPTY_RES], -1, -1, false))
  {
    var opts := BundleOpts();
    var m2 := [ParseRes(true, 0, 1), ParseRes(true, 0, 1), EMPTY_RES];
    MarkBothFlags();
    assert "-vq"[1..] == "vq";
    assert HandleMultShortBoolOptions(opts, Zeroed(3), "-vq") == (Ok, -1, m2);
    BundleThenShortIsNoOp(opts, Zeroed(3), "-vq");
  }

  /** `prog -vq` marks both flags. */
  lemma BundleMarksBoth()
    ensures Parse(BundleOpts(), Zeroed(3), ["prog", "-vq"], NO_FLOATS)
            == (Ok, [ParseRes(true, 0, 1), ParseRes(true, 0, 1), EMPTY_RES])
  {
    var opts := BundleOpts();
    var st1 := State([ParseRes(true, 0, 1), ParseRes(true, 0, 1), EMPTY_RES], -1, -1, false);
    BothFlagsStep();
    assert GetArgType("-vq") == ShortArg;
    assert Step(opts, Init(Zeroed(3)), "-vq", 1, NO_FLOATS) == (Ok, st1);
    assert Run(opts, Init(Zeroed(3)), ["prog", "-vq"], 1, 2, NO_FLOATS) == (Ok, st1);
    NothingRequired(opts, st1);
  }

  /** `prog -vn` fails with NOT_BOOL_IN_MULT_BOOL_DEF but leaves `-v`
      marked in the buffer the caller gets back. */
  lemma BundleFailsAfterMarking()
    ensures Parse(BundleOpts(), Zeroed(3), ["prog", "-vn"], NO_FLOATS)
            == (ErrNotBoolInMultBoolDef, [ParseRes(true, 0, 1), EMPTY_RES, EMPTY_RES])
  {
    var opts := BundleOpts();
    assert GetArgType("-vn") == ShortArg;
    assert HasShortName(opts[0], 'v') && FindShort(opts, 'v') == 0;
    assert HasShortName(opts[2], 'n') && FindShort(opts, 'n') == 2;
    assert Zeroed(3) == [EMPTY_RES, EMPTY_RES, EMPTY_RES];
    var m1 := [ParseRes(true, 0, 1), EMPTY_RES, EMPTY_RES];
    assert Zeroed(3)[0 := Marked(EMPTY_RES)] == m1;
    assert "-vn"[1..] == "vn" && "vn"[1..] == "n";
    assert MarkBools(opts, m1, "n") == (ErrNotBoolInMultBoolDef, m1);
    assert MarkBools(opts, Zeroed(3), "vn") == (ErrNotBoolInMultBoolDef, m1);
    assert HandleMultShortBoolOptions(opts, Zeroed(3), "-vn") == (ErrNotBoolInMultBoolDef, -1, m1);
    assert Step(opts, Init(Zeroed(3)), "-vn", 1, NO_FLOATS) == (ErrNotBoolInMultBoolDef, State(m1, -1, -1, false));
  }

  // ---------------------------------------------------------------------
  // A required `-n` and a positional `file`.

  /** `prog x` fills the positional but fails with NOT_ALL_REQUIRED_OPTIONS. */
  lemma RequiredOptionMissing()
    ensures Parse([IntOption(Some('n'), None, None, FLAG_REQUIRED, 1), PositionalOption(Some("file"), None, FLAG_NONE)],
                  Zeroed(2), ["prog", "x"], NO_FLOATS)
            == (ErrNotAllRequiredOptions, [EMPTY_RES, ParseRes(true, 1, 1)])
  {
    var opts := [IntOption(Some('n'), None, None, FLAG_REQUIRED, 1), PositionalOption(Some("file"), None, FLAG_NONE)];
    assert GetArgType("x") == PosArg;
    assert opts[0].kind == Int && opts[1].kind == Pos && NextPositional(opts, -1) == 1;
    assert Zeroed(2) == [EMPTY_RES, EMPTY_RES];
    var res := [EMPTY_RES, ParseRes(true, 1, 1)];
    assert Zeroed(2)[1 := res[1]] == res;
    assert HandlePositionalArg(opts, Zeroed(2), -1, "x", 1, NO_FLOATS) == (Ok, 1, res);
    var st1 := State(res, -1, 1, false);
    assert Step(opts, Init(Zeroed(2)), "x", 1, NO_FLOATS) == (Ok, st1);
    assert IsRequired(opts[0]) && !res[0].isGot;
    assert Finish(opts, st1) == ErrNotAllRequiredOptions;
  }
}
