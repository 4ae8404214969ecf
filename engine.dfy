/** The parse engine of `cargparse_parse` as functions over values: the value
    binder `_cargparse_set_parse_res`, the `_cargparse_handle_*` helpers, one
    pass of the argv loop (`Step`), the loop itself (`Run`, `Scan`) and the
    end-of-input checks. The class in parser.dfy runs the same steps in place
    and is proved equal to these functions. */
module Engine {
  import opened Types
  import opened Values
  import opened Classify
  import opened Registry

  /** The variables `cargparse_parse` carries from one token to the next:
      the result buffer, `opt_idx` (the pending option, -1 for none),
      `last_pos_i` (the positional cursor, -1 for none) and
      `after_double_hyphen`. */
  datatype State = State(res: seq<ParseRes>, optIdx: int, lastPos: int, afterDoubleHyphen: bool)

  /** The state before the first token: nothing pending, no positional yet. */
  function Init(res: seq<ParseRes>): State {
    State(res, -1, -1, false)
  }

  /** The state invariants of the argv loop. */
  predicate WellFormed(opts: seq<OptionSpec>, st: State) {
    && |st.res| == |opts|
    && -1 <= st.optIdx < |opts|
    && -1 <= st.lastPos < |opts|
    && (st.lastPos >= 0 ==> opts[st.lastPos].kind == Pos)
    && (st.afterDoubleHyphen ==> st.optIdx == -1)
  }

  /** Every captured run of tokens lies below position `n` of argv, so the
      accessor's `valuestr + narg` stays inside argv. */
  predicate CapturesWithin(res: seq<ParseRes>, n: nat) {
    forall k :: 0 <= k < |res| ==> res[k].start + res[k].count <= n
  }

  /** Every slot of `b` keeps the position of `a` and has at most one more
      value: what marking flags and activating options can do. */
  predicate MarksOnly(a: seq<ParseRes>, b: seq<ParseRes>) {
    |a| == |b| && forall j :: 0 <= j < |a| ==> b[j].start == a[j].start && b[j].count <= a[j].count + 1
  }

  /** The codes the argv loop can return. */
  predicate ScanCode(s: Status) {
    || s == Ok || s == ErrOptionUnknown || s == ErrOptionNeedsArg || s == ErrOptionAlreadySet
    || s == ErrUnexpectedPositional || s == ErrInvalidValue || s == ErrNotBoolInMultBoolDef
  }

  /** An option that takes no more values: satisfied with a fixed arity. */
  predicate Closed(opts: seq<OptionSpec>, res: seq<ParseRes>, k: int)
    requires |res| == |opts| && 0 <= k < |opts|
  {
    res[k].isGot && !OpenEnded(opts[k].nargs)
  }

  /** The type switch of `_cargparse_set_parse_res`: a flag takes no value,
      strings and positionals take any token, an int takes exactly the tokens
      `strtol` consumes whole, and a float the tokens the float reader accepts. */
  function Admits(fr: FloatReader, kind: OptionType, arg: string): (b: bool)
    ensures kind == Bool ==> !b
    ensures kind == Str || kind == Pos ==> b
    ensures kind == Int ==> (b <==> IntegerShape(arg))
    ensures kind == Float ==> (b <==> fr.accepts(arg))
  {
    match kind
    case Bool => false
    case Str => true
    case Pos => true
    case Int => IsValidInt(arg)
    case Float => fr.accepts(arg)
  }

  /** `_cargparse_set_parse_res`: append the token at argv position `pos` to
      a result slot. A rejected token leaves the slot alone; the first
      accepted one records its position; every accepted one adds one to the
      count; the slot is satisfied once the count reaches the declared
      `nargs`, which the negative open-ended sentinels always are. */
  function SetParseRes(kind: OptionType, arg: string, pos: nat, slot: ParseRes, opt: OptionSpec,
                       fr: FloatReader): (r: (Status, ParseRes))
    ensures r.0 == Ok || r.0 == ErrInvalidValue
    ensures r.0 == Ok <==> Admits(fr, kind, arg)
    ensures r.0 != Ok ==> r.1 == slot
    ensures r.0 == Ok ==> r.1.count == slot.count + 1
    ensures r.0 == Ok ==> r.1.start == (if slot.count == 0 then pos else slot.start)
    ensures r.0 == Ok ==> (r.1.isGot <==> opt.nargs <= r.1.count)
    ensures r.0 == Ok && OpenEnded(opt.nargs) ==> r.1.isGot
  {
    if !Admits(fr, kind, arg) then (ErrInvalidValue, slot)
    else if slot.count == 0 then (Ok, ParseRes(opt.nargs <= 1, pos, 1))
    else (Ok, ParseRes(opt.nargs <= slot.count + 1, slot.start, slot.count + 1))
  }

  /** The slot `k` of `res` after SetParseRes binds `arg` to option `k`. */
  function Bound(opts: seq<OptionSpec>, res: seq<ParseRes>, k: int, arg: string, pos: nat,
                 fr: FloatReader): (Status, ParseRes)
    requires |res| == |opts| && 0 <= k < |opts|
  {
    SetParseRes(opts[k].kind, arg, pos, res[k], opts[k], fr)
  }

  /** `_cargparse_handle_positional_arg`: the cursor moves to the next
      positional only when there is none yet or the current one is satisfied
      with a fixed arity (so an open-ended positional absorbs all later
      values); with no positional left the token is unexpected. The result is
      (code, new cursor, new buffer). */
  function HandlePositionalArg(opts: seq<OptionSpec>, res: seq<ParseRes>, lastPos: int, arg: string,
                               pos: nat, fr: FloatReader): (r: (Status, int, seq<ParseRes>))
    requires |res| == |opts| && -1 <= lastPos < |opts|
    ensures -1 <= r.1 < |opts| && |r.2| == |res|
    ensures r.1 == (if lastPos == -1 || Closed(opts, res, lastPos) then NextPositional(opts, lastPos) else lastPos)
    ensures r.0 == ErrUnexpectedPositional <==> r.1 == -1
    ensures r.1 == -1 ==> r.2 == res
    ensures r.1 >= 0 ==> r.0 == Bound(opts, res, r.1, arg, pos, fr).0
    ensures r.1 >= 0 ==> r.2 == res[r.1 := Bound(opts, res, r.1, arg, pos, fr).1]
  {
    var lp := if lastPos == -1 || Closed(opts, res, lastPos) then NextPositional(opts, lastPos) else lastPos;
    if lp != -1 then
      var b := Bound(opts, res, lp, arg, pos, fr);
      (b.0, lp, res[lp := b.1])
    else (ErrUnexpectedPositional, -1, res)
  }

  /** `_cargparse_handle_option_arg`: a value for the pending option. An
      option that is already closed refuses it with OPTION_ALREADY_SET;
      otherwise the token is accepted exactly when its kind admits it. */
  function HandleOptionArg(opts: seq<OptionSpec>, res: seq<ParseRes>, optIdx: int, arg: string, pos: nat,
                           fr: FloatReader): (r: (Status, seq<ParseRes>))
    requires |res| == |opts| && 0 <= optIdx < |opts|
    ensures |r.1| == |res|
    ensures Closed(opts, res, optIdx) ==> r == (ErrOptionAlreadySet, res)
    ensures r.0 == Ok <==> !Closed(opts, res, optIdx) && Admits(fr, opts[optIdx].kind, arg)
    ensures r.0 != Ok ==> r.1 == res
    ensures r.0 == Ok ==> r.1 == res[optIdx := Bound(opts, res, optIdx, arg, pos, fr).1]
  {
    if Closed(opts, res, optIdx) then (ErrOptionAlreadySet, res)
    else
      var b := Bound(opts, res, optIdx, arg, pos, fr);
      (b.0, res[optIdx := b.1])
  }

  /** A flag's slot once the flag is seen: satisfied with one argument. */
  function Marked(slot: ParseRes): ParseRes {
    slot.(isGot := true, count := 1)
  }

  /** What `_cargparse_handle_short_option` and `_cargparse_handle_long_option`
      do with the option they found: a flag is marked and nothing stays
      pending; a zero-or-more option is satisfied at once and stays pending;
      any other option becomes pending with no other change. The result is
      (new buffer, new pending index). */
  function Activate(opts: seq<OptionSpec>, res: seq<ParseRes>, k: int): (r: (seq<ParseRes>, int))
    requires |res| == |opts| && 0 <= k < |opts|
    ensures opts[k].kind == Bool ==> r == (res[k := Marked(res[k])], -1)
    ensures opts[k].kind != Bool && opts[k].nargs == NARGS_ZERO_OR_MORE ==> r == (res[k := res[k].(isGot := true)], k)
    ensures opts[k].kind != Bool && opts[k].nargs != NARGS_ZERO_OR_MORE ==> r == (res, k)
  {
    if opts[k].kind == Bool then (res[k := Marked(res[k])], -1)
    else if opts[k].nargs == NARGS_ZERO_OR_MORE then (res[k := res[k].(isGot := true)], k)
    else (res, k)
  }

  /** `_cargparse_handle_short_option` on `-c`: OPTION_UNKNOWN, with nothing
      changed, exactly when no option has short name c. The result is (code,
      new pending index, new buffer). */
  function HandleShortOption(opts: seq<OptionSpec>, res: seq<ParseRes>, arg: string): (r: (Status, int, seq<ParseRes>))
    requires |res| == |opts| && |arg| >= 2
    ensures r.0 == Ok || r.0 == ErrOptionUnknown
    ensures r.0 == ErrOptionUnknown <==> FindShort(opts, arg[1]) == -1
    ensures r.0 == ErrOptionUnknown ==> r.1 == -1 && r.2 == res
    ensures r.0 == Ok ==> (r.2, r.1) == Activate(opts, res, FindShort(opts, arg[1]))
  {
    var k := FindShort(opts, arg[1]);
    if k == -1 then (ErrOptionUnknown, -1, res)
    else
      var a := Activate(opts, res, k);
      (Ok, a.1, a.0)
  }

  /** `_cargparse_handle_long_option` on `--name`: as the short handler, with
      the lookup by the long name after the two dashes. */
  function HandleLongOption(opts: seq<OptionSpec>, res: seq<ParseRes>, arg: string): (r: (Status, int, seq<ParseRes>))
    requires |res| == |opts| && |arg| >= 2
    ensures r.0 == Ok || r.0 == ErrOptionUnknown
    ensures r.0 == ErrOptionUnknown <==> FindLong(opts, arg[2..]) == -1
    ensures r.0 == ErrOptionUnknown ==> r.1 == -1 && r.2 == res
    ensures r.0 == Ok ==> (r.2, r.1) == Activate(opts, res, FindLong(opts, arg[2..]))
  {
    var k := FindLong(opts, arg[2..]);
    if k == -1 then (ErrOptionUnknown, -1, res)
    else
      var a := Activate(opts, res, k);
      (Ok, a.1, a.0)
  }

  /** The loop of `_cargparse_handle_mult_short_bool_options` over the
      characters `cs`, left to right: each character must name a flag, which
      is marked at once; the first unknown or non-flag character stops the
      loop with the marks made so far left in place. */
  function MarkBools(opts: seq<OptionSpec>, res: seq<ParseRes>, cs: string): (r: (Status, seq<ParseRes>))
    requires |res| == |opts|
    ensures r.0 == Ok || r.0 == ErrOptionUnknown || r.0 == ErrNotBoolInMultBoolDef
    ensures |r.1| == |res|
    decreases |cs|
  {
    if cs == [] then (Ok, res)
    else
      var k := FindShort(opts, cs[0]);
      if k == -1 then (ErrOptionUnknown, res)
      else if opts[k].kind != Bool then (ErrNotBoolInMultBoolDef, res)
      else MarkBools(opts, res[k := Marked(res[k])], cs[1..])
  }

  /** Whether it succeeds or not, a bundle leaves every slot as it was or
      marks it, and only flags are marked. */
  lemma {:induction false} MarkBoolsMarksFlags(opts: seq<OptionSpec>, res: seq<ParseRes>, cs: string)
    requires |res| == |opts|
    ensures forall j :: 0 <= j < |res| ==>
              MarkBools(opts, res, cs).1[j] == res[j] || (opts[j].kind == Bool && MarkBools(opts, res, cs).1[j] == Marked(res[j]))
    decreases |cs|
  {
    if cs != [] {
      var k := FindShort(opts, cs[0]);
      if k != -1 && opts[k].kind == Bool {
        MarkBoolsMarksFlags(opts, res[k := Marked(res[k])], cs[1..]);
      }
    }
  }

  /** `_cargparse_handle_mult_short_bool_options` on a bundle `-abc`: nothing
      is pending afterwards, and the characters after the dash go through
      MarkBools. */
  function HandleMultShortBoolOptions(opts: seq<OptionSpec>, res: seq<ParseRes>, arg: string): (r: (Status, int, seq<ParseRes>))
    requires |res| == |opts| && |arg| >= 1
    ensures r.1 == -1
    ensures (r.0, r.2) == MarkBools(opts, res, arg[1..])
  {
    var m := MarkBools(opts, res, arg[1..]);
    (m.0, -1, m.1)
  }

  /** The tag the loop dispatches on: after `--` every token but `--` itself
      is a value; before it, the classifier decides. */
  function EffectiveType(arg: string, afterDoubleHyphen: bool): (t: ArgType)
    ensures afterDoubleHyphen && arg != "--" ==> t == PosArg
    ensures !afterDoubleHyphen || arg == "--" ==> t == GetArgType(arg)
  {
    var t := GetArgType(arg);
    if afterDoubleHyphen && t != DoubleHyphen then PosArg else t
  }

  /** The check before a SHORT or LONG token: a pending open-ended option is
      dropped, a pending fixed-arity option is an error (OPTION_NEEDS_ARG).
      The C code reads `options[opt_idx]` even when `opt_idx` is -1; the
      model makes no check then. */
  function LeavePending(opts: seq<OptionSpec>, optIdx: int): (s: Status)
    requires -1 <= optIdx < |opts|
    ensures s == ErrOptionNeedsArg <==> optIdx != -1 && !OpenEnded(opts[optIdx].nargs)
    ensures s == Ok <==> s != ErrOptionNeedsArg
  {
    if optIdx != -1 && !OpenEnded(opts[optIdx].nargs) then ErrOptionNeedsArg else Ok
  }

  /** A value token (cargparse.c:323-338): to the positional cursor when
      nothing is pending, otherwise to the pending option, which stops being
      pending once it is closed. */
  function StepValue(opts: seq<OptionSpec>, st: State, arg: string, pos: nat, fr: FloatReader): (r: (Status, State))
    requires WellFormed(opts, st)
    ensures WellFormed(opts, r.1)
    ensures r.0 == Ok || r.0 == ErrInvalidValue || r.0 == ErrUnexpectedPositional || r.0 == ErrOptionAlreadySet
    ensures r.1.afterDoubleHyphen == st.afterDoubleHyphen
  {
    if st.optIdx == -1 then
      var h := HandlePositionalArg(opts, st.res, st.lastPos, arg, pos, fr);
      (h.0, st.(res := h.2, lastPos := h.1))
    else
      var h := HandleOptionArg(opts, st.res, st.optIdx, arg, pos, fr);
      if h.0 != Ok then (h.0, st)
      else (Ok, st.(res := h.1, optIdx := if Closed(opts, h.1, st.optIdx) then -1 else st.optIdx))
  }

  /** A SHORT token (cargparse.c:339-353). A token longer than two characters
      is first tried as a flag bundle; when the bundle succeeds the
      single-option handler still runs on its first character. */
  function StepShort(opts: seq<OptionSpec>, st: State, arg: string): (r: (Status, State))
    requires WellFormed(opts, st) && !st.afterDoubleHyphen && |arg| >= 2
    ensures WellFormed(opts, r.1) && !r.1.afterDoubleHyphen
    ensures r.0 == Ok || r.0 == ErrOptionNeedsArg || r.0 == ErrOptionUnknown || r.0 == ErrNotBoolInMultBoolDef
    ensures r.1.lastPos == st.lastPos
  {
    if LeavePending(opts, st.optIdx) != Ok then (ErrOptionNeedsArg, st)
    else if |arg| > 2 then
      var b := HandleMultShortBoolOptions(opts, st.res, arg);
      if b.0 != Ok then (b.0, st.(optIdx := b.1, res := b.2))
      else
        var h := HandleShortOption(opts, b.2, arg);
        (h.0, st.(optIdx := h.1, res := h.2))
    else
      var h := HandleShortOption(opts, st.res, arg);
      (h.0, st.(optIdx := h.1, res := h.2))
  }

  /** A LONG token (cargparse.c:354-365). */
  function StepLong(opts: seq<OptionSpec>, st: State, arg: string): (r: (Status, State))
    requires WellFormed(opts, st) && !st.afterDoubleHyphen && |arg| >= 2
    ensures WellFormed(opts, r.1) && !r.1.afterDoubleHyphen
    ensures r.0 == Ok || r.0 == ErrOptionNeedsArg || r.0 == ErrOptionUnknown
    ensures r.1.lastPos == st.lastPos
  {
    if LeavePending(opts, st.optIdx) != Ok then (ErrOptionNeedsArg, st)
    else
      var h := HandleLongOption(opts, st.res, arg);
      (h.0, st.(optIdx := h.1, res := h.2))
  }

  /** A `--` token (cargparse.c:366-375): an error while a fixed-arity
      option is pending; otherwise the cursor moves to the next positional
      after the current one, nothing stays pending and every later token is
      a value. */
  function StepDoubleHyphen(opts: seq<OptionSpec>, st: State): (r: (Status, State))
    requires WellFormed(opts, st)
    ensures WellFormed(opts, r.1)
    ensures r.0 == ErrOptionNeedsArg <==> st.optIdx != -1 && !OpenEnded(opts[st.optIdx].nargs)
    ensures r.0 == ErrOptionNeedsArg ==> r.1 == st
    ensures r.0 != ErrOptionNeedsArg ==>
              r == (Ok, State(st.res, -1, NextPositional(opts, st.lastPos), true))
  {
    if st.optIdx != -1 && !OpenEnded(opts[st.optIdx].nargs) then (ErrOptionNeedsArg, st)
    else (Ok, State(st.res, -1, NextPositional(opts, st.lastPos), true))
  }

  /** One pass of the argv loop of `cargparse_parse` on the token at
      position `pos`. */
  function Step(opts: seq<OptionSpec>, st: State, arg: string, pos: nat, fr: FloatReader): (r: (Status, State))
    requires WellFormed(opts, st)
    ensures WellFormed(opts, r.1)
    ensures ScanCode(r.0)
    ensures st.afterDoubleHyphen ==> r.1.afterDoubleHyphen
  {
    match EffectiveType(arg, st.afterDoubleHyphen)
    case PosArg => StepValue(opts, st, arg, pos, fr)
    case ShortArg => StepShort(opts, st, arg)
    case LongArg => StepLong(opts, st, arg)
    case DoubleHyphen => StepDoubleHyphen(opts, st)
    case Incorrect => (Ok, st)
  }

  /** The argv loop over positions lo .. hi-1: it stops at the first error. */
  function Run(opts: seq<OptionSpec>, st: State, argv: seq<string>, lo: nat, hi: nat,
               fr: FloatReader): (r: (Status, State))
    requires WellFormed(opts, st) && hi <= |argv|
    ensures WellFormed(opts, r.1)
    ensures ScanCode(r.0)
    ensures st.afterDoubleHyphen ==> r.1.afterDoubleHyphen
    decreases hi - lo
  {
    if lo >= hi then (Ok, st)
    else
      var s := Step(opts, st, argv[lo], lo, fr);
      if s.0 != Ok then s else Run(opts, s.1, argv, lo + 1, hi, fr)
  }

  /** The whole argv loop, from position 1 (position 0 is the program). */
  function Scan(opts: seq<OptionSpec>, res: seq<ParseRes>, argv: seq<string>, fr: FloatReader): (r: (Status, State))
    requires |res| == |opts|
    ensures WellFormed(opts, r.1)
    ensures ScanCode(r.0)
  {
    Run(opts, Init(res), argv, 1, |argv|, fr)
  }

  /** Marking a flag or activating an option keeps every slot's position
      and adds at most one to its count. */
  lemma OptionStepMarksOnly(opts: seq<OptionSpec>, st: State, arg: string, pos: nat, fr: FloatReader)
    requires WellFormed(opts, st) && EffectiveType(arg, st.afterDoubleHyphen) in {ShortArg, LongArg}
    ensures MarksOnly(st.res, Step(opts, st, arg, pos, fr).1.res)
  {
    var r := Step(opts, st, arg, pos, fr);
    if LeavePending(opts, st.optIdx) == Ok {
      var k := if EffectiveType(arg, st.afterDoubleHyphen) == ShortArg then FindShort(opts, arg[1])
               else FindLong(opts, arg[2..]);
      if |arg| > 2 && EffectiveType(arg, st.afterDoubleHyphen) == ShortArg {
        var b := MarkBools(opts, st.res, arg[1..]);
        MarkBoolsMarksFlags(opts, st.res, arg[1..]);
        assert MarksOnly(st.res, b.1);
        if b.0 == Ok && k >= 0 {
          assert MarksOnly(b.1, Activate(opts, b.1, k).0);
        }
      } else if k >= 0 {
        assert MarksOnly(st.res, Activate(opts, st.res, k).0);
      }
    }
  }

  /** One token keeps every captured run of tokens below the next position:
      a value is captured at `pos` itself, and no other step moves a
      captured position or grows a count past one. */
  lemma StepKeepsCaptures(opts: seq<OptionSpec>, st: State, arg: string, pos: nat, fr: FloatReader)
    requires WellFormed(opts, st) && pos >= 1 && CapturesWithin(st.res, pos)
    ensures CapturesWithin(Step(opts, st, arg, pos, fr).1.res, pos + 1)
  {
    var t := EffectiveType(arg, st.afterDoubleHyphen);
    if t == ShortArg || t == LongArg {
      OptionStepMarksOnly(opts, st, arg, pos, fr);
    }
  }

  /** A stretch of the loop keeps every captured run below the stretch's
      end. */
  lemma {:induction false} RunKeepsCaptures(opts: seq<OptionSpec>, st: State, argv: seq<string>, lo: nat,
                                            hi: nat, fr: FloatReader)
    requires WellFormed(opts, st) && 1 <= lo <= hi <= |argv| && CapturesWithin(st.res, lo)
    ensures CapturesWithin(Run(opts, st, argv, lo, hi, fr).1.res, hi)
    decreases hi - lo
  {
    if lo < hi {
      var s := Step(opts, st, argv[lo], lo, fr);
      StepKeepsCaptures(opts, st, argv[lo], lo, fr);
      if s.0 == Ok {
        RunKeepsCaptures(opts, s.1, argv, lo + 1, hi, fr);
      }
    }
  }

  /** The whole loop, from a buffer whose captures all lie before position
      1 (as CARGPARSE_INIT leaves it), keeps captures inside argv. */
  lemma ScanKeepsCaptures(opts: seq<OptionSpec>, res: seq<ParseRes>, argv: seq<string>, fr: FloatReader)
    requires |res| == |opts|
    ensures |argv| >= 1 && CapturesWithin(res, 1) ==> CapturesWithin(Scan(opts, res, argv, fr).1.res, |argv|)
  {
    if |argv| >= 1 && CapturesWithin(res, 1) {
      RunKeepsCaptures(opts, Init(res), argv, 1, |argv|, fr);
    }
  }

  /** `_cargparse_check_required_options` from index lo on. */
  function RequiredFrom(opts: seq<OptionSpec>, res: seq<ParseRes>, lo: nat): (b: bool)
    requires |res| == |opts|
    ensures b <==> forall i :: lo <= i < |opts| && IsRequired(opts[i]) ==> res[i].isGot
    decreases |opts| - lo
  {
    if lo >= |opts| then true
    else if IsRequired(opts[lo]) && !res[lo].isGot then false
    else RequiredFrom(opts, res, lo + 1)
  }

  /** `_cargparse_check_required_options`: every option flagged REQUIRED is
      satisfied. */
  function RequiredOptionsGot(opts: seq<OptionSpec>, res: seq<ParseRes>): (b: bool)
    requires |res| == |opts|
    ensures b <==> forall i :: 0 <= i < |opts| && IsRequired(opts[i]) ==> res[i].isGot
  {
    RequiredFrom(opts, res, 0)
  }

  /** The checks after the loop: a still-pending option, even an open-ended
      one, is OPTION_NEEDS_ARG; then an unsatisfied required option is
      NOT_ALL_REQUIRED_OPTIONS; otherwise OK. */
  function Finish(opts: seq<OptionSpec>, st: State): (s: Status)
    requires WellFormed(opts, st)
    ensures s == ErrOptionNeedsArg <==> st.optIdx != -1
    ensures s == ErrNotAllRequiredOptions <==>
              st.optIdx == -1 && exists i :: 0 <= i < |opts| && IsRequired(opts[i]) && !st.res[i].isGot
    ensures s == Ok <==>
              st.optIdx == -1 && forall i :: 0 <= i < |opts| && IsRequired(opts[i]) ==> st.res[i].isGot
  {
    if st.optIdx != -1 then ErrOptionNeedsArg
    else if !RequiredOptionsGot(opts, st.res) then ErrNotAllRequiredOptions
    else Ok
  }

  /** `cargparse_parse` on argv (argc == |argv|) with the result buffer as
      the caller left it: GOT_ZERO_ARGS, with nothing touched, exactly when
      there is only the program name; a failing loop returns its code with
      the partial results; otherwise the end-of-input checks decide. */
  function Parse(opts: seq<OptionSpec>, res: seq<ParseRes>, argv: seq<string>, fr: FloatReader): (r: (Status, seq<ParseRes>))
    requires |res| == |opts|
    ensures |r.1| == |opts|
    ensures r.0 == GotZeroArgs <==> |argv| == 1
    ensures |argv| == 1 ==> r.1 == res
    ensures |argv| != 1 ==> r.1 == Scan(opts, res, argv, fr).1.res
    ensures |argv| != 1 && Scan(opts, res, argv, fr).0 != Ok ==> r.0 == Scan(opts, res, argv, fr).0
    ensures |argv| != 1 && Scan(opts, res, argv, fr).0 == Ok ==> r.0 == Finish(opts, Scan(opts, res, argv, fr).1)
    ensures r.0 == Ok ==> forall i :: 0 <= i < |opts| && IsRequired(opts[i]) ==> r.1[i].isGot
    ensures |argv| >= 1 && CapturesWithin(res, 1) ==> CapturesWithin(r.1, |argv|)
  {
    if |argv| == 1 then (GotZeroArgs, res)
    else
      var s := Scan(opts, res, argv, fr);
      ScanKeepsCaptures(opts, res, argv, fr);
      if s.0 != Ok then (s.0, s.1.res) else (Finish(opts, s.1), s.1.res)
  }
}
