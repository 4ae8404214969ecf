/** Properties of the parse engine over single steps and over runs of
    tokens: the loop stops at the first error, pending options collect their
    values, an open-ended positional absorbs every later value, flag bundles
    mutate left to right, and `--` turns every later token into a value. */
module ParseLaws {
  import opened Types
  import opened Values
  import opened Classify
  import opened Registry
  import opened Engine

  /** A loop that gets through lo .. mid-1 goes on over mid .. hi-1 from
      the state it reached. */
  lemma {:induction false} RunThrough(opts: seq<OptionSpec>, st: State, argv: seq<string>, lo: nat, mid: nat,
                                      hi: nat, fr: FloatReader)
    requires WellFormed(opts, st) && lo <= mid <= hi <= |argv|
    requires Run(opts, st, argv, lo, mid, fr).0 == Ok
    ensures Run(opts, st, argv, lo, hi, fr) == Run(opts, Run(opts, st, argv, lo, mid, fr).1, argv, mid, hi, fr)
    decreases mid - lo
  {
    if lo < mid {
      var s := Step(opts, st, argv[lo], lo, fr);
      RunThrough(opts, s.1, argv, lo + 1, mid, hi, fr);
    }
  }

  /** Once the loop has failed at some position, no later token changes the
      result. */
  lemma {:induction false} ScanStopsAtError(opts: seq<OptionSpec>, st: State, argv: seq<string>, lo: nat,
                                            mid: nat, hi: nat, fr: FloatReader)
    requires WellFormed(opts, st) && lo <= mid <= hi <= |argv|
    requires Run(opts, st, argv, lo, mid, fr).0 != Ok
    ensures Run(opts, st, argv, lo, hi, fr) == Run(opts, st, argv, lo, mid, fr)
    decreases mid - lo
  {
    var s := Step(opts, st, argv[lo], lo, fr);
    if s.0 == Ok {
      ScanStopsAtError(opts, s.1, argv, lo + 1, mid, hi, fr);
    }
  }

  /** The loop over lo .. hi-1 is the loop over lo .. mid-1 followed, if that
      part succeeded, by the loop over mid .. hi-1 from where it left off; if
      it failed, nothing after mid changes the outcome. */
  lemma RunSplits(opts: seq<OptionSpec>, st: State, argv: seq<string>, lo: nat, mid: nat, hi: nat,
                  fr: FloatReader)
    requires WellFormed(opts, st) && lo <= mid <= hi <= |argv|
    ensures var first := Run(opts, st, argv, lo, mid, fr);
            Run(opts, st, argv, lo, hi, fr) == if first.0 != Ok then first else Run(opts, first.1, argv, mid, hi, fr)
  {
    if Run(opts, st, argv, lo, mid, fr).0 == Ok {
      RunThrough(opts, st, argv, lo, mid, hi, fr);
    } else {
      ScanStopsAtError(opts, st, argv, lo, mid, hi, fr);
    }
  }

  /** One turn of the loop at position lo: a failing step ends the loop with
      its result, a successful one is followed by the rest of the loop from
      the state it leaves. */
  lemma RunStep(opts: seq<OptionSpec>, st: State, argv: seq<string>, lo: nat, hi: nat, fr: FloatReader)
    requires WellFormed(opts, st) && lo < hi <= |argv|
    ensures var s := Step(opts, st, argv[lo], lo, fr);
            Run(opts, st, argv, lo, hi, fr) == if s.0 != Ok then s else Run(opts, s.1, argv, lo + 1, hi, fr)
  {
  }

  /** The tokens at positions lo .. hi-1 are all dispatched as values. */
  predicate ValueRun(argv: seq<string>, lo: nat, hi: nat, after: bool)
    requires hi <= |argv|
  {
    forall i :: lo <= i < hi ==> EffectiveType(argv[i], after) == PosArg
  }

  /** The tokens at positions lo .. hi-1 are all admitted by an option kind. */
  predicate AdmittedRun(fr: FloatReader, kind: OptionType, argv: seq<string>, lo: nat, hi: nat)
    requires hi <= |argv|
  {
    forall i :: lo <= i < hi ==> Admits(fr, kind, argv[i])
  }

  /** A result slot after m further values, the first of them at argv
      position lo: the count grows by m, a slot that had no value records lo,
      and the slot is satisfied once its count reaches nargs. */
  function Appended(slot: ParseRes, nargs: int, lo: nat, m: nat): ParseRes {
    if m == 0 then slot
    else ParseRes(nargs <= slot.count + m, if slot.count == 0 then lo else slot.start, slot.count + m)
  }

  /** Appending one value and then m - 1 more is appending m values. */
  lemma AppendedMore(res: seq<ParseRes>, k: int, n: int, lo: nat, m: nat)
    requires 0 <= k < |res| && m >= 1
    ensures var b := Appended(res[k], n, lo, 1);
            res[k := b][k := Appended(b, n, lo + 1, m - 1)] == res[k := Appended(res[k], n, lo, m)]
  {
    var b := Appended(res[k], n, lo, 1);
    assert Appended(b, n, lo + 1, m - 1) == Appended(res[k], n, lo, m);
  }

  /** Binding one accepted value is appending one value. */
  lemma BoundIsAppended(opts: seq<OptionSpec>, res: seq<ParseRes>, k: int, arg: string, pos: nat, fr: FloatReader)
    requires |res| == |opts| && 0 <= k < |opts| && Admits(fr, opts[k].kind, arg)
    ensures Bound(opts, res, k, arg, pos, fr) == (Ok, Appended(res[k], opts[k].nargs, pos, 1))
  {
  }

  /** A valid value for a pending option that is not closed binds to it,
      and the option stops being pending once it is closed. */
  lemma PendingValueStep(opts: seq<OptionSpec>, st: State, arg: string, pos: nat, fr: FloatReader)
    requires WellFormed(opts, st) && st.optIdx >= 0 && EffectiveType(arg, st.afterDoubleHyphen) == PosArg
    requires !Closed(opts, st.res, st.optIdx) && Admits(fr, opts[st.optIdx].kind, arg)
    ensures var k := st.optIdx;
            var res' := st.res[k := Appended(st.res[k], opts[k].nargs, pos, 1)];
            Step(opts, st, arg, pos, fr) == (Ok, st.(res := res', optIdx := if Closed(opts, res', k) then -1 else k))
  {
    BoundIsAppended(opts, st.res, st.optIdx, arg, pos, fr);
    assert Step(opts, st, arg, pos, fr) == StepValue(opts, st, arg, pos, fr);
  }

  /** A pending fixed-arity option with c < nargs values collects m more
      consecutive valid values (c + m <= nargs): they are appended to its
      slot, it stops being pending exactly when the count reaches nargs, and
      nothing else changes. */
  lemma {:induction false} FixedArityCollects(opts: seq<OptionSpec>, st: State, argv: seq<string>, lo: nat,
                                              hi: nat, fr: FloatReader)
    requires WellFormed(opts, st) && lo <= hi <= |argv| && !st.afterDoubleHyphen && st.optIdx >= 0
    requires !OpenEnded(opts[st.optIdx].nargs) && !st.res[st.optIdx].isGot
    requires st.res[st.optIdx].count < opts[st.optIdx].nargs
    requires st.res[st.optIdx].count + (hi - lo) <= opts[st.optIdx].nargs
    requires ValueRun(argv, lo, hi, false) && AdmittedRun(fr, opts[st.optIdx].kind, argv, lo, hi)
    ensures var k, n := st.optIdx, opts[st.optIdx].nargs;
            Run(opts, st, argv, lo, hi, fr)
            == (Ok, st.(res := st.res[k := Appended(st.res[k], n, lo, hi - lo)],
                        optIdx := if st.res[k].count + (hi - lo) == n then -1 else k))
    decreases hi - lo
  {
    var k, n := st.optIdx, opts[st.optIdx].nargs;
    if lo == hi {
      assert st.res[k := Appended(st.res[k], n, lo, 0)] == st.res;
    } else {
      PendingValueStep(opts, st, argv[lo], lo, fr);
      var b := Appended(st.res[k], n, lo, 1);
      var st1 := st.(res := st.res[k := b], optIdx := if Closed(opts, st.res[k := b], k) then -1 else k);
      RunStep(opts, st, argv, lo, hi, fr);
      if st.res[k].count + 1 < n {
        assert st1 == st.(res := st.res[k := b]);
        FixedArityCollects(opts, st1, argv, lo + 1, hi, fr);
        AppendedMore(st.res, k, n, lo, hi - lo);
      } else {
        assert hi == lo + 1 && st1.optIdx == -1;
      }
    }
  }

  /** Fewer values than a pending fixed-arity option needs at the end of
      input: the parse fails with OPTION_NEEDS_ARG. */
  lemma FixedArityShortfall(opts: seq<OptionSpec>, st: State, argv: seq<string>, lo: nat, hi: nat,
                            fr: FloatReader)
    requires WellFormed(opts, st) && lo <= hi <= |argv| && !st.afterDoubleHyphen && st.optIdx >= 0
    requires !OpenEnded(opts[st.optIdx].nargs) && !st.res[st.optIdx].isGot
    requires st.res[st.optIdx].count + (hi - lo) < opts[st.optIdx].nargs
    requires ValueRun(argv, lo, hi, false) && AdmittedRun(fr, opts[st.optIdx].kind, argv, lo, hi)
    ensures Run(opts, st, argv, lo, hi, fr).0 == Ok
    ensures Finish(opts, Run(opts, st, argv, lo, hi, fr).1) == ErrOptionNeedsArg
  {
    FixedArityCollects(opts, st, argv, lo, hi, fr);
  }

  /** The run half of OpenEndedCollects, by induction over the values. */
  lemma {:induction false} OpenEndedRun(opts: seq<OptionSpec>, st: State, argv: seq<string>, lo: nat,
                                        hi: nat, fr: FloatReader)
    requires WellFormed(opts, st) && lo <= hi <= |argv| && !st.afterDoubleHyphen && st.optIdx >= 0
    requires OpenEnded(opts[st.optIdx].nargs)
    requires ValueRun(argv, lo, hi, false) && AdmittedRun(fr, opts[st.optIdx].kind, argv, lo, hi)
    ensures var k := st.optIdx;
            Run(opts, st, argv, lo, hi, fr) == (Ok, st.(res := st.res[k := Appended(st.res[k], opts[k].nargs, lo, hi - lo)]))
    decreases hi - lo
  {
    var k, n := st.optIdx, opts[st.optIdx].nargs;
    if lo == hi {
      assert st.res[k := Appended(st.res[k], n, lo, 0)] == st.res;
    } else {
      PendingValueStep(opts, st, argv[lo], lo, fr);
      var b := Appended(st.res[k], n, lo, 1);
      var st1 := st.(res := st.res[k := b]);
      RunStep(opts, st, argv, lo, hi, fr);
      OpenEndedRun(opts, st1, argv, lo + 1, hi, fr);
      AppendedMore(st.res, k, n, lo, hi - lo);
    }
  }

  /** A pending open-ended option absorbs every valid value that follows:
      they are appended to its slot, it stays pending, and nothing else
      changes; if the input ends there, the parse still fails with
      OPTION_NEEDS_ARG. */
  lemma OpenEndedCollects(opts: seq<OptionSpec>, st: State, argv: seq<string>, lo: nat, hi: nat,
                          fr: FloatReader)
    requires WellFormed(opts, st) && lo <= hi <= |argv| && !st.afterDoubleHyphen && st.optIdx >= 0
    requires OpenEnded(opts[st.optIdx].nargs)
    requires ValueRun(argv, lo, hi, false) && AdmittedRun(fr, opts[st.optIdx].kind, argv, lo, hi)
    ensures var k := st.optIdx;
            Run(opts, st, argv, lo, hi, fr) == (Ok, st.(res := st.res[k := Appended(st.res[k], opts[k].nargs, lo, hi - lo)]))
    ensures Finish(opts, Run(opts, st, argv, lo, hi, fr).1) == ErrOptionNeedsArg
  {
    OpenEndedRun(opts, st, argv, lo, hi, fr);
  }

  /** A value for a pending option that is already closed (named again
      after it was satisfied) is refused with OPTION_ALREADY_SET and
      nothing changes. */
  lemma AlreadySetRefusesValue(opts: seq<OptionSpec>, st: State, arg: string, pos: nat, fr: FloatReader)
    requires WellFormed(opts, st) && st.optIdx >= 0 && Closed(opts, st.res, st.optIdx)
    requires EffectiveType(arg, st.afterDoubleHyphen) == PosArg
    ensures Step(opts, st, arg, pos, fr) == (ErrOptionAlreadySet, st)
  {
    assert Step(opts, st, arg, pos, fr) == StepValue(opts, st, arg, pos, fr);
  }

  /** A SHORT or LONG token while an option is pending: OPTION_NEEDS_ARG,
      with nothing changed, when the pending option has a fixed arity; an
      open-ended pending option is silently dropped and the token handled
      as if nothing were pending. */
  lemma OptionTokenWhilePending(opts: seq<OptionSpec>, st: State, arg: string, pos: nat, fr: FloatReader)
    requires WellFormed(opts, st) && st.optIdx >= 0
    requires GetArgType(arg) == ShortArg || GetArgType(arg) == LongArg
    ensures !OpenEnded(opts[st.optIdx].nargs) ==> Step(opts, st, arg, pos, fr) == (ErrOptionNeedsArg, st)
    ensures OpenEnded(opts[st.optIdx].nargs) ==>
              Step(opts, st, arg, pos, fr) == Step(opts, st.(optIdx := -1), arg, pos, fr)
  {
    assert !st.afterDoubleHyphen;
    var dropped := st.(optIdx := -1);
    assert dropped.res == st.res && dropped.lastPos == st.lastPos;
  }

  /** With nothing pending and the cursor on an open-ended positional p, a
      value is appended to p and the cursor stays. */
  lemma AbsorbStep(opts: seq<OptionSpec>, st: State, arg: string, pos: nat, fr: FloatReader)
    requires WellFormed(opts, st) && st.optIdx == -1 && st.lastPos >= 0 && OpenEnded(opts[st.lastPos].nargs)
    requires EffectiveType(arg, st.afterDoubleHyphen) == PosArg
    ensures var p := st.lastPos;
            Step(opts, st, arg, pos, fr) == (Ok, st.(res := st.res[p := Appended(st.res[p], opts[p].nargs, pos, 1)]))
  {
    BoundIsAppended(opts, st.res, st.lastPos, arg, pos, fr);
    assert Step(opts, st, arg, pos, fr) == StepValue(opts, st, arg, pos, fr);
  }

  /** With nothing pending and the cursor on an open-ended positional p,
      every following value is appended to p, the cursor stays, and no
      other slot changes. */
  lemma {:induction false} OpenEndedPositionalAbsorbs(opts: seq<OptionSpec>, st: State, argv: seq<string>,
                                                      lo: nat, hi: nat, fr: FloatReader)
    requires WellFormed(opts, st) && lo <= hi <= |argv| && st.optIdx == -1 && st.lastPos >= 0
    requires OpenEnded(opts[st.lastPos].nargs)
    requires ValueRun(argv, lo, hi, st.afterDoubleHyphen)
    ensures var p := st.lastPos;
            Run(opts, st, argv, lo, hi, fr) == (Ok, st.(res := st.res[p := Appended(st.res[p], opts[p].nargs, lo, hi - lo)]))
    decreases hi - lo
  {
    var p, n := st.lastPos, opts[st.lastPos].nargs;
    if lo == hi {
      assert st.res[p := Appended(st.res[p], n, lo, 0)] == st.res;
    } else {
      AbsorbStep(opts, st, argv[lo], lo, fr);
      var b := Appended(st.res[p], n, lo, 1);
      RunStep(opts, st, argv, lo, hi, fr);
      OpenEndedPositionalAbsorbs(opts, st.(res := st.res[p := b]), argv, lo + 1, hi, fr);
      AppendedMore(st.res, p, n, lo, hi - lo);
    }
  }

  /** A value with nothing pending, when the current positional is closed
      (or there is none yet) and no positional follows it, is
      UNEXPECTED_POSITIONAL, and the cursor is left at -1. */
  lemma NoPositionalLeft(opts: seq<OptionSpec>, st: State, arg: string, pos: nat, fr: FloatReader)
    requires WellFormed(opts, st) && st.optIdx == -1
    requires EffectiveType(arg, st.afterDoubleHyphen) == PosArg
    requires st.lastPos == -1 || Closed(opts, st.res, st.lastPos)
    requires forall j :: st.lastPos < j < |opts| ==> opts[j].kind != Pos
    ensures Step(opts, st, arg, pos, fr) == (ErrUnexpectedPositional, st.(lastPos := -1))
  {
    assert Step(opts, st, arg, pos, fr) == StepValue(opts, st, arg, pos, fr);
  }

  /** `--` from any state, before or after an earlier `--`: refused while a
      fixed-arity option waits for values; otherwise it drops the pending
      option, moves the cursor to the next positional and starts value mode. */
  lemma DoubleHyphenStep(opts: seq<OptionSpec>, st: State, pos: nat, fr: FloatReader)
    requires WellFormed(opts, st)
    ensures st.optIdx != -1 && !OpenEnded(opts[st.optIdx].nargs) ==>
              Step(opts, st, "--", pos, fr) == (ErrOptionNeedsArg, st)
    ensures st.optIdx == -1 || OpenEnded(opts[st.optIdx].nargs) ==>
              Step(opts, st, "--", pos, fr) == (Ok, State(st.res, -1, NextPositional(opts, st.lastPos), true))
  {
    assert EffectiveType("--", st.afterDoubleHyphen) == DoubleHyphen;
  }

  /** A character that names a flag. */
  predicate NamesFlag(opts: seq<OptionSpec>, c: char) {
    FindShort(opts, c) >= 0 && opts[FindShort(opts, c)].kind == Bool
  }

  /** Some character of cs names option j. */
  predicate Mentions(opts: seq<OptionSpec>, cs: string, j: int) {
    exists i :: 0 <= i < |cs| && FindShort(opts, cs[i]) == j
  }

  /** A bundle succeeds exactly when every character names a flag. */
  lemma {:induction false} BundleOkIff(opts: seq<OptionSpec>, res: seq<ParseRes>, cs: string)
    requires |res| == |opts|
    ensures MarkBools(opts, res, cs).0 == Ok <==> forall i :: 0 <= i < |cs| ==> NamesFlag(opts, cs[i])
    decreases |cs|
  {
    if cs != [] {
      var k := FindShort(opts, cs[0]);
      if k != -1 && opts[k].kind == Bool {
        BundleOkIff(opts, res[k := Marked(res[k])], cs[1..]);
        assert forall i :: 0 <= i < |cs[1..]| ==> cs[1..][i] == cs[i + 1];
      } else {
        assert !NamesFlag(opts, cs[0]);
      }
    }
  }

  /** A character that does not name option j leaves the question whether
      the rest of the bundle mentions j unchanged. */
  lemma MentionsTail(opts: seq<OptionSpec>, cs: string, j: int)
    requires cs != [] && FindShort(opts, cs[0]) != j
    ensures Mentions(opts, cs, j) <==> Mentions(opts, cs[1..], j)
  {
    if Mentions(opts, cs, j) {
      var i :| 0 <= i < |cs| && FindShort(opts, cs[i]) == j;
      assert i > 0 && cs[1..][i - 1] == cs[i];
    }
    if Mentions(opts, cs[1..], j) {
      var i :| 0 <= i < |cs[1..]| && FindShort(opts, cs[1..][i]) == j;
      assert cs[i + 1] == cs[1..][i];
    }
  }

  /** A successful bundle marks exactly the options its characters name. */
  lemma {:induction false} BundleMarksExactly(opts: seq<OptionSpec>, res: seq<ParseRes>, cs: string)
    requires |res| == |opts| && MarkBools(opts, res, cs).0 == Ok
    ensures forall j :: 0 <= j < |res| ==>
              MarkBools(opts, res, cs).1[j] == if Mentions(opts, cs, j) then Marked(res[j]) else res[j]
    decreases |cs|
  {
    if cs != [] {
      var k := FindShort(opts, cs[0]);
      var res1 := res[k := Marked(res[k])];
      BundleMarksExactly(opts, res1, cs[1..]);
      forall j | 0 <= j < |res|
        ensures MarkBools(opts, res, cs).1[j] == if Mentions(opts, cs, j) then Marked(res[j]) else res[j]
      {
        if j == k {
          assert Mentions(opts, cs, k);
        } else {
          MentionsTail(opts, cs, j);
        }
      }
    }
  }

  /** A bundle succeeds exactly when every character names a flag, and then
      exactly the flags it names are marked. */
  lemma BundleMarksEveryFlag(opts: seq<OptionSpec>, res: seq<ParseRes>, cs: string)
    requires |res| == |opts|
    ensures MarkBools(opts, res, cs).0 == Ok <==> forall i :: 0 <= i < |cs| ==> NamesFlag(opts, cs[i])
    ensures MarkBools(opts, res, cs).0 == Ok ==>
              forall j :: 0 <= j < |res| ==>
                MarkBools(opts, res, cs).1[j] == if Mentions(opts, cs, j) then Marked(res[j]) else res[j]
  {
    BundleOkIff(opts, res, cs);
    if MarkBools(opts, res, cs).0 == Ok {
      BundleMarksExactly(opts, res, cs);
    }
  }

  /** Bundles are not atomic: when character i is the first that does not
      name a flag, the code is OPTION_UNKNOWN for an unknown character and
      NOT_BOOL_IN_MULT_BOOL_DEF for a known non-flag, and the flags named
      before it stay marked. */
  lemma {:induction false} BundleNotAtomic(opts: seq<OptionSpec>, res: seq<ParseRes>, cs: string, i: nat)
    requires |res| == |opts| && i < |cs|
    requires forall j :: 0 <= j < i ==> NamesFlag(opts, cs[j])
    requires !NamesFlag(opts, cs[i])
    ensures MarkBools(opts, res, cs[..i]).0 == Ok
    ensures MarkBools(opts, res, cs).1 == MarkBools(opts, res, cs[..i]).1
    ensures MarkBools(opts, res, cs).0 ==
              if FindShort(opts, cs[i]) == -1 then ErrOptionUnknown else ErrNotBoolInMultBoolDef
    decreases i
  {
    if i == 0 {
      assert cs[..0] == [];
    } else {
      var k := FindShort(opts, cs[0]);
      assert NamesFlag(opts, cs[0]);
      var res1 := res[k := Marked(res[k])];
      assert cs[1..][..i - 1] == cs[..i][1..];
      BundleNotAtomic(opts, res1, cs[1..], i - 1);
    }
  }

  /** After a bundle succeeds, the single-option handler that cargparse.c
      runs next on the bundle's first character changes nothing and leaves
      nothing pending. */
  lemma BundleThenShortIsNoOp(opts: seq<OptionSpec>, res: seq<ParseRes>, arg: string)
    requires |res| == |opts| && |arg| > 2
    requires HandleMultShortBoolOptions(opts, res, arg).0 == Ok
    ensures var b := HandleMultShortBoolOptions(opts, res, arg);
            HandleShortOption(opts, b.2, arg) == (Ok, -1, b.2)
  {
    var cs := arg[1..];
    BundleMarksEveryFlag(opts, res, cs);
    assert cs[0] == arg[1] && NamesFlag(opts, cs[0]);
    var k := FindShort(opts, arg[1]);
    assert Mentions(opts, cs, k);
    var b := HandleMultShortBoolOptions(opts, res, arg);
    assert b.2[k] == Marked(res[k]);
    assert b.2[k := Marked(b.2[k])] == b.2;
  }

  /** A glued value such as `-n10` for a non-flag option n is read as a
      bundle and refused with NOT_BOOL_IN_MULT_BOOL_DEF: nothing is marked
      and nothing stays pending. */
  lemma GluedValueRefused(opts: seq<OptionSpec>, st: State, arg: string, pos: nat, fr: FloatReader)
    requires WellFormed(opts, st) && !st.afterDoubleHyphen && st.optIdx == -1
    requires GetArgType(arg) == ShortArg && |arg| > 2
    requires FindShort(opts, arg[1]) >= 0 && opts[FindShort(opts, arg[1])].kind != Bool
    ensures Step(opts, st, arg, pos, fr) == (ErrNotBoolInMultBoolDef, st)
  {
    assert arg[1..][0] == arg[1];
    assert Step(opts, st, arg, pos, fr) == StepShort(opts, st, arg);
  }

  /** After `--`, every token is a value or another `--`: nothing becomes
      pending, only positional slots change, and the only possible failure
      is UNEXPECTED_POSITIONAL. */
  lemma {:induction false} AfterDoubleHyphenOnlyValues(opts: seq<OptionSpec>, st: State, argv: seq<string>,
                                                       lo: nat, hi: nat, fr: FloatReader)
    requires WellFormed(opts, st) && st.afterDoubleHyphen && hi <= |argv|
    ensures var r := Run(opts, st, argv, lo, hi, fr);
            && r.1.afterDoubleHyphen && r.1.optIdx == -1
            && (r.0 == Ok || r.0 == ErrUnexpectedPositional)
            && (forall j :: 0 <= j < |opts| && opts[j].kind != Pos ==> r.1.res[j] == st.res[j])
    decreases hi - lo
  {
    if lo < hi {
      var s := Step(opts, st, argv[lo], lo, fr);
      if argv[lo] == "--" {
        assert s == StepDoubleHyphen(opts, st);
      } else {
        assert s == StepValue(opts, st, argv[lo], lo, fr);
      }
      if s.0 == Ok {
        AfterDoubleHyphenOnlyValues(opts, s.1, argv, lo + 1, hi, fr);
      }
    }
  }
}
