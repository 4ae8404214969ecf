/** `cargparse_t` and the in-place half of cargparse.c: the result buffer is
    an array the handlers update slot by slot, as `parse_res[]` is updated
    through pointers in C. Each method is proved to compute exactly what the
    corresponding function of Engine computes. */
module Parser {
  import opened Types
  import opened Values
  import opened Classify
  import opened Registry
  import opened Engine

  /** The option table, the result buffer paired with it index by index, and
      its length, as CARGPARSE_INIT lays them out. */
  class ArgParser {
    const options: seq<OptionSpec>
    const parseRes: array<ParseRes>
    const nOptions: int

    ghost predicate Valid() {
      parseRes.Length == |options| == nOptions
    }

    /** CARGPARSE_INIT: a fresh result buffer of the same length as the
        option table, every slot zeroed. */
    constructor (options: seq<OptionSpec>)
      ensures Valid() && fresh(parseRes)
      ensures this.options == options && nOptions == |options|
      ensures parseRes[..] == Zeroed(|options|)
    {
      this.options := options;
      this.nOptions := |options|;
      this.parseRes := new ParseRes[|options|](_ => EMPTY_RES);
    }

    /** `_cargparse_set_parse_res` on slot k. */
    method SetParseRes(k: int, arg: string, pos: nat, fr: FloatReader) returns (s: Status)
      requires Valid() && 0 <= k < parseRes.Length
      modifies parseRes
      ensures s == Bound(options, old(parseRes[..]), k, arg, pos, fr).0
      ensures parseRes[..] == old(parseRes[..])[k := Bound(options, old(parseRes[..]), k, arg, pos, fr).1]
    {
      var opt := options[k];
      if !Admits(fr, opt.kind, arg) {
        return ErrInvalidValue;
      }
      if parseRes[k].count == 0 {
        parseRes[k] := ParseRes(opt.nargs <= 1, pos, 1);
      } else {
        var n := parseRes[k].count + 1;
        parseRes[k] := ParseRes(opt.nargs <= n, parseRes[k].start, n);
      }
      s := Ok;
    }

    /** `_cargparse_handle_positional_arg`, with the cursor passed in and
        returned. */
    method HandlePositionalArg(arg: string, pos: nat, lastPos: int, fr: FloatReader) returns (s: Status, lp: int)
      requires Valid() && -1 <= lastPos < parseRes.Length
      modifies parseRes
      ensures (s, lp, parseRes[..]) == Engine.HandlePositionalArg(options, old(parseRes[..]), lastPos, arg, pos, fr)
    {
      lp := lastPos;
      if lp == -1 || (parseRes[lp].isGot && !OpenEnded(options[lp].nargs)) {
        lp := NextPositional(options, lp);
      }
      if lp != -1 {
        s := SetParseRes(lp, arg, pos, fr);
      } else {
        s := ErrUnexpectedPositional;
      }
    }

    /** `_cargparse_handle_option_arg`. */
    method HandleOptionArg(optIdx: int, arg: string, pos: nat, fr: FloatReader) returns (s: Status)
      requires Valid() && 0 <= optIdx < parseRes.Length
      modifies parseRes
      ensures (s, parseRes[..]) == Engine.HandleOptionArg(options, old(parseRes[..]), optIdx, arg, pos, fr)
    {
      if parseRes[optIdx].isGot && !OpenEnded(options[optIdx].nargs) {
        return ErrOptionAlreadySet;
      }
      s := SetParseRes(optIdx, arg, pos, fr);
    }

    /** The update both single-option handlers make to the option they found. */
    method Activate(k: int) returns (optIdx: int)
      requires Valid() && 0 <= k < parseRes.Length
      modifies parseRes
      ensures (parseRes[..], optIdx) == Engine.Activate(options, old(parseRes[..]), k)
    {
      optIdx := k;
      if options[k].kind == Bool {
        parseRes[k] := parseRes[k].(isGot := true, count := 1);
        optIdx := -1;
      } else if options[k].nargs == NARGS_ZERO_OR_MORE {
        parseRes[k] := parseRes[k].(isGot := true);
      }
    }

    /** `_cargparse_handle_short_option`. */
    method HandleShortOption(arg: string) returns (s: Status, optIdx: int)
      requires Valid() && |arg| >= 2
      modifies parseRes
      ensures (s, optIdx, parseRes[..]) == Engine.HandleShortOption(options, old(parseRes[..]), arg)
    {
      optIdx := FindShort(options, arg[1]);
      if optIdx == -1 {
        return ErrOptionUnknown, -1;
      }
      optIdx := Activate(optIdx);
      s := Ok;
    }

    /** `_cargparse_handle_long_option`. */
    method HandleLongOption(arg: string) returns (s: Status, optIdx: int)
      requires Valid() && |arg| >= 2
      modifies parseRes
      ensures (s, optIdx, parseRes[..]) == Engine.HandleLongOption(options, old(parseRes[..]), arg)
    {
      optIdx := FindLong(options, arg[2..]);
      if optIdx == -1 {
        return ErrOptionUnknown, -1;
      }
      optIdx := Activate(optIdx);
      s := Ok;
    }

    /** `_cargparse_handle_mult_short_bool_options`: one character at a time,
        each flag marked in place before the next character is looked at. */
    method HandleMultShortBoolOptions(arg: string) returns (s: Status, optIdx: int)
      requires Valid() && |arg| >= 1
      modifies parseRes
      ensures optIdx == -1
      ensures (s, parseRes[..]) == MarkBools(options, old(parseRes[..]), arg[1..])
    {
      optIdx := -1;
      var i := 1;
      while i < |arg|
        invariant 1 <= i <= |arg|
        invariant MarkBools(options, old(parseRes[..]), arg[1..]) == MarkBools(options, parseRes[..], arg[i..])
      {
        assert arg[i..][0] == arg[i] && arg[i..][1..] == arg[i + 1..];
        var k := FindShort(options, arg[i]);
        if k == -1 {
          return ErrOptionUnknown, -1;
        }
        if options[k].kind != Bool {
          return ErrNotBoolInMultBoolDef, -1;
        }
        parseRes[k] := parseRes[k].(isGot := true, count := 1);
        i := i + 1;
      }
      s := Ok;
    }

    /** One pass of the argv loop of `cargparse_parse` (cargparse.c:315-378)
        on the token at position `pos`, with the loop's variables passed in
        and returned. */
    method ParseToken(arg: string, pos: nat, fr: FloatReader, optIdx: int, lastPos: int, after: bool)
      returns (s: Status, optIdx': int, lastPos': int, after': bool)
      requires Valid() && WellFormed(options, State(parseRes[..], optIdx, lastPos, after))
      modifies parseRes
      ensures (s, State(parseRes[..], optIdx', lastPos', after'))
              == Step(options, State(old(parseRes[..]), optIdx, lastPos, after), arg, pos, fr)
    {
      optIdx', lastPos', after' := optIdx, lastPos, after;
      var t := GetArgType(arg);
      if after && t != DoubleHyphen {
        t := PosArg;
      }
      match t {
        case PosArg =>
          if optIdx == -1 {
            s, lastPos' := HandlePositionalArg(arg, pos, lastPos, fr);
          } else {
            s := HandleOptionArg(optIdx, arg, pos, fr);
            if s == Ok && parseRes[optIdx].isGot && !OpenEnded(options[optIdx].nargs) {
              optIdx' := -1;
            }
          }
        case ShortArg =>
          if optIdx != -1 && !OpenEnded(options[optIdx].nargs) {
            return ErrOptionNeedsArg, optIdx, lastPos, after;
          }
          if |arg| > 2 {
            s, optIdx' := HandleMultShortBoolOptions(arg);
            if s != Ok {
              return;
            }
          }
          s, optIdx' := HandleShortOption(arg);
        case LongArg =>
          if optIdx != -1 && !OpenEnded(options[optIdx].nargs) {
            return ErrOptionNeedsArg, optIdx, lastPos, after;
          }
          s, optIdx' := HandleLongOption(arg);
        case DoubleHyphen =>
          if optIdx != -1 && !OpenEnded(options[optIdx].nargs) {
            return ErrOptionNeedsArg, optIdx, lastPos, after;
          }
          lastPos' := NextPositional(options, lastPos);
          after' := true;
          optIdx' := -1;
          s := Ok;
        case Incorrect =>
          s := Ok;
      }
    }

    /** `cargparse_parse(self, |argv|, argv)`. */
    method Parse(argv: seq<string>, fr: FloatReader) returns (s: Status)
      requires Valid()
      modifies parseRes
      ensures (s, parseRes[..]) == Engine.Parse(options, old(parseRes[..]), argv, fr)
    {
      if |argv| == 1 {
        return GotZeroArgs;
      }
      var optIdx, lastPos, after := -1, -1, false;
      var i := 1;
      while i < |argv|
        invariant 1 <= i && (i <= |argv| || |argv| == 0)
        invariant WellFormed(options, State(parseRes[..], optIdx, lastPos, after))
        invariant Scan(options, old(parseRes[..]), argv, fr)
                  == Run(options, State(parseRes[..], optIdx, lastPos, after), argv, i, |argv|, fr)
      {
        s, optIdx, lastPos, after := ParseToken(argv[i], i, fr, optIdx, lastPos, after);
        if s != Ok {
          return;
        }
        i := i + 1;
      }
      if optIdx != -1 {
        return ErrOptionNeedsArg;
      }
      if !RequiredOptionsGot(options, parseRes[..]) {
        return ErrNotAllRequiredOptions;
      }
      s := Ok;
    }
  }
}
