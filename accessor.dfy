/** The result accessor: `_cargparse_get_check_opt`,
    `_cargparse_get_value_generic` and its typed wrappers,
    `_cargparse_has_option` and `_cargparse_get_arg_count`. They only read
    the option table and the result buffer; the C out-parameters become the
    second component of a returned pair, None where the C code leaves the
    output unwritten. The token vector is passed explicitly: C reaches it
    through the stored `valuestr` pointers. */
module Accessor {
  import opened Types
  import opened Values
  import opened Registry
  import opened Engine

  /** What the generic accessor writes through its `void *result`. */
  datatype Value = BoolVal(b: bool) | IntVal(i: int) | FloatVal(f: real) | StrVal(s: string)

  /** The float reader handed to getters of other kinds, which never consult it. */
  const NO_FLOATS: FloatReader := FloatReader(_ => false, _ => 0.0)

  /** `_cargparse_get_check_opt`: the option FindOpt finds, provided it has
      the requested kind; -1 for an unknown name and for a kind mismatch
      alike. */
  function GetCheckOpt(opts: seq<OptionSpec>, kind: OptionType, shortName: Option<char>,
                       longName: Option<string>): (k: int)
    ensures -1 <= k < |opts|
    ensures k >= 0 ==> k == FindOpt(opts, shortName, longName) && opts[k].kind == kind
    ensures k == -1 <==> FindOpt(opts, shortName, longName) == -1 || opts[FindOpt(opts, shortName, longName)].kind != kind
  {
    var i := FindOpt(opts, shortName, longName);
    if i == -1 then -1
    else if opts[i].kind != kind then -1
    else i
  }

  /** A satisfied option read at an index below its count. */
  predicate Readable(res: seq<ParseRes>, k: int, idx: nat)
    requires 0 <= k < |res|
  {
    res[k].isGot && idx < res[k].count
  }

  /** A zero-or-more option that was given without any value. */
  predicate EmptyZeroOrMore(opts: seq<OptionSpec>, res: seq<ParseRes>, k: int)
    requires |res| == |opts| && 0 <= k < |opts|
  {
    res[k].isGot && opts[k].nargs == NARGS_ZERO_OR_MORE && res[k].count == 0
  }

  /** `*(parse_res[k].valuestr + idx)`: the token idx places after the first
      one the slot captured. */
  function TokenAt(res: seq<ParseRes>, argv: seq<string>, k: int, idx: nat): string
    requires CapturesWithin(res, |argv|) && 0 <= k < |res| && idx < res[k].count
  {
    argv[res[k].start + idx]
  }

  /** The final switch of `_cargparse_get_value_generic`: a flag reads true,
      strings and positionals read the token itself, an int token is parsed
      again and a float token goes through the float reader. */
  function ReadToken(kind: OptionType, tok: string, fr: FloatReader): (r: (Status, Option<Value>))
    ensures kind == Bool ==> r == (Ok, Some(BoolVal(true)))
    ensures kind == Str || kind == Pos ==> r == (Ok, Some(StrVal(tok)))
    ensures kind == Int ==> (r.0 == Ok <==> IntegerShape(tok))
    ensures kind == Int && r.0 == Ok ==> ParseInt(tok).Some? && r.1 == Some(IntVal(ParseInt(tok).value))
    ensures kind == Float ==> (r.0 == Ok <==> fr.accepts(tok))
    ensures kind == Float && r.0 == Ok ==> r.1 == Some(FloatVal(fr.value(tok)))
    ensures r.0 != Ok ==> r == (ErrInvalidValue, None)
  {
    match kind
    case Bool => (Ok, Some(BoolVal(true)))
    case Int =>
      ParseIntAcceptsExactly(tok);
      (match ParseInt(tok)
       case Some(v) => (Ok, Some(IntVal(v)))
       case None => (ErrInvalidValue, None))
    case Float => if fr.accepts(tok) then (Ok, Some(FloatVal(fr.value(tok)))) else (ErrInvalidValue, None)
    case Str => (Ok, Some(StrVal(tok)))
    case Pos => (Ok, Some(StrVal(tok)))
  }

  /** The part of `_cargparse_get_value_generic` after the lookup found
      option k: an unsatisfied option gives the default (false for a flag), a
      zero-or-more option without values gives ZERO_NARGS, an index at or
      past the count gives NARG_OUT_OF_RANGE, and otherwise the token at
      start+idx is read. */
  function ValueAt(opts: seq<OptionSpec>, res: seq<ParseRes>, argv: seq<string>, kind: OptionType, k: int,
                   default: Value, narg: nat, fr: FloatReader): (r: (Status, Option<Value>))
    requires |res| == |opts| && 0 <= k < |opts| && CapturesWithin(res, |argv|)
    ensures r.0 == DefaultValue <==> !res[k].isGot
    ensures !res[k].isGot ==> r.1 == Some(if kind == Bool then BoolVal(false) else default)
    ensures r.0 == ZeroNargs <==> EmptyZeroOrMore(opts, res, k)
    ensures r.0 == ErrNargOutOfRange <==> res[k].isGot && !EmptyZeroOrMore(opts, res, k) && narg >= res[k].count
    ensures r.0 == Ok ==> Readable(res, k, narg)
    ensures Readable(res, k, narg) ==> r == ReadToken(kind, TokenAt(res, argv, k, narg), fr)
  {
    if !res[k].isGot then (DefaultValue, Some(if kind == Bool then BoolVal(false) else default))
    else if opts[k].nargs == NARGS_ZERO_OR_MORE && res[k].count == 0 then (ZeroNargs, None)
    else if narg + 1 > res[k].count then (ErrNargOutOfRange, None)
    else ReadToken(kind, TokenAt(res, argv, k, narg), fr)
  }

  /** `_cargparse_get_value_generic`: INVALID_OPTION when neither name is
      given; OPTION_UNKNOWN when the lookup fails or finds another kind;
      then ValueAt's outcomes. */
  function GetValueGeneric(opts: seq<OptionSpec>, res: seq<ParseRes>, argv: seq<string>, kind: OptionType,
                           shortName: Option<char>, longName: Option<string>, default: Value, narg: nat,
                           fr: FloatReader): (r: (Status, Option<Value>))
    requires |res| == |opts| && CapturesWithin(res, |argv|)
    ensures r.0 == ErrInvalidOption <==> shortName.None? && longName.None?
    ensures shortName.None? && longName.None? ==> r.1 == None
    ensures var k := GetCheckOpt(opts, kind, shortName, longName);
            && (shortName.Some? || longName.Some?)
            ==> && (r.0 == ErrOptionUnknown <==> k == -1)
                && (r.0 == DefaultValue <==> k >= 0 && !res[k].isGot)
                && (k >= 0 && !res[k].isGot ==> r.1 == Some(if kind == Bool then BoolVal(false) else default))
                && (r.0 == ZeroNargs <==> k >= 0 && EmptyZeroOrMore(opts, res, k))
                && (r.0 == ErrNargOutOfRange <==>
                      k >= 0 && res[k].isGot && !EmptyZeroOrMore(opts, res, k) && narg >= res[k].count)
                && (r.0 == Ok ==> k >= 0 && Readable(res, k, narg))
                && (k >= 0 && Readable(res, k, narg) ==> r == ReadToken(kind, TokenAt(res, argv, k, narg), fr))
  {
    if shortName.None? && longName.None? then (ErrInvalidOption, None)
    else
      var k := GetCheckOpt(opts, kind, shortName, longName);
      if k == -1 then (ErrOptionUnknown, None)
      else ValueAt(opts, res, argv, kind, k, default, narg, fr)
  }

  function AsBool(v: Option<Value>): Option<bool> {
    if v.Some? && v.value.BoolVal? then Some(v.value.b) else None
  }

  function AsInt(v: Option<Value>): Option<int> {
    if v.Some? && v.value.IntVal? then Some(v.value.i) else None
  }

  function AsReal(v: Option<Value>): Option<real> {
    if v.Some? && v.value.FloatVal? then Some(v.value.f) else None
  }

  function AsString(v: Option<Value>): Option<string> {
    if v.Some? && v.value.StrVal? then Some(v.value.s) else None
  }

  /** `cargparse_get_bool_long`: OK and true exactly when the flag is
      present (with its one argument); DEFAULT_VALUE and false when it was
      not given; OPTION_UNKNOWN for a name that is not a flag. */
  function GetBoolLong(opts: seq<OptionSpec>, res: seq<ParseRes>, argv: seq<string>, longName: string)
    : (r: (Status, Option<bool>))
    requires |res| == |opts| && CapturesWithin(res, |argv|)
    ensures var k := GetCheckOpt(opts, Bool, None, Some(longName));
            && (r.0 == ErrOptionUnknown <==> k == -1)
            && (r.0 == DefaultValue <==> k >= 0 && !res[k].isGot)
            && (r.0 == DefaultValue ==> r.1 == Some(false))
            && (r.0 == Ok <==> k >= 0 && Readable(res, k, 0))
            && (r.0 == Ok ==> r.1 == Some(true))
  {
    var g := GetValueGeneric(opts, res, argv, Bool, None, Some(longName), BoolVal(false), 0, NO_FLOATS);
    (g.0, AsBool(g.1))
  }

  /** `cargparse_get_bool_short`: as GetBoolLong, by short name. */
  function GetBoolShort(opts: seq<OptionSpec>, res: seq<ParseRes>, argv: seq<string>, shortName: char)
    : (r: (Status, Option<bool>))
    requires |res| == |opts| && CapturesWithin(res, |argv|)
    ensures var k := GetCheckOpt(opts, Bool, Some(shortName), None);
            && (r.0 == ErrOptionUnknown <==> k == -1)
            && (r.0 == DefaultValue <==> k >= 0 && !res[k].isGot)
            && (r.0 == DefaultValue ==> r.1 == Some(false))
            && (r.0 == Ok <==> k >= 0 && Readable(res, k, 0))
            && (r.0 == Ok ==> r.1 == Some(true))
  {
    var g := GetValueGeneric(opts, res, argv, Bool, Some(shortName), None, BoolVal(false), 0, NO_FLOATS);
    (g.0, AsBool(g.1))
  }

  /** `cargparse_get_str_long`. */
  function GetStrLong(opts: seq<OptionSpec>, res: seq<ParseRes>, argv: seq<string>, longName: string,
                      default: string, idx: nat): (r: (Status, Option<string>))
    requires |res| == |opts| && CapturesWithin(res, |argv|)
    ensures var k := GetCheckOpt(opts, Str, None, Some(longName));
            && (r.0 == ErrOptionUnknown <==> k == -1)
            && (r.0 == DefaultValue <==> k >= 0 && !res[k].isGot)
            && (r.0 == DefaultValue ==> r.1 == Some(default))
            && (r.0 == ZeroNargs <==> k >= 0 && EmptyZeroOrMore(opts, res, k))
            && (r.0 == ErrNargOutOfRange <==> k >= 0 && res[k].isGot && !EmptyZeroOrMore(opts, res, k) && idx >= res[k].count)
            && (r.0 == Ok <==> k >= 0 && Readable(res, k, idx))
            && (k >= 0 && Readable(res, k, idx) ==> r == (Ok, Some(TokenAt(res, argv, k, idx))))
  {
    var g := GetValueGeneric(opts, res, argv, Str, None, Some(longName), StrVal(default), idx, NO_FLOATS);
    (g.0, AsString(g.1))
  }

  /** `cargparse_get_str_short`. */
  function GetStrShort(opts: seq<OptionSpec>, res: seq<ParseRes>, argv: seq<string>, shortName: char,
                       default: string, idx: nat): (r: (Status, Option<string>))
    requires |res| == |opts| && CapturesWithin(res, |argv|)
    ensures var k := GetCheckOpt(opts, Str, Some(shortName), None);
            && (r.0 == ErrOptionUnknown <==> k == -1)
            && (r.0 == DefaultValue <==> k >= 0 && !res[k].isGot)
            && (r.0 == DefaultValue ==> r.1 == Some(default))
            && (r.0 == ZeroNargs <==> k >= 0 && EmptyZeroOrMore(opts, res, k))
            && (r.0 == ErrNargOutOfRange <==> k >= 0 && res[k].isGot && !EmptyZeroOrMore(opts, res, k) && idx >= res[k].count)
            && (r.0 == Ok <==> k >= 0 && Readable(res, k, idx))
            && (k >= 0 && Readable(res, k, idx) ==> r == (Ok, Some(TokenAt(res, argv, k, idx))))
  {
    var g := GetValueGeneric(opts, res, argv, Str, Some(shortName), None, StrVal(default), idx, NO_FLOATS);
    (g.0, AsString(g.1))
  }

  /** `cargparse_get_int_long`: the token is parsed again, so OK comes
      exactly for a readable token of integer shape, with its value, and
      INVALID_VALUE for any other readable token. */
  function GetIntLong(opts: seq<OptionSpec>, res: seq<ParseRes>, argv: seq<string>, longName: string,
                      default: int, idx: nat): (r: (Status, Option<int>))
    requires |res| == |opts| && CapturesWithin(res, |argv|)
    ensures var k := GetCheckOpt(opts, Int, None, Some(longName));
            && (r.0 == ErrOptionUnknown <==> k == -1)
            && (r.0 == DefaultValue <==> k >= 0 && !res[k].isGot)
            && (r.0 == DefaultValue ==> r.1 == Some(default))
            && (r.0 == ZeroNargs <==> k >= 0 && EmptyZeroOrMore(opts, res, k))
            && (r.0 == ErrNargOutOfRange <==> k >= 0 && res[k].isGot && !EmptyZeroOrMore(opts, res, k) && idx >= res[k].count)
            && (r.0 == Ok ==> k >= 0 && Readable(res, k, idx))
            && (k >= 0 && Readable(res, k, idx) ==>
                  r == if IsValidInt(TokenAt(res, argv, k, idx)) then (Ok, ParseInt(TokenAt(res, argv, k, idx)))
                       else (ErrInvalidValue, None))
  {
    var g := GetValueGeneric(opts, res, argv, Int, None, Some(longName), IntVal(default), idx, NO_FLOATS);
    (g.0, AsInt(g.1))
  }

  /** `cargparse_get_int_short`. */
  function GetIntShort(opts: seq<OptionSpec>, res: seq<ParseRes>, argv: seq<string>, shortName: char,
                       default: int, idx: nat): (r: (Status, Option<int>))
    requires |res| == |opts| && CapturesWithin(res, |argv|)
    ensures var k := GetCheckOpt(opts, Int, Some(shortName), None);
            && (r.0 == ErrOptionUnknown <==> k == -1)
            && (r.0 == DefaultValue <==> k >= 0 && !res[k].isGot)
            && (r.0 == DefaultValue ==> r.1 == Some(default))
            && (r.0 == ZeroNargs <==> k >= 0 && EmptyZeroOrMore(opts, res, k))
            && (r.0 == ErrNargOutOfRange <==> k >= 0 && res[k].isGot && !EmptyZeroOrMore(opts, res, k) && idx >= res[k].count)
            && (r.0 == Ok ==> k >= 0 && Readable(res, k, idx))
            && (k >= 0 && Readable(res, k, idx) ==>
                  r == if IsValidInt(TokenAt(res, argv, k, idx)) then (Ok, ParseInt(TokenAt(res, argv, k, idx)))
                       else (ErrInvalidValue, None))
  {
    var g := GetValueGeneric(opts, res, argv, Int, Some(shortName), None, IntVal(default), idx, NO_FLOATS);
    (g.0, AsInt(g.1))
  }

  /** `cargparse_get_float_long`: OK exactly for a readable token the float
      reader accepts, with the number it denotes. */
  function GetFloatLong(opts: seq<OptionSpec>, res: seq<ParseRes>, argv: seq<string>, longName: string,
                        default: real, idx: nat, fr: FloatReader): (r: (Status, Option<real>))
    requires |res| == |opts| && CapturesWithin(res, |argv|)
    ensures var k := GetCheckOpt(opts, Float, None, Some(longName));
            && (r.0 == ErrOptionUnknown <==> k == -1)
            && (r.0 == DefaultValue <==> k >= 0 && !res[k].isGot)
            && (r.0 == DefaultValue ==> r.1 == Some(default))
            && (r.0 == ZeroNargs <==> k >= 0 && EmptyZeroOrMore(opts, res, k))
            && (r.0 == ErrNargOutOfRange <==> k >= 0 && res[k].isGot && !EmptyZeroOrMore(opts, res, k) && idx >= res[k].count)
            && (r.0 == Ok ==> k >= 0 && Readable(res, k, idx))
            && (k >= 0 && Readable(res, k, idx) ==>
                  r == if fr.accepts(TokenAt(res, argv, k, idx)) then (Ok, Some(fr.value(TokenAt(res, argv, k, idx))))
                       else (ErrInvalidValue, None))
  {
    var g := GetValueGeneric(opts, res, argv, Float, None, Some(longName), FloatVal(default), idx, fr);
    (g.0, AsReal(g.1))
  }

  /** `cargparse_get_float_short`. */
  function GetFloatShort(opts: seq<OptionSpec>, res: seq<ParseRes>, argv: seq<string>, shortName: char,
                         default: real, idx: nat, fr: FloatReader): (r: (Status, Option<real>))
    requires |res| == |opts| && CapturesWithin(res, |argv|)
    ensures var k := GetCheckOpt(opts, Float, Some(shortName), None);
            && (r.0 == ErrOptionUnknown <==> k == -1)
            && (r.0 == DefaultValue <==> k >= 0 && !res[k].isGot)
            && (r.0 == DefaultValue ==> r.1 == Some(default))
            && (r.0 == ZeroNargs <==> k >= 0 && EmptyZeroOrMore(opts, res, k))
            && (r.0 == ErrNargOutOfRange <==> k >= 0 && res[k].isGot && !EmptyZeroOrMore(opts, res, k) && idx >= res[k].count)
            && (r.0 == Ok ==> k >= 0 && Readable(res, k, idx))
            && (k >= 0 && Readable(res, k, idx) ==>
                  r == if fr.accepts(TokenAt(res, argv, k, idx)) then (Ok, Some(fr.value(TokenAt(res, argv, k, idx))))
                       else (ErrInvalidValue, None))
  {
    var g := GetValueGeneric(opts, res, argv, Float, Some(shortName), None, FloatVal(default), idx, fr);
    (g.0, AsReal(g.1))
  }

  /** `cargparse_get_positional`, with the index parameter of its definition
      in cargparse.c. A positional is found through its long name. */
  function GetPositional(opts: seq<OptionSpec>, res: seq<ParseRes>, argv: seq<string>, longName: string,
                         default: string, idx: nat): (r: (Status, Option<string>))
    requires |res| == |opts| && CapturesWithin(res, |argv|)
    ensures var k := GetCheckOpt(opts, Pos, None, Some(longName));
            && (r.0 == ErrOptionUnknown <==> k == -1)
            && (r.0 == DefaultValue <==> k >= 0 && !res[k].isGot)
            && (r.0 == DefaultValue ==> r.1 == Some(default))
            && (r.0 == ZeroNargs <==> k >= 0 && EmptyZeroOrMore(opts, res, k))
            && (r.0 == ErrNargOutOfRange <==> k >= 0 && res[k].isGot && !EmptyZeroOrMore(opts, res, k) && idx >= res[k].count)
            && (r.0 == Ok <==> k >= 0 && Readable(res, k, idx))
            && (k >= 0 && Readable(res, k, idx) ==> r == (Ok, Some(TokenAt(res, argv, k, idx))))
  {
    var g := GetValueGeneric(opts, res, argv, Pos, None, Some(longName), StrVal(default), idx, NO_FLOATS);
    (g.0, AsString(g.1))
  }

  /** `_cargparse_has_option`: some option declares the name FindOpt looks
      up (the short name when one is given, else the long name). The kind is
      not checked. */
  function HasOption(opts: seq<OptionSpec>, shortName: Option<char>, longName: Option<string>): (b: bool)
    ensures shortName.Some? ==> (b <==> exists j :: 0 <= j < |opts| && HasShortName(opts[j], shortName.value))
    ensures shortName.None? && longName.Some? ==> (b <==> exists j :: 0 <= j < |opts| && HasLongName(opts[j], longName.value))
    ensures shortName.None? && longName.None? ==> !b
  {
    FindOpt(opts, shortName, longName) != -1
  }

  /** `cargparse_has_option_long`. */
  function HasOptionLong(opts: seq<OptionSpec>, longName: string): (b: bool)
    ensures b <==> exists j :: 0 <= j < |opts| && HasLongName(opts[j], longName)
  {
    HasOption(opts, None, Some(longName))
  }

  /** `cargparse_has_option_short`. */
  function HasOptionShort(opts: seq<OptionSpec>, shortName: char): (b: bool)
    ensures b <==> exists j :: 0 <= j < |opts| && HasShortName(opts[j], shortName)
  {
    HasOption(opts, Some(shortName), None)
  }

  /** `_cargparse_get_arg_count`: OPTION_UNKNOWN with 0 for a name no option
      declares, OPT_NOT_GOT with 0 for an unsatisfied option, otherwise OK
      with the number of values the option received. The kind is not
      checked. */
  function GetArgCount(opts: seq<OptionSpec>, res: seq<ParseRes>, shortName: Option<char>,
                       longName: Option<string>): (r: (Status, nat))
    requires |res| == |opts|
    ensures var k := FindOpt(opts, shortName, longName);
            && (r.0 == ErrOptionUnknown <==> k == -1)
            && (r.0 == ErrOptionUnknown ==> r.1 == 0)
            && (r.0 == OptNotGot <==> k >= 0 && !res[k].isGot)
            && (r.0 == OptNotGot ==> r.1 == 0)
            && (r.0 == Ok <==> k >= 0 && res[k].isGot)
            && (r.0 == Ok ==> r.1 == res[k].count)
  {
    var k := FindOpt(opts, shortName, longName);
    if k == -1 then (ErrOptionUnknown, 0)
    else if !res[k].isGot then (OptNotGot, 0)
    else (Ok, res[k].count)
  }

  /** `cargparse_get_arg_count_long`. */
  function GetArgCountLong(opts: seq<OptionSpec>, res: seq<ParseRes>, longName: string): (r: (Status, nat))
    requires |res| == |opts|
    ensures var k := FindLong(opts, longName);
            && (r.0 == ErrOptionUnknown <==> k == -1)
            && (r.0 == OptNotGot <==> k >= 0 && !res[k].isGot)
            && (r.0 == Ok <==> k >= 0 && res[k].isGot)
            && (r.0 == Ok ==> r.1 == res[k].count)
            && (r.0 != Ok ==> r.1 == 0)
  {
    GetArgCount(opts, res, None, Some(longName))
  }

  /** `cargparse_get_arg_count_short`. */
  function GetArgCountShort(opts: seq<OptionSpec>, res: seq<ParseRes>, shortName: char): (r: (Status, nat))
    requires |res| == |opts|
    ensures var k := FindShort(opts, shortName);
            && (r.0 == ErrOptionUnknown <==> k == -1)
            && (r.0 == OptNotGot <==> k >= 0 && !res[k].isGot)
            && (r.0 == Ok <==> k >= 0 && res[k].isGot)
            && (r.0 == Ok ==> r.1 == res[k].count)
            && (r.0 != Ok ==> r.1 == 0)
  {
    GetArgCount(opts, res, Some(shortName), None)
  }

  // Laws relating the accessors to each other and to the parse buffer.

  /** Before any parse, with the buffer as CARGPARSE_INIT leaves it, a read
      never finds a value: it gives the default exactly when some name is
      given and names an option of the requested kind, and otherwise
      INVALID_OPTION or OPTION_UNKNOWN. */
  lemma UnparsedReadsDefault(opts: seq<OptionSpec>, argv: seq<string>, kind: OptionType, shortName: Option<char>,
                             longName: Option<string>, default: Value, narg: nat, fr: FloatReader)
    ensures CapturesWithin(Zeroed(|opts|), |argv|)
    ensures var r := GetValueGeneric(opts, Zeroed(|opts|), argv, kind, shortName, longName, default, narg, fr);
            && (r.0 == DefaultValue || r.0 == ErrInvalidOption || r.0 == ErrOptionUnknown)
            && (r.0 == DefaultValue <==>
                  (shortName.Some? || longName.Some?) && GetCheckOpt(opts, kind, shortName, longName) >= 0)
  {
    var res := Zeroed(|opts|);
    assert CapturesWithin(res, |argv|);
    var k := GetCheckOpt(opts, kind, shortName, longName);
    if (shortName.Some? || longName.Some?) && k >= 0 {
      assert !res[k].isGot;
    }
  }

  /** For a string option found by its long name, a read at an index
      succeeds exactly when the index is below the count
      `cargparse_get_arg_count_long` reports, and then gives the token that
      many places after the first value. */
  lemma CountBoundsReads(opts: seq<OptionSpec>, res: seq<ParseRes>, argv: seq<string>, longName: string,
                         default: string, idx: nat)
    requires |res| == |opts| && CapturesWithin(res, |argv|)
    requires FindLong(opts, longName) >= 0 && opts[FindLong(opts, longName)].kind == Str
    ensures GetStrLong(opts, res, argv, longName, default, idx).0 == Ok
            <==> idx < GetArgCountLong(opts, res, longName).1
    ensures var k := FindLong(opts, longName);
            GetStrLong(opts, res, argv, longName, default, idx).0 == Ok ==>
              idx < res[k].count && GetStrLong(opts, res, argv, longName, default, idx).1 == Some(argv[res[k].start + idx])
  {
    var k := FindLong(opts, longName);
    assert GetCheckOpt(opts, Str, None, Some(longName)) == k;
  }
}
