/** Declarations of cargparse.h: option kinds, flags, result codes, the option
    record, the per-option result record, the arity and no-name sentinels and
    the initialiser macros. */
module Types {

  datatype Option<T> = None | Some(value: T)

  /** cargparse_option_type_e */
  datatype OptionType = Pos | Bool | Int | Float | Str

  /** cargparse_err_e, extended with the two codes the implementation returns
      without declaring them: ZeroNargs and OptNotGot. */
  datatype Status =
    | Ok
    | DefaultValue
    | GotZeroArgs
    | ErrNullParser
    | ErrNullOutput
    | ErrNullArgument
    | ErrOptionUnknown
    | ErrOptionNeedsArg
    | ErrOptionAlreadySet
    | ErrOptionIncorrectType
    | ErrPreviousOptionNotSet
    | ErrInvalidOption
    | ErrNotAllRequiredOptions
    | ErrUnexpectedPositional
    | ErrInvalidValue
    | ErrNotBoolInMultBoolDef
    | ErrNargOutOfRange
    | ZeroNargs
    | OptNotGot

  /** cargparse_option_flag_e: each flag is one bit of the C `int` an
      option's flags are stored in (REQUIRED is `1 << 0`). */
  const FLAG_NONE: int := 0
  const FLAG_REQUIRED: int := 1

  /** The open-ended arity sentinels stored in an option's `nargs`. */
  const NARGS_ONE_OR_MORE: int := -111
  const NARGS_ZERO_OR_MORE: int := -222

  /** cargparse_option_t. A missing short name (CARGPARSE_NO_SHORT, -1) and a
      missing long name (CARGPARSE_NO_LONG, NULL) are both None. */
  datatype OptionSpec = OptionSpec(
    kind: OptionType,
    shortName: Option<char>,
    longName: Option<string>,
    help: Option<string>,
    flags: int,
    nargs: int)

  /** `flags & CARGPARSE_FLAG_REQUIRED`. REQUIRED is bit 0, and the lowest
      bit of a two's-complement integer is its remainder modulo 2, which
      Dafny's `%` gives as 0 or 1 for negative flags too; so the masked
      value is the remainder, and the option is required exactly when that
      remainder is the flag itself, that is, when its flags are odd. */
  function IsRequired(o: OptionSpec): (b: bool)
    ensures b <==> o.flags % 2 == 1
  {
    o.flags % 2 == FLAG_REQUIRED
  }

  predicate OpenEnded(nargs: int) {
    nargs == NARGS_ONE_OR_MORE || nargs == NARGS_ZERO_OR_MORE
  }

  /** The arity an option's `nargs` stands for. */
  datatype Arity = Fixed(k: int) | OneOrMore | ZeroOrMore

  function ArityOf(nargs: int): (a: Arity)
    ensures a.Fixed? <==> !OpenEnded(nargs)
    ensures a.OneOrMore? <==> nargs == NARGS_ONE_OR_MORE
    ensures a.ZeroOrMore? <==> nargs == NARGS_ZERO_OR_MORE
  {
    if nargs == NARGS_ONE_OR_MORE then OneOrMore
    else if nargs == NARGS_ZERO_OR_MORE then ZeroOrMore
    else Fixed(nargs)
  }

  /** The `nargs` value that declares an arity. */
  function NargsOf(a: Arity): int {
    match a
    case Fixed(k) => k
    case OneOrMore => NARGS_ONE_OR_MORE
    case ZeroOrMore => NARGS_ZERO_OR_MORE
  }

  /** The sentinels are distinct and negative, so every fixed count of at
      least one survives the encoding and no fixed count is read as open-ended. */
  lemma ArityEncoding(a: Arity)
    requires a.Fixed? ==> a.k >= 1
    ensures ArityOf(NargsOf(a)) == a
    ensures a.Fixed? ==> !OpenEnded(NargsOf(a))
    ensures NARGS_ONE_OR_MORE != NARGS_ZERO_OR_MORE
    ensures NARGS_ONE_OR_MORE < 0 && NARGS_ZERO_OR_MORE < 0
  {
  }

  /** cargparse_parse_res_t. `start` is the position in the token vector of
      the first captured token (the C `valuestr` pointer); position 0 is the
      program name, which is never captured, and stands for NULL. `count` is
      the C `nargs` field. */
  datatype ParseRes = ParseRes(isGot: bool, start: nat, count: nat)

  /** A zero-initialised result record. */
  const EMPTY_RES: ParseRes := ParseRes(false, 0, 0)

  /** The zero-initialised result buffer CARGPARSE_INIT pairs with n options. */
  function Zeroed(n: nat): (r: seq<ParseRes>)
    ensures |r| == n
    ensures forall k :: 0 <= k < n ==> !r[k].isGot && r[k].count == 0 && r[k].start == 0
  {
    seq(n, _ => EMPTY_RES)
  }

  // The CARGPARSE_OPTION_* initialiser macros.

  function IntOption(shortName: Option<char>, longName: Option<string>, help: Option<string>,
                     flags: int, nargs: int): (o: OptionSpec)
    ensures o.kind == Int && o.nargs == nargs
  {
    OptionSpec(Int, shortName, longName, help, flags, nargs)
  }

  function FloatOption(shortName: Option<char>, longName: Option<string>, help: Option<string>,
                       flags: int, nargs: int): (o: OptionSpec)
    ensures o.kind == Float && o.nargs == nargs
  {
    OptionSpec(Float, shortName, longName, help, flags, nargs)
  }

  function StringOption(shortName: Option<char>, longName: Option<string>, help: Option<string>,
                        flags: int, nargs: int): (o: OptionSpec)
    ensures o.kind == Str && o.nargs == nargs
  {
    OptionSpec(Str, shortName, longName, help, flags, nargs)
  }

  /** A boolean flag always declares exactly one argument, so it is never open-ended. */
  function BoolOption(shortName: Option<char>, longName: Option<string>, help: Option<string>,
                      flags: int): (o: OptionSpec)
    ensures o.kind == Bool && ArityOf(o.nargs) == Fixed(1)
  {
    OptionSpec(Bool, shortName, longName, help, flags, 1)
  }

  /** A positional argument has no short name and exactly one argument. */
  function PositionalOption(longName: Option<string>, help: Option<string>, flags: int): (o: OptionSpec)
    ensures o.kind == Pos && o.shortName == None && ArityOf(o.nargs) == Fixed(1)
  {
    OptionSpec(Pos, None, longName, help, flags, 1)
  }
}
