/** The token classifier `_cargparse_get_arg_type`: one command-line token to
    one of five tags. */
module Classify {
  import opened Values

  /** cargparse_arg_type_e */
  datatype ArgType = Incorrect | PosArg | ShortArg | LongArg | DoubleHyphen

  /** A token that starts with `--` and goes on with a character other than '-'. */
  predicate LongShaped(arg: string) {
    |arg| >= 3 && arg[0] == '-' && arg[1] == '-' && arg[2] != '-'
  }

  /** The rules in their order: empty is INCORRECT, exactly `--` is
      DOUBLE_HYPHEN, `--x` (x not '-') is LONG, `-` alone or `-<digit>` is POS
      so that negative numbers stay values, any other `-...` is SHORT, and
      everything else is POS. */
  function GetArgType(arg: string): (t: ArgType)
    ensures t == Incorrect <==> arg == ""
    ensures t == DoubleHyphen <==> arg == "--"
    ensures t == LongArg <==> LongShaped(arg)
    ensures t == PosArg <==> arg != "" && (arg[0] != '-' || |arg| == 1 || IsDigit(arg[1]))
    ensures t == ShortArg <==>
              && |arg| >= 2 && arg[0] == '-' && !IsDigit(arg[1])
              && (arg[1] != '-' || (|arg| >= 3 && arg[2] == '-'))
  {
    if arg == [] then Incorrect
    else if arg == "--" then DoubleHyphen
    else if LongShaped(arg) then LongArg
    else if arg[0] == '-' && (|arg| == 1 || IsDigit(arg[1])) then PosArg
    else if arg[0] == '-' then ShortArg
    else PosArg
  }

  /** Every integer written in base 10, negative ones included, is classified
      as a value, so `-5` never reads as a short option. */
  lemma DecimalIsPositional(n: int)
    ensures GetArgType(DecimalString(n)) == PosArg
  {
    var s := DecimalString(n);
    if n < 0 {
      var ds := NatDigits(-n);
      assert s == "-" + ds && s[1] == ds[0];
    } else {
      assert s[0] == NatDigits(n)[0];
    }
  }

  /** A LONG token names a non-empty long name that does not start with '-'
      (the name is what follows `--`), while three leading dashes make a
      SHORT token. */
  lemma LongNameShape(arg: string)
    ensures GetArgType(arg) == LongArg ==> |arg[2..]| > 0 && arg[2..][0] != '-'
    ensures |arg| >= 3 && arg[..3] == "---" ==> GetArgType(arg) == ShortArg
  {
    if |arg| >= 3 && arg[..3] == "---" {
      assert arg[0] == '-' && arg[1] == '-' && arg[2] == '-';
    }
  }
}
