/** The value coercer: strict base-10 integer validation as `strtol` with an
    end-pointer check performs it, and the floating-point reader, which is a
    parameter of the model. */
module Values {
  import opened Types

  predicate IsDigit(c: char) {
    '0' <= c <= '9'
  }

  /** The characters `isspace` accepts in the C locale. */
  predicate IsSpace(c: char) {
    c == ' ' || c == '\t' || c == '\n' || c == '\U{B}' || c == '\U{C}' || c == '\r'
  }

  predicate AllDigits(s: string) {
    forall i :: 0 <= i < |s| ==> IsDigit(s[i])
  }

  predicate AllSpaces(s: string) {
    forall i :: 0 <= i < |s| ==> IsSpace(s[i])
  }

  /** Length of the whitespace run `strtol` skips before the number. */
  function LeadingSpaces(s: string): (n: nat)
    ensures n <= |s|
    ensures AllSpaces(s[..n])
    ensures n < |s| ==> !IsSpace(s[n])
  {
    if |s| > 0 && IsSpace(s[0]) then
      assert s[..1 + LeadingSpaces(s[1..])] == [s[0]] + s[1..][..LeadingSpaces(s[1..])];
      1 + LeadingSpaces(s[1..])
    else 0
  }

  function DigitValue(c: char): (d: nat)
    requires IsDigit(c)
    ensures d < 10
  {
    (c as int) - ('0' as int)
  }

  /** The value of a string of decimal digits, most significant first. */
  function DigitsValue(s: string): nat
    requires AllDigits(s)
  {
    if s == [] then 0 else DigitsValue(s[..|s| - 1]) * 10 + DigitValue(s[|s| - 1])
  }

  /** `_cargparse_parse_int`: `strtol(str, &end, 10)` must consume at least one
      character and the whole string. Whitespace, then an optional sign, then
      one or more digits; anything else is rejected. The value is the
      mathematical integer (see README on overflow). */
  function ParseInt(s: string): (r: Option<int>)
    ensures r.Some? ==> |s| > 0 && IsDigit(s[|s| - 1])
    ensures |s| > 0 && AllDigits(s) ==> r == Some(DigitsValue(s))
  {
    ParseSigned(s[LeadingSpaces(s)..])
  }

  /** The part of `strtol` after the whitespace: an optional sign and the digits. */
  function ParseSigned(body: string): (r: Option<int>)
    ensures r.Some? ==> |body| > 0 && IsDigit(body[|body| - 1])
    ensures |body| > 0 && AllDigits(body) ==> r == Some(DigitsValue(body))
  {
    var signed := |body| > 0 && (body[0] == '+' || body[0] == '-');
    var digits := if signed then body[1..] else body;
    if |digits| > 0 && AllDigits(digits) then
      assert digits[|digits| - 1] == body[|body| - 1];
      Some(Signed(signed && body[0] == '-', DigitsValue(digits)))
    else None
  }

  function Signed(negative: bool, v: nat): int {
    if negative then -(v as int) else v
  }

  /** The tokens `strtol` consumes whole: whitespace, an optional sign, one
      or more decimal digits. */
  ghost predicate IntegerShape(s: string) {
    exists ws, sign, ds ::
      && AllSpaces(ws) && (sign == "" || sign == "+" || sign == "-") && |ds| > 0 && AllDigits(ds)
      && s == ws + (sign + ds)
  }

  /** `_cargparse_is_valid_int`: the parse succeeds, which happens exactly for
      the integer shape. */
  function IsValidInt(s: string): (b: bool)
    ensures b <==> IntegerShape(s)
  {
    ParseIntAcceptsExactly(s);
    ParseInt(s).Some?
  }

  lemma {:induction false} LeadingSpacesOfPrefix(ws: string, rest: string)
    requires AllSpaces(ws)
    requires rest == [] || !IsSpace(rest[0])
    ensures LeadingSpaces(ws + rest) == |ws|
  {
    if ws != [] {
      assert (ws + rest)[1..] == ws[1..] + rest;
      LeadingSpacesOfPrefix(ws[1..], rest);
    } else {
      assert ws + rest == rest;
    }
  }

  lemma ParseSignedAccepts(sign: string, ds: string)
    requires sign == "" || sign == "+" || sign == "-"
    requires |ds| > 0 && AllDigits(ds)
    ensures ParseSigned(sign + ds) == Some(Signed(sign == "-", DigitsValue(ds)))
  {
    if sign == "" {
      assert sign + ds == ds;
    } else {
      assert (sign + ds)[0] == sign[0];
      assert (sign + ds)[1..] == ds;
    }
  }

  lemma ParseIntAfterSpaces(ws: string, rest: string)
    requires AllSpaces(ws)
    requires rest == [] || !IsSpace(rest[0])
    ensures ParseInt(ws + rest) == ParseSigned(rest)
  {
    LeadingSpacesOfPrefix(ws, rest);
    assert (ws + rest)[|ws|..] == rest;
  }

  /** Every string of the shape strtol accepts whole parses to its value:
      leading whitespace, an optional sign, at least one digit. */
  lemma ParseIntAccepts(ws: string, sign: string, ds: string)
    requires AllSpaces(ws)
    requires sign == "" || sign == "+" || sign == "-"
    requires |ds| > 0 && AllDigits(ds)
    ensures ParseInt(ws + (sign + ds)) == Some(Signed(sign == "-", DigitsValue(ds)))
  {
    var rest := sign + ds;
    if sign == "" {
      assert rest[0] == ds[0];
    } else {
      assert rest[0] == sign[0];
    }
    ParseIntAfterSpaces(ws, rest);
    ParseSignedAccepts(sign, ds);
  }

  /** The converse of ParseIntAccepts: a token strtol accepts whole has that
      shape, and its value is the one the shape gives. */
  lemma ParseIntOnlyShape(s: string)
    requires ParseInt(s).Some?
    ensures exists ws, sign, ds ::
              && AllSpaces(ws) && (sign == "" || sign == "+" || sign == "-") && |ds| > 0 && AllDigits(ds)
              && s == ws + (sign + ds) && ParseInt(s) == Some(Signed(sign == "-", DigitsValue(ds)))
  {
    var n := LeadingSpaces(s);
    var ws, body := s[..n], s[n..];
    var signed := |body| > 0 && (body[0] == '+' || body[0] == '-');
    var sign := if signed then body[..1] else "";
    var ds := if signed then body[1..] else body;
    assert body == sign + ds;
    SplitAt(s, n, sign, ds);
    ParseIntAccepts(ws, sign, ds);
  }

  lemma SplitAt(s: string, n: nat, sign: string, ds: string)
    requires n <= |s| && s[n..] == sign + ds
    ensures s == s[..n] + (sign + ds)
  {
    assert s == s[..n] + s[n..];
  }

  /** ParseInt succeeds on a token exactly when it has the integer shape. */
  lemma ParseIntAcceptsExactly(s: string)
    ensures ParseInt(s).Some? <==> IntegerShape(s)
  {
    if ParseInt(s).Some? {
      ParseIntOnlyShape(s);
    }
    if IntegerShape(s) {
      var ws, sign, ds :|
        && AllSpaces(ws) && (sign == "" || sign == "+" || sign == "-") && |ds| > 0 && AllDigits(ds)
        && s == ws + (sign + ds);
      ParseIntAccepts(ws, sign, ds);
    }
  }

  /** A character after the digits is trailing garbage: the whole token is rejected. */
  lemma ParseIntRejectsTrailing(s: string, c: char)
    requires !IsDigit(c)
    ensures ParseInt(s + [c]) == None
  {
  }

  function DigitChar(d: nat): (c: char)
    requires d < 10
    ensures IsDigit(c) && DigitValue(c) == d
  {
    ('0' as int + d) as char
  }

  /** The base-10 rendering of a natural number, as `printf("%ld")` writes it. */
  function NatDigits(n: nat): (s: string)
    ensures |s| > 0 && AllDigits(s)
  {
    if n < 10 then [DigitChar(n)] else NatDigits(n / 10) + [DigitChar(n % 10)]
  }

  /** The base-10 rendering of an integer, with a leading '-' when negative. */
  function DecimalString(n: int): (s: string)
    ensures |s| > 0
  {
    if n < 0 then "-" + NatDigits(-n) else NatDigits(n)
  }

  lemma {:induction false} NatDigitsValue(n: nat)
    ensures DigitsValue(NatDigits(n)) == n
  {
    if n >= 10 {
      var s := NatDigits(n);
      assert s[..|s| - 1] == NatDigits(n / 10);
      NatDigitsValue(n / 10);
    }
  }

  /** Every integer written in base 10 validates and reads back as itself. */
  lemma ParseIntRoundTrip(n: int)
    ensures IsValidInt(DecimalString(n))
    ensures ParseInt(DecimalString(n)) == Some(n)
  {
    var m: nat := if n < 0 then -n else n;
    NatDigitsValue(m);
    var sign := if n < 0 then "-" else "";
    ParseIntAccepts("", sign, NatDigits(m));
    assert "" + (sign + NatDigits(m)) == DecimalString(n);
  }

  /** `strtod` with an end-pointer check, which the model does not define:
      `accepts` says whether a token is a whole floating-point literal and
      `value` gives the (float-rounded) number it denotes. */
  datatype FloatReader = FloatReader(accepts: string -> bool, value: string -> real)
}
