/** The JavaScript numbers the app stores in `winnersCount`: integers, or NaN when
    `parseInt` finds no digits. Also the radix-10 `parseInt` and `Number.prototype.toString`. */
module JsNumber {
  import opened JsString

  /** A JavaScript number as far as the app can produce one. */
  datatype Num = Int(value: int) | NaN {

    /** `x || fallback` keeps `x` exactly when it is truthy: neither 0 nor NaN. */
    predicate Truthy() {
      Int? && value != 0
    }
  }

  predicate IsDigit(c: char) {
    '0' <= c <= '9'
  }

  function DigitValue(c: char): nat
    requires IsDigit(c)
  {
    c as int - '0' as int
  }

  function DigitChar(d: nat): (c: char)
    requires d < 10
    ensures IsDigit(c) && DigitValue(c) == d
  {
    ('0' as int + d) as char
  }

  /** The value of a string of decimal digits, most significant first. */
  function DecimalValue(ds: string): nat
    requires forall i :: 0 <= i < |ds| ==> IsDigit(ds[i])
  {
    if ds == [] then 0 else 10 * DecimalValue(ds[..|ds| - 1]) + DigitValue(ds[|ds| - 1])
  }

  /** The shortest decimal numeral of `n`: it starts with `0` only when it is `0` itself. */
  function NatToDecimal(n: nat): (s: string)
    ensures |s| >= 1 && forall i :: 0 <= i < |s| ==> IsDigit(s[i])
    ensures s[0] == '0' <==> n == 0
  {
    if n < 10 then [DigitChar(n)] else NatToDecimal(n / 10) + [DigitChar(n % 10)]
  }

  lemma {:induction false} DecimalValueOfNumeral(n: nat)
    ensures DecimalValue(NatToDecimal(n)) == n
  {
    if n >= 10 {
      var s := NatToDecimal(n);
      DecimalValueOfNumeral(n / 10);
      assert s[..|s| - 1] == NatToDecimal(n / 10);
    }
  }

  /** `Number.prototype.toString()` for the numbers the app handles. */
  function ToString(x: Num): string {
    match x
    case NaN => "NaN"
    case Int(v) => if v < 0 then "-" + NatToDecimal(-v) else NatToDecimal(v)
  }

  /** The longest prefix of `s` made of decimal digits. */
  function LeadingDigits(s: string): (ds: string)
    ensures |ds| <= |s| && ds == s[..|ds|]
    ensures forall i :: 0 <= i < |ds| ==> IsDigit(ds[i])
    ensures |ds| == |s| || !IsDigit(s[|ds|])
  {
    if s != [] && IsDigit(s[0]) then [s[0]] + LeadingDigits(s[1..]) else []
  }

  /** What follows an optional leading sign. */
  function Unsigned(t: string): (u: string)
    ensures t != [] && t[0] in {'+', '-'} ==> u == t[1..]
    ensures t == [] || t[0] !in {'+', '-'} ==> u == t
  {
    if t != [] && (t[0] == '+' || t[0] == '-') then t[1..] else t
  }

  /** `parseInt(s, 10)`: skip leading white space, read an optional sign, then the longest
      run of decimal digits; no digits at all gives NaN. */
  function ParseInt(s: string): (x: Num)
    ensures x.NaN? <==> LeadingDigits(Unsigned(TrimStart(s))) == []
    ensures x.Int? && x.value < 0 ==> TrimStart(s)[0] == '-'
  {
    var t := TrimStart(s);
    var ds := LeadingDigits(Unsigned(t));
    if ds == [] then NaN
    else if t[0] == '-' then Int(-(DecimalValue(ds) as int))
    else Int(DecimalValue(ds))
  }

  lemma {:induction false} LeadingDigitsOfDigits(ds: string)
    requires forall i :: 0 <= i < |ds| ==> IsDigit(ds[i])
    ensures LeadingDigits(ds) == ds
  {
    if ds != [] {
      LeadingDigitsOfDigits(ds[1..]);
    }
  }

  /** A numeral without leading white space or sign parses to its value. */
  lemma ParseNumeral(n: nat)
    ensures ParseInt(NatToDecimal(n)) == Int(n)
  {
    var ds := NatToDecimal(n);
    DecimalValueOfNumeral(n);
    assert !IsWhiteSpace(ds[0]);
    assert TrimStart(ds) == ds;
    assert Unsigned(ds) == ds;
    LeadingDigitsOfDigits(ds);
  }

  /** A minus sign in front of a numeral negates it. */
  lemma ParseNegativeNumeral(n: nat)
    requires n > 0
    ensures ParseInt("-" + NatToDecimal(n)) == Int(-(n as int))
  {
    var ds := NatToDecimal(n);
    var t := "-" + ds;
    DecimalValueOfNumeral(n);
    assert !IsWhiteSpace(t[0]);
    assert TrimStart(t) == t;
    assert t[0] == '-' && t[1..] == ds;
    assert Unsigned(t) == ds;
    LeadingDigitsOfDigits(ds);
  }

  /** `parseInt` reads back what `toString` wrote, for every integer and for NaN. */
  lemma ParseIntToString(x: Num)
    ensures ParseInt(ToString(x)) == x
  {
    match x
    case NaN =>
      var t := "NaN";
      assert !IsWhiteSpace(t[0]) && !IsDigit(t[0]);
      assert TrimStart(t) == t;
      assert Unsigned(t) == t;
      assert LeadingDigits(t) == [];
    case Int(v) =>
      if v < 0 { ParseNegativeNumeral(-v); } else { ParseNumeral(v); }
  }
}
