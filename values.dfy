/** The Python values that reach a letter, and the two conversions the
    generator applies to them: `str(v)` when a value is written into the
    document, and `float(x)` when a value is formatted as a percentage. */
module Values {
  import opened Wrappers

  /** A value taken from the payload, the store mapping or the clock. A float
      carries both its number and the text `str()` gives for it; every other
      kind of object (a list, a dict, ...) is known only by its `str()` text. */
  datatype Value =
    | Str(s: string)
    | Int(i: int)
    | Float(f: real, shown: string)
    | Bool(b: bool)
    | Null
    | Other(shown: string)

  predicate IsDigit(c: char) { '0' <= c <= '9' }

  predicate AllDigits(s: string) { forall i :: 0 <= i < |s| ==> IsDigit(s[i]) }

  function DigitValue(c: char): nat
    requires IsDigit(c)
  {
    c as int - '0' as int
  }

  function DigitChar(d: nat): (c: char)
    requires d < 10
    ensures IsDigit(c) && DigitValue(c) == d
  {
    ('0' as int + d) as char
  }

  /** Decimal digits of a natural number, most significant first, no leading zeros. */
  function NatToString(n: nat): (s: string)
    ensures |s| > 0 && AllDigits(s)
  {
    if n < 10 then [DigitChar(n)] else NatToString(n / 10) + [DigitChar(n % 10)]
  }

  /** `str(i)` for a Python int. */
  function IntToString(i: int): string
  {
    if i < 0 then "-" + NatToString(-i) else NatToString(i)
  }

  /** The number a string of decimal digits denotes. */
  function DigitsValue(s: string): nat
    requires AllDigits(s)
  {
    if s == [] then 0 else 10 * DigitsValue(s[..|s| - 1]) + DigitValue(s[|s| - 1])
  }

  function Pow10(n: nat): (p: nat)
    ensures p > 0
  {
    if n == 0 then 1 else 10 * Pow10(n - 1)
  }

  /** Index of the first '.' in s, or |s| when there is none. */
  function FirstDot(s: string): (p: nat)
    ensures p <= |s|
    ensures p < |s| ==> s[p] == '.'
    ensures forall i :: 0 <= i < p ==> s[i] != '.'
  {
    if s == [] || s[0] == '.' then 0 else 1 + FirstDot(s[1..])
  }

  /** An unsigned decimal: digits, or digits '.' digits with a digit on at
      least one side of the point. */
  function ParseUnsigned(s: string): Option<real>
  {
    var p := FirstDot(s);
    if p == |s| then
      if |s| > 0 && AllDigits(s) then Some(DigitsValue(s) as real) else None
    else
      var whole, frac := s[..p], s[p + 1..];
      if |whole| + |frac| > 0 && AllDigits(whole) && AllDigits(frac) then
        Some(DigitsValue(whole) as real + DigitsValue(frac) as real / Pow10(|frac|) as real)
      else
        None
  }

  /** `float(s)` for a string: an optional sign followed by an unsigned decimal. */
  function ParseDecimal(s: string): Option<real>
  {
    if |s| > 0 && s[0] == '-' then
      match ParseUnsigned(s[1..])
      case Some(v) => Some(-v)
      case None => None
    else if |s| > 0 && s[0] == '+' then
      ParseUnsigned(s[1..])
    else
      ParseUnsigned(s)
  }

  /** The least integer magnitude that `float()` rounds beyond the largest
      double, 2^1024 - 2^970: from there on `float(i)` raises OverflowError. */
  const FloatIntLimit: int :=
    0xfffffffffffffc00_0000000000000000_0000000000000000_0000000000000000_0000000000000000_0000000000000000_0000000000000000_0000000000000000_0000000000000000_0000000000000000_0000000000000000_0000000000000000_0000000000000000_0000000000000000_0000000000000000_0000000000000000

  /** `float(x)`: None where Python raises. */
  function ToFloat(x: Value): Option<real>
  {
    match x
    case Str(s) => ParseDecimal(s)
    case Int(i) => if -FloatIntLimit < i < FloatIntLimit then Some(i as real) else None
    case Float(f, _) => Some(f)
    case Bool(b) => Some(if b then 1.0 else 0.0)
    case Null => None
    case Other(_) => None
  }

  /** `str(x)`. */
  function ToStr(x: Value): string
  {
    match x
    case Str(s) => s
    case Int(i) => IntToString(i)
    case Float(_, shown) => shown
    case Bool(b) => if b then "True" else "False"
    case Null => "None"
    case Other(shown) => shown
  }

  lemma {:induction false} NatToStringValue(n: nat)
    ensures DigitsValue(NatToString(n)) == n
  {
    if n >= 10 {
      var s := NatToString(n);
      assert s == NatToString(n / 10) + [DigitChar(n % 10)];
      assert s[..|s| - 1] == NatToString(n / 10);
      NatToStringValue(n / 10);
    }
  }

  /** What `str()` prints for an int, `float()` reads back as the same number. */
  lemma ParseIntToString(i: int)
    ensures ParseDecimal(IntToString(i)) == Some(i as real)
  {
    var digits := NatToString(if i < 0 then -i else i);
    NatToStringValue(if i < 0 then -i else i);
    assert ParseUnsigned(digits) == Some(DigitsValue(digits) as real);
    if i < 0 {
      var s := "-" + digits;
      assert s[1..] == digits;
    } else {
      assert digits[0] != '-' && digits[0] != '+' by { assert IsDigit(digits[0]); }
    }
  }

  /** "-0" reads as zero. */
  lemma ParseNegativeZero()
    ensures ParseDecimal("-" + IntToString(0)) == Some(0.0)
  {
    assert NatToString(0) == "0";
    assert ("-" + "0")[1..] == "0";
    assert FirstDot("0") == 1;
  }

  lemma UnsignedWithoutDigits(s: string)
    requires forall i :: 0 <= i < |s| ==> !IsDigit(s[i])
    ensures ParseUnsigned(s) == None
  {
    var p := FirstDot(s);
    if p == |s| {
      if |s| > 0 { assert !IsDigit(s[0]); }
    } else {
      var whole, frac := s[..p], s[p + 1..];
      if |whole| > 0 { assert !IsDigit(whole[0]); }
      if |frac| > 0 { assert frac[0] == s[p + 1]; }
    }
  }

  /** A string with no decimal digit never reads as a number ("", "n/a", ...). */
  lemma ParseWithoutDigits(s: string)
    requires forall i :: 0 <= i < |s| ==> !IsDigit(s[i])
    ensures ParseDecimal(s) == None
  {
    if |s| > 0 {
      UnsignedWithoutDigits(s[1..]);
    }
    UnsignedWithoutDigits(s);
  }

  lemma UnsignedPercentSuffix(s: string)
    requires |s| > 0 && s[|s| - 1] == '%'
    ensures ParseUnsigned(s) == None
  {
    var p := FirstDot(s);
    if p == |s| {
      assert !IsDigit(s[|s| - 1]);
    } else {
      var frac := s[p + 1..];
      assert p < |s| - 1;
      assert frac[|frac| - 1] == '%';
    }
  }

  /** A string ending in '%' ("87%") never reads as a number. */
  lemma ParsePercentSuffix(s: string)
    requires |s| > 0 && s[|s| - 1] == '%'
    ensures ParseDecimal(s) == None
  {
    if s[0] == '-' || s[0] == '+' {
      if |s| > 1 {
        assert s[1..][|s[1..]| - 1] == '%';
        UnsignedPercentSuffix(s[1..]);
      }
    } else {
      UnsignedPercentSuffix(s);
    }
  }

  lemma ParseDecimalExample()
    ensures ParseDecimal("0.85") == Some(0.85)
  {
    assert FirstDot("0.85") == 1 by { assert "0.85"[1..] == ".85"; }
    assert "0.85"[..1] == "0";
    assert "0.85"[2..] == "85";
    assert DigitsValue("85") == 85 by { assert "85"[..1] == "8"; }
  }
}
