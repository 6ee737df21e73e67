/** `format_percent`: a payload value rendered as a whole-number percentage. */
module Percent {
  import opened Wrappers
  import opened Values

  /** Rounding to the nearest integer, ties to the even neighbour, as the `.0f`
      format does on an exactly representable value. */
  function RoundHalfEven(r: real): (n: int)
    ensures r - 0.5 <= n as real <= r + 0.5
    ensures (n as real == r - 0.5 || n as real == r + 0.5) ==> n % 2 == 0
  {
    var f := r.Floor;
    var d := r - f as real;
    if d < 0.5 then f
    else if d > 0.5 then f + 1
    else if f % 2 == 0 then f
    else f + 1
  }

  /** `f"{r:.0f}%"`. A negative value that rounds to zero keeps its sign. */
  function PercentText(r: real): string
  {
    var n := RoundHalfEven(r);
    (if r < 0.0 && n == 0 then "-" else "") + IntToString(n) + "%"
  }

  /** The scaling rule in one line: anything below 10 (negatives included) is a
      ratio and is multiplied by 100; 10 and above is already in percent. */
  function Scale(val: real): real
  {
    if val < 10.0 then val * 100.0 else val
  }

  /** `format_percent(x)`: the two sub-10 branches of the source are kept apart,
      and the contract says they compute one rule. */
  function FormatPercent(x: Value): (r: string)
    ensures ToFloat(x).None? ==> r == ToStr(x)
    ensures ToFloat(x).Some? ==> r == PercentText(Scale(ToFloat(x).value))
  {
    match ToFloat(x)
    case None => ToStr(x)
    case Some(val) =>
      if val < 1.0 then PercentText(val * 100.0)
      else if val < 10.0 then PercentText(val * 100.0)
      else PercentText(val)
  }

  /** A number is printed as digits followed by '%', and the digits read back
      as the scaled value rounded to within one half. */
  lemma FormatPercentReadsBack(x: Value)
    requires ToFloat(x).Some?
    ensures var r := FormatPercent(x);
      && |r| >= 2 && r[|r| - 1] == '%'
      && ParseDecimal(r[..|r| - 1]) == Some(RoundHalfEven(Scale(ToFloat(x).value)) as real)
      && Scale(ToFloat(x).value) - 0.5 <= RoundHalfEven(Scale(ToFloat(x).value)) as real <= Scale(ToFloat(x).value) + 0.5
  {
    PercentTextReadsBack(Scale(ToFloat(x).value));
  }

  lemma PercentTextReadsBack(v: real)
    ensures var r := PercentText(v);
      && |r| >= 2 && r[|r| - 1] == '%'
      && ParseDecimal(r[..|r| - 1]) == Some(RoundHalfEven(v) as real)
  {
    var n := RoundHalfEven(v);
    var r := PercentText(v);
    var sign := if v < 0.0 && n == 0 then "-" else "";
    assert r == sign + IntToString(n) + "%";
    assert r[..|r| - 1] == sign + IntToString(n);
    if sign == "" {
      ParseIntToString(n);
    } else {
      ParseNegativeZero();
    }
  }

  /** A text already ending in '%' is returned unchanged. */
  lemma FormatPercentKeepsPercentText(s: string)
    requires |s| > 0 && s[|s| - 1] == '%'
    ensures FormatPercent(Str(s)) == s
  {
    ParsePercentSuffix(s);
  }

  /** A text without any digit ("", "n/a") is returned unchanged. */
  lemma FormatPercentKeepsNonNumericText(s: string)
    requires forall i :: 0 <= i < |s| ==> !IsDigit(s[i])
    ensures FormatPercent(Str(s)) == s
  {
    ParseWithoutDigits(s);
  }

  lemma RoundWhole(n: int)
    ensures RoundHalfEven(n as real) == n
  {
  }

  /** The examples of the documentation comment. */
  lemma FormatPercentExamples()
    ensures FormatPercent(Float(0.85, "0.85")) == "85%"
    ensures FormatPercent(Float(1.22, "1.22")) == "122%"
    ensures FormatPercent(Int(122)) == "122%"
    ensures FormatPercent(Str("87%")) == "87%"
    ensures FormatPercent(Str("")) == ""
  {
    PercentTextOfWhole(85);
    PercentTextOfWhole(122);
    assert NatToString(85) == "85";
    assert NatToString(122) == "122" by { assert NatToString(12) == "12"; }
    assert Scale(0.85) == 85.0 && Scale(1.22) == 122.0;
    FormatPercentKeepsPercentText("87%");
    FormatPercentKeepsNonNumericText("");
  }

  /** A whole number prints as its digits and '%'. */
  lemma PercentTextOfWhole(n: nat)
    ensures PercentText(n as real) == NatToString(n) + "%"
  {
    RoundWhole(n);
  }

  /** A ratio given as text is read and scaled like a number. */
  lemma FormatPercentOfText()
    ensures FormatPercent(Str("0.85")) == "85%"
  {
    ParseDecimalExample();
    FormatPercentOfParsed("0.85", 0.85);
    assert Scale(0.85) == 85.0;
    PercentTextEightyFive();
  }

  lemma PercentTextEightyFive()
    ensures PercentText(85.0) == "85%"
  {
    PercentTextOfWhole(85);
    assert NatToString(85) == "85";
  }

  /** A text that reads as a number is formatted as that number. */
  lemma FormatPercentOfParsed(s: string, v: real)
    requires ParseDecimal(s) == Some(v)
    ensures FormatPercent(Str(s)) == PercentText(Scale(v))
  {
  }

  /** A small negative ratio prints as "-0%", the sign kept. */
  lemma FormatPercentNegativeZero()
    ensures FormatPercent(Float(-0.004, "-0.004")) == "-0%"
  {
    assert Scale(-0.004) == -0.4;
    assert RoundHalfEven(-0.4) == 0;
    assert NatToString(0) == "0";
  }

  /** An int beyond the range of a double makes `float()` raise, so it is
      printed as it is, without '%'. */
  lemma FormatPercentOfHugeInt(i: int)
    requires i >= FloatIntLimit || i <= -FloatIntLimit
    ensures FormatPercent(Int(i)) == IntToString(i)
  {
  }

  /** The heuristic cannot tell a ratio of 5 from a percentage of 500. */
  lemma FormatPercentIsLossy()
    ensures FormatPercent(Int(5)) == FormatPercent(Int(500)) == "500%"
  {
    RoundWhole(500);
    assert NatToString(500) == "500" by { assert NatToString(50) == "50"; }
  }
}
