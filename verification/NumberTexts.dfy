/**
 The canonical text of a number spelled out by value: which digits, which zeros, where
 the point stands, and when there is an exponent part.
 */
module NumberTexts {
  import opened Wrappers
  import opened Decimal
  import opened JsonNumber
  import opened CanonicalNumber

  ghost function Signed(minus: bool, magnitude: real): real {
    if minus then -magnitude else magnitude
  }

  /** The value of s is d, digits without zeros at either end, times ten to the power e, negated under a minus sign. */
  ghost predicate Denotes(s: string, minus: bool, d: string, e: int) {
    Scan(s).Some? && Significant(d) && ValueOf(s) == Signed(minus, Rational(NatValue(d), e))
  }

  /** Every number but zero has exactly one such reading. */
  lemma DenotesOne(s: string) returns (minus: bool, d: string, e: int)
    requires Scan(s).Some? && ValueOf(s) != 0.0
    ensures Denotes(s, minus, d, e)
  {
    var n := Scan(s).value;
    ZeroValue(n);
    NormalForm(n);
    minus, d, e := n.minus, Significand(n), Magnitude(n);
  }

  lemma PartsOf(s: string, minus: bool, d: string, e: int)
    requires Denotes(s, minus, d, e)
    ensures var n := Scan(s).value; !IsZero(n) && n.minus == minus && Significand(n) == d && Magnitude(n) == e
  {
    var n := Scan(s).value;
    hide Scan, NatValue, TrimRight, TrimLeft, Rational, Digits, WrittenExponent;
    PositiveValue(d);
    RationalSign(NatValue(d), e);
    ZeroValue(n);
    NormalForm(n);
    SignificantIsPositive(n);
    NormalFormIsUnique(Significand(n), Magnitude(n), d, e);
  }

  lemma DenotesIsUnique(s: string, minus: bool, d: string, e: int, other: bool, f: string, g: int)
    requires Denotes(s, minus, d, e) && Denotes(s, other, f, g)
    ensures minus == other && d == f && e == g
  {
    hide Denotes;
    PartsOf(s, minus, d, e);
    PartsOf(s, other, f, g);
  }

  lemma ZeroIsZero(s: string)
    requires Scan(s).Some? && ValueOf(s) == 0.0
    ensures CanonicalText(s) == Some("0")
  {
    hide Scan;
    ZeroValue(Scan(s).value);
    IntegerText(false, "0");
    assert MinusText(false) + "0" == "0";
  }

  // ---------- the text by value ----------

  /** The digits, with the point and up to 8192 zeros written, or with an exponent part for more zeros. */
  function Spelled(minus: bool, d: string, e: int, writtenOut: bool): string {
    var sign := if minus then "-" else "";
    if e > 8192 && !writtenOut then sign + (d + ("e" + Dec(e)))
    else if e >= 0 then sign + (d + Zeros(e))
    else if e < -|d| - 8192 then sign + (d + ("e-" + Dec(-e)))
    else if -|d| < e then sign + (d[..|d| + e] + ("." + d[|d| + e..]))
    else sign + ("0" + ("." + (Zeros(-e - |d|) + d)))
  }

  lemma SpelledScientific(minus: bool, d: string, e: int)
    requires e != 0
    ensures Text(Scientific(minus, d, e)) == (if minus then "-" else "")
              + (d + (if e < 0 then "e-" + Dec(-e) else "e" + Dec(e)))
  {
    hide Text, Dec;
    ScientificText(minus, d, e);
    if e < 0 {
      assert "e-" + Dec(-e) == "e" + ("-" + Dec(-e));
    }
  }

  lemma SpelledPlain(minus: bool, integer: string, fraction: string)
    ensures Text(Number(minus, integer, Some(fraction), None)) ==
            (if minus then "-" else "") + (integer + ("." + fraction))
  {
    PlainText(minus, integer, Some(fraction));
  }

  lemma LayoutIsSpelled(minus: bool, d: string, e: int, writtenOut: bool)
    ensures Text(Layout(minus, d, e, writtenOut)) == Spelled(minus, d, e, writtenOut)
  {
    hide Text, Dec, Zeros, Scientific;
    if (e > 8192 && !writtenOut) || e < -|d| - 8192 {
      SpelledScientific(minus, d, e);
    } else if e >= 0 {
      IntegerText(minus, d + Zeros(e));
    } else if -|d| < e {
      SpelledPlain(minus, d[..|d| + e], d[|d| + e..]);
    } else {
      SpelledPlain(minus, "0", Zeros(-e - |d|) + d);
    }
  }

  /** The text of every nonzero number; only a source beyond 8192 bytes can write more than 8192 zeros out. */
  lemma TextByValue(s: string, minus: bool, d: string, e: int)
    requires Denotes(s, minus, d, e)
    ensures CanonicalText(s) == Some(Spelled(minus, d, e, WrittenOut(Scan(s).value)))
    ensures |s| <= 8192 && e > 8192 ==> !WrittenOut(Scan(s).value)
  {
    PartsOf(s, minus, d, e);
    if e > 8192 && |s| <= 8192 {
      BoundedLongIntegerIsScientific(s);
    }
    hide Scan, IsZero, Significand, Magnitude, Denotes, Text, WrittenOut, Spelled, Layout;
    LayoutIsSpelled(minus, d, e, WrittenOut(Scan(s).value));
  }

  lemma NoExponentIn(a: string)
    requires forall i :: 0 <= i < |a| ==> IsDigit(a[i]) || a[i] == '-' || a[i] == '.'
    ensures 'e' !in a
  {
  }

  lemma MarkedAt(head: string, tail: string)
    ensures 'e' in head + ("e" + tail)
  {
    assert (head + ("e" + tail))[|head|] == 'e';
  }

  lemma SpelledExponent(minus: bool, d: string, e: int, writtenOut: bool)
    requires AllDigits(d)
    ensures 'e' in Spelled(minus, d, e, writtenOut) <==> (e > 8192 && !writtenOut) || e < -|d| - 8192
  {
    hide Dec;
    var sign := if minus then "-" else "";
    if e > 8192 && !writtenOut {
      assert sign + (d + ("e" + Dec(e))) == sign + d + ("e" + Dec(e));
      MarkedAt(sign + d, Dec(e));
    } else if e < -|d| - 8192 {
      assert sign + (d + ("e-" + Dec(-e))) == sign + d + ("e" + ("-" + Dec(-e)));
      MarkedAt(sign + d, "-" + Dec(-e));
    } else {
      NoExponentIn(Spelled(minus, d, e, writtenOut));
    }
  }

  /** Of the sources within 8192 bytes exactly the numbers with more than 8192 padding zeros get an exponent part. */
  lemma ExponentIff(s: string, minus: bool, d: string, e: int)
    requires Denotes(s, minus, d, e) && |s| <= 8192
    ensures CanonicalText(s).Some? && ('e' in CanonicalText(s).value <==> e > 8192 || e < -|d| - 8192)
  {
    TextByValue(s, minus, d, e);
    hide Scan, Spelled, CanonicalText, WrittenOut, NatValue;
    SpelledExponent(minus, d, e, WrittenOut(Scan(s).value));
  }

  // ---------- what spellings denote ----------

  ghost predicate Reads(s: string, value: real) {
    Scan(s).Some? && ValueOf(s) == value
  }

  lemma ReadsParts(n: Number)
    requires WellFormed(n)
    ensures Reads(Text(n), Value(n))
  {
    ScanInvertsText(n);
  }

  lemma FractionAndExponent()
    ensures Reads("-12.5e2", -1250.0)
  {
    hide Reads;
    var n := Number(true, "12", Some("5"), Some(Exponent('e', "", "2")));
    ReadsParts(n);
    assert Text(n) == "-12.5e2";
    assert Digits(n) == "125" && "125"[..2] == "12" && "12"[..1] == "1" && "1"[..0] == "" && "2"[..0] == "";
    assert NatValue("1") == 1 && NatValue("12") == 12 && NatValue("125") == 125 && NatValue("2") == 2;
    assert WrittenExponent(n) == 1;
  }

  lemma LeadingZeros()
    ensures Reads("0.05", 0.05)
  {
    hide Reads;
    var n := Number(false, "0", Some("05"), None);
    ReadsParts(n);
    assert Text(n) == "0.05";
    assert Digits(n) == "005" && "005"[..2] == "00" && "00"[..1] == "0" && "0"[..0] == "";
    assert NatValue("0") == 0 && NatValue("00") == 0 && NatValue("005") == 5;
    assert WrittenExponent(n) == -2 && Rational(5, -1) == 0.5 && Rational(5, -2) == 0.05;
  }

  lemma NegativeExponent()
    ensures Reads("3E-2", 0.03)
  {
    hide Reads;
    var n := Number(false, "3", None, Some(Exponent('E', "-", "2")));
    ReadsParts(n);
    assert Text(n) == "3E-2";
    assert Digits(n) == "3" && "3"[..0] == "" && "2"[..0] == "";
    assert NatValue("3") == 3 && NatValue("2") == 2;
    assert WrittenExponent(n) == -2 && Rational(3, -1) == 0.3 && Rational(3, -2) == 0.03;
  }

  lemma PositiveExponent()
    ensures Reads("70e+1", 700.0)
  {
    hide Reads;
    var n := Number(false, "70", None, Some(Exponent('e', "+", "1")));
    ReadsParts(n);
    assert Text(n) == "70e+1";
    assert Digits(n) == "70" && "70"[..1] == "7" && "7"[..0] == "" && "1"[..0] == "";
    assert NatValue("7") == 7 && NatValue("70") == 70 && NatValue("1") == 1;
    assert WrittenExponent(n) == 1 && Rational(70, 1) == 700.0;
  }
}
