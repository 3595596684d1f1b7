/**
 The canonical text of a JSON number.

 `Canonical` states the layout in terms of the normal form of the number's value:
 its significand, without leading or trailing zero digits, and its magnitude, the
 power of ten of the last significand digit. `CanonicalJsonNumber` is the
 index-based parser and printer, proved to compute that layout.
 */
module CanonicalNumber {
  import opened Wrappers
  import opened Decimal
  import opened JsonNumber

  const MAX_TEMPLATE_VAR_BYTES := 8192

  predicate IsZero(n: Number)
    requires WellFormed(n)
  {
    TrimLeft(Digits(n)) == ""
  }

  function Significand(n: Number): string
    requires WellFormed(n)
  {
    TrimRight(TrimLeft(Digits(n)))
  }

  function Magnitude(n: Number): int
    requires WellFormed(n)
  {
    WrittenExponent(n) + |TrimLeft(Digits(n))| - |Significand(n)|
  }

  /** An integer with more trailing zeros than the bound; only these have two canonical texts. */
  predicate LongInteger(n: Number)
    requires WellFormed(n)
  {
    !IsZero(n) && Magnitude(n) > MAX_TEMPLATE_VAR_BYTES
  }

  /** The written digits reach down to the units place. */
  predicate WrittenOut(n: Number)
    requires WellFormed(n)
  {
    WrittenExponent(n) <= 0
  }

  function Scientific(minus: bool, digits: string, exponent: int): Number {
    if exponent < 0
    then Number(minus, digits, None, Some(Exponent('e', "-", Dec(-exponent))))
    else Number(minus, digits, None, Some(Exponent('e', "", Dec(exponent))))
  }

  /** The layout of a nonzero number with significand d and magnitude e. */
  function Layout(minus: bool, d: string, e: int, writtenOut: bool): Number {
    if e > MAX_TEMPLATE_VAR_BYTES && !writtenOut then Scientific(minus, d, e)
    else if e >= 0 then Number(minus, d + Zeros(e), None, None)
    else if -e > MAX_TEMPLATE_VAR_BYTES + |d| then Scientific(minus, d, e)
    else if -e < |d| then Number(minus, d[..|d| + e], Some(d[|d| + e..]), None)
    else Number(minus, "0", Some(Zeros(-e - |d|) + d), None)
  }

  const ZERO := Number(false, "0", None, None)

  function Canonical(n: Number): Number
    requires WellFormed(n)
  {
    if IsZero(n) then ZERO else Layout(n.minus, Significand(n), Magnitude(n), WrittenOut(n))
  }

  function CanonicalText(s: string): Option<string> {
    var n := Scan(s);
    if n.None? then None else Some(Text(Canonical(n.value)))
  }

  // ---------- the normal form of a value ----------

  lemma NormalForm(n: Number)
    requires WellFormed(n) && !IsZero(n)
    ensures Significant(Significand(n))
    ensures Rational(NatValue(Digits(n)), WrittenExponent(n)) == Rational(NatValue(Significand(n)), Magnitude(n))
  {
    hide NatValue, TrimRight, TrimLeft, Rational, Zeros;
    var t, d := TrimLeft(Digits(n)), Significand(n);
    TrimLeftKeepsValue(Digits(n));
    TrimRightOfDigits(t);
    assert Significant(d);
    var k := |t| - |d|;
    assert t == d + Zeros(k);
    ShiftedDigits(d, k, WrittenExponent(n));
    assert Magnitude(n) == WrittenExponent(n) + k;
    assert NatValue(t) == NatValue(Digits(n));
  }

  lemma ZeroValue(n: Number)
    requires WellFormed(n)
    ensures IsZero(n) <==> Value(n) == 0.0
  {
    TrimLeftKeepsValue(Digits(n));
    RationalSign(NatValue(Digits(n)), WrittenExponent(n));
  }

  lemma SignificantIsPositive(n: Number)
    requires WellFormed(n) && !IsZero(n)
    ensures Significant(Significand(n))
    ensures Rational(NatValue(Significand(n)), Magnitude(n)) > 0.0
  {
    NormalForm(n);
    PositiveValue(Significand(n));
    RationalSign(NatValue(Significand(n)), Magnitude(n));
  }

  /** Two numbers denote the same rational exactly when their normal forms agree. */
  lemma SameValueIffSameNormalForm(a: Number, b: Number)
    requires WellFormed(a) && WellFormed(b) && !IsZero(a) && !IsZero(b)
    ensures Value(a) == Value(b) <==>
            a.minus == b.minus && Significand(a) == Significand(b) && Magnitude(a) == Magnitude(b)
  {
    NormalForm(a);
    NormalForm(b);
    SignificantIsPositive(a);
    SignificantIsPositive(b);
    if Value(a) == Value(b) {
      NormalFormIsUnique(Significand(a), Magnitude(a), Significand(b), Magnitude(b));
    }
  }

  // ---------- the canonical number has the normal form of its source ----------

  /** The parts that a layout of significand d and magnitude e must have. */
  ghost predicate LaysOut(c: Number, minus: bool, d: string, e: int) {
    WellFormed(c) && !IsZero(c) && c.minus == minus && Significand(c) == d && Magnitude(c) == e
  }

  lemma PaddedDigits(c: Number, left: nat, d: string, right: nat)
    requires WellFormed(c) && Significant(d) && Digits(c) == Zeros(left) + (d + Zeros(right))
    ensures !IsZero(c) && Significand(c) == d && Magnitude(c) == WrittenExponent(c) + right
  {
    assert (d + Zeros(right))[0] == d[0];
    TrimLeftOfPadded(left, d + Zeros(right));
    TrimRightOfPadded(d, right);
  }

  lemma ScientificLaysOut(minus: bool, d: string, e: int)
    requires Significant(d)
    ensures LaysOut(Scientific(minus, d, e), minus, d, e)
    ensures WrittenExponent(Scientific(minus, d, e)) == e
  {
    var c := Scientific(minus, d, e);
    assert Digits(c) == Zeros(0) + (d + Zeros(0));
    PaddedDigits(c, 0, d, 0);
  }

  lemma IntegerLaysOut(minus: bool, d: string, e: nat)
    requires Significant(d)
    ensures LaysOut(Number(minus, d + Zeros(e), None, None), minus, d, e)
    ensures WrittenOut(Number(minus, d + Zeros(e), None, None))
  {
    var c := Number(minus, d + Zeros(e), None, None);
    assert Digits(c) == Zeros(0) + (d + Zeros(e));
    PaddedDigits(c, 0, d, e);
  }

  lemma FractionLaysOut(minus: bool, d: string, e: int)
    requires Significant(d) && 0 < -e < |d|
    ensures LaysOut(Number(minus, d[..|d| + e], Some(d[|d| + e..]), None), minus, d, e)
  {
    var c := Number(minus, d[..|d| + e], Some(d[|d| + e..]), None);
    assert Digits(c) == Zeros(0) + (d + Zeros(0));
    PaddedDigits(c, 0, d, 0);
  }

  lemma PaddedFractionLaysOut(minus: bool, d: string, e: int)
    requires Significant(d) && |d| <= -e
    ensures LaysOut(Number(minus, "0", Some(Zeros(-e - |d|) + d), None), minus, d, e)
  {
    var padding := -e - |d|;
    var c := Number(minus, "0", Some(Zeros(padding) + d), None);
    assert Digits(c) == Zeros(padding + 1) + (d + Zeros(0));
    PaddedDigits(c, padding + 1, d, 0);
  }

  lemma LayoutLaysOut(minus: bool, d: string, e: int, writtenOut: bool)
    requires Significant(d)
    ensures LaysOut(Layout(minus, d, e, writtenOut), minus, d, e)
    ensures e > MAX_TEMPLATE_VAR_BYTES ==> (WrittenOut(Layout(minus, d, e, writtenOut)) <==> writtenOut)
  {
    if (e > MAX_TEMPLATE_VAR_BYTES && !writtenOut) || -e > MAX_TEMPLATE_VAR_BYTES + |d| {
      ScientificLaysOut(minus, d, e);
    } else if e >= 0 {
      IntegerLaysOut(minus, d, e);
    } else if -e < |d| {
      FractionLaysOut(minus, d, e);
    } else {
      PaddedFractionLaysOut(minus, d, e);
    }
  }

  /** Only a long integer's layout depends on how its source was written. */
  lemma LayoutIgnoresSpelling(minus: bool, d: string, e: int, v: bool, w: bool)
    requires e > MAX_TEMPLATE_VAR_BYTES ==> v == w
    ensures Layout(minus, d, e, v) == Layout(minus, d, e, w)
  {
  }

  lemma ZeroIsCanonical()
    ensures WellFormed(ZERO) && IsZero(ZERO)
  {
    assert Digits(ZERO) == "0";
    assert TrimLeft("0"[1..]) == "";
  }

  lemma CanonicalLaysOut(n: Number)
    requires WellFormed(n) && !IsZero(n)
    ensures LaysOut(Canonical(n), n.minus, Significand(n), Magnitude(n))
    ensures LongInteger(n) ==> (WrittenOut(Canonical(n)) <==> WrittenOut(n))
  {
    NormalForm(n);
    LayoutLaysOut(n.minus, Significand(n), Magnitude(n), WrittenOut(n));
  }

  lemma CanonicalKeepsValue(n: Number)
    requires WellFormed(n)
    ensures WellFormed(Canonical(n)) && Value(Canonical(n)) == Value(n)
  {
    if IsZero(n) {
      ZeroIsCanonical();
      ZeroValue(n);
      ZeroValue(ZERO);
    } else {
      CanonicalLaysOut(n);
      SameValueIffSameNormalForm(Canonical(n), n);
    }
  }

  lemma CanonicalIsIdempotent(n: Number)
    requires WellFormed(n)
    ensures WellFormed(Canonical(n)) && Canonical(Canonical(n)) == Canonical(n)
  {
    if IsZero(n) {
      ZeroIsCanonical();
    } else {
      CanonicalLaysOut(n);
      var c := Canonical(n);
      LayoutIgnoresSpelling(n.minus, Significand(n), Magnitude(n), WrittenOut(n), WrittenOut(c));
    }
  }

  lemma SameValueSameCanonical(a: Number, b: Number)
    requires WellFormed(a) && WellFormed(b) && Value(a) == Value(b)
    requires LongInteger(a) ==> (WrittenOut(a) <==> WrittenOut(b))
    ensures Canonical(a) == Canonical(b)
  {
    ZeroValue(a);
    ZeroValue(b);
    if !IsZero(a) {
      SameValueIffSameNormalForm(a, b);
      LayoutIgnoresSpelling(a.minus, Significand(a), Magnitude(a), WrittenOut(a), WrittenOut(b));
    }
  }

  lemma SameCanonicalSameSpelling(a: Number, b: Number)
    requires WellFormed(a) && WellFormed(b) && Canonical(a) == Canonical(b) && LongInteger(a)
    requires Value(a) == Value(b)
    ensures WrittenOut(a) <==> WrittenOut(b)
  {
    ZeroValue(a);
    ZeroValue(b);
    SameValueIffSameNormalForm(a, b);
    CanonicalLaysOut(a);
    CanonicalLaysOut(b);
  }

  /** Equal canonical numbers: the same value, and one spelling where a long integer has two. */
  lemma SameCanonicalIff(a: Number, b: Number)
    requires WellFormed(a) && WellFormed(b)
    ensures Canonical(a) == Canonical(b) <==>
            Value(a) == Value(b) && (LongInteger(a) ==> (WrittenOut(a) <==> WrittenOut(b)))
  {
    if Canonical(a) == Canonical(b) {
      CanonicalKeepsValue(a);
      CanonicalKeepsValue(b);
      if LongInteger(a) {
        SameCanonicalSameSpelling(a, b);
      }
    } else if Value(a) == Value(b) && (LongInteger(a) ==> (WrittenOut(a) <==> WrittenOut(b))) {
      SameValueSameCanonical(a, b);
    }
  }

  // ---------- the promises about texts ----------

  /** The canonicaliser accepts exactly the number grammar of RFC 8259, section 6. */
  lemma AcceptsExactlyTheGrammar(s: string)
    ensures CanonicalText(s).Some? <==> IsJsonNumber(s)
  {
    ScanAcceptsTheGrammar(s);
  }

  /** Its output is in the grammar, denotes the same rational, and is a fixed point. */
  lemma CanonicalTextIsFaithful(s: string)
    requires CanonicalText(s).Some?
    ensures IsJsonNumber(CanonicalText(s).value)
    ensures Scan(CanonicalText(s).value).Some? && ValueOf(CanonicalText(s).value) == ValueOf(s)
    ensures CanonicalText(CanonicalText(s).value) == CanonicalText(s)
  {
    var n := Scan(s).value;
    CanonicalKeepsValue(n);
    CanonicalIsIdempotent(n);
    ScanInvertsText(Canonical(n));
  }

  /** For numbers of any length: when canonical texts are equal, and when they are not. */
  lemma SameTextIff(a: string, b: string)
    requires Scan(a).Some? && Scan(b).Some?
    ensures CanonicalText(a) == CanonicalText(b) <==>
            && ValueOf(a) == ValueOf(b)
            && (LongInteger(Scan(a).value) ==> (WrittenOut(Scan(a).value) <==> WrittenOut(Scan(b).value)))
  {
    var m, n := Scan(a).value, Scan(b).value;
    SameCanonicalIff(m, n);
    CanonicalKeepsValue(m);
    CanonicalKeepsValue(n);
    ScanInvertsText(Canonical(m));
    ScanInvertsText(Canonical(n));
  }

  /** Within the default bound on variables, canonical texts are equal exactly when the rationals are. */
  lemma BoundedNumbersCompareByValue(a: string, b: string)
    requires Scan(a).Some? && Scan(b).Some?
    requires |a| <= 8192 && |b| <= 8192
    ensures CanonicalText(a) == CanonicalText(b) <==> ValueOf(a) == ValueOf(b)
  {
    var m, n := Scan(a).value, Scan(b).value;
    SameTextIff(a, b);
    if ValueOf(a) == ValueOf(b) && LongInteger(m) {
      SameValueBothLong(m, n);
      BoundedLongIntegerIsScientific(a);
      BoundedLongIntegerIsScientific(b);
    }
  }

  lemma SameValueBothLong(m: Number, n: Number)
    requires WellFormed(m) && WellFormed(n) && Value(m) == Value(n) && LongInteger(m)
    ensures LongInteger(n)
  {
    ZeroValue(m);
    ZeroValue(n);
    SameValueIffSameNormalForm(m, n);
  }

  lemma BoundedLongIntegerIsScientific(s: string)
    requires Scan(s).Some? && |s| <= 8192 && LongInteger(Scan(s).value)
    ensures !WrittenOut(Scan(s).value)
  {
    ScanIsSound(s);
    assert |Digits(Scan(s).value)| <= |s|;
  }

  /** Past the bound the promise fails: one value, two canonical texts. */
  lemma LongIntegersHaveTwoTexts(k: nat)
    requires k > 8192
    ensures Scan("1" + Zeros(k)).Some? && Scan("1e" + Dec(k)).Some?
    ensures ValueOf("1" + Zeros(k)) == ValueOf("1e" + Dec(k))
    ensures CanonicalText("1" + Zeros(k)) != CanonicalText("1e" + Dec(k))
  {
    hide Text, Scan, Digits, TrimLeft, TrimRight, CanonicalText, WrittenExponent;
    var m, n := Number(false, "1" + Zeros(k), None, None), Scientific(false, "1", k);
    IntegerLaysOut(false, "1", k);
    ScientificLaysOut(false, "1", k);
    IntegerText(false, "1" + Zeros(k));
    assert MinusText(false) + ("1" + Zeros(k)) == "1" + Zeros(k);
    ScientificText(false, "1", k);
    assert MinusText(false) + ("1" + ("e" + Dec(k))) == "1e" + Dec(k);
    ScanInvertsText(m);
    ScanInvertsText(n);
    SameValueIffSameNormalForm(m, n);
    SameTextIff(Text(m), Text(n));
  }

  // ---------- the parser and printer ----------

  lemma LeadingDigitsStep(source: string, i: nat)
    requires i < |source| && IsDigit(source[i])
    ensures |LeadingDigits(source[i..])| == 1 + |LeadingDigits(source[i + 1..])|
  {
    assert source[i..][1..] == source[i + 1..];
  }

  /** The end of the digits that start at a position. */
  method SkipDigits(source: string, start: nat) returns (index: nat)
    requires start <= |source|
    ensures index == start + |LeadingDigits(source[start..])|
    ensures index <= |source| && source[start..index] == LeadingDigits(source[start..])
  {
    index := start;
    while index < |source| && IsDigit(source[index])
      invariant start <= index <= |source|
      invariant index + |LeadingDigits(source[index..])| == start + |LeadingDigits(source[start..])|
    {
      LeadingDigitsStep(source, index);
      index := index + 1;
    }
    assert source[start..][..index - start] == source[start..index];
  }

  method CanonicalScientificParts(digits: string, exponent: int) returns (d: string, e: int)
    ensures d == TrimRight(digits) && e == exponent + |digits| - |d|
  {
    d, e := digits, exponent;
    while d != "" && d[|d| - 1] == '0'
      invariant TrimRight(d) == TrimRight(digits)
      invariant e == exponent + |digits| - |d|
      decreases |d|
    {
      d, e := d[..|d| - 1], e + 1;
    }
  }

  /** Decimal text of an integer of any size, as math/big prints it. */
  function IntText(e: int): string {
    if e < 0 then "-" + Dec(-e) else Dec(e)
  }

  lemma ScientificText(minus: bool, d: string, e: int)
    ensures Text(Scientific(minus, d, e)) == MinusText(minus) + (d + ("e" + IntText(e)))
  {
    assert IntText(e) == (if e < 0 then "-" else "") + (if e < 0 then Dec(-e) else Dec(e));
    assert "" + ("e" + IntText(e)) == "e" + IntText(e);
  }

  method CanonicalScientificNumber(digits: string, exponent: int) returns (r: string)
    ensures var d := TrimRight(digits);
            var e := exponent + |digits| - |d|;
            r == if e == 0 then d else d + ("e" + IntText(e))
  {
    var d, e := CanonicalScientificParts(digits, exponent);
    if e == 0 {
      return d;
    }
    r := d + ("e" + IntText(e));
  }

  /** The bit-length guard of the source is implied: every bound passed here fits 63 bits. */
  predicate Bounded(value: int, max: int) {
    0 <= value <= max
  }

  lemma PlainText(minus: bool, integer: string, f: Option<string>)
    ensures Text(Number(minus, integer, f, None)) == MinusText(minus) + (integer + FractionText(f))
  {
    assert FractionText(f) + "" == FractionText(f);
  }

  lemma IntegerText(minus: bool, integer: string)
    ensures Text(Number(minus, integer, None, None)) == MinusText(minus) + integer
  {
    PlainText(minus, integer, None);
    assert integer + "" == integer;
  }

  lemma ZerosConcat(d: string, m: nat, n: nat)
    ensures (d + Zeros(m)) + Zeros(n) == d + Zeros(m + n)
  {
  }

  /** Prints a positive exponent: zeros in full up to the bound, scientific beyond it. */
  method PrintInteger(minus: bool, digits: string, exponent: nat) returns (r: string)
    requires exponent > 0
    ensures var d := TrimRight(digits);
            r == Text(Layout(minus, d, exponent + |digits| - |d|, false))
  {
    hide Text, TrimRight;
    var d, normalizedExponent := CanonicalScientificParts(digits, exponent);
    var scientific := CanonicalScientificNumber(digits, exponent);
    TrimRightDropsZeros(digits);
    if !Bounded(normalizedExponent, MAX_TEMPLATE_VAR_BYTES) || !Bounded(exponent, MAX_TEMPLATE_VAR_BYTES) {
      ScientificText(minus, d, normalizedExponent);
      return MinusText(minus) + scientific;
    }
    r := MinusText(minus) + (digits + Zeros(exponent));
    ZerosConcat(d, |digits| - |d|, exponent);
    IntegerText(minus, d + Zeros(normalizedExponent));
  }

  /** Prints a negative exponent: as a fraction within the bound, scientific beyond it. */
  method PrintFraction(minus: bool, digits: string, exponent: int) returns (r: string)
    requires exponent < 0 && TrimRight(digits) == digits
    ensures r == Text(Layout(minus, digits, exponent, true))
  {
    var places := -exponent;
    if !Bounded(places, MAX_TEMPLATE_VAR_BYTES + |digits|) {
      var scientific := CanonicalScientificNumber(digits, exponent);
      ScientificText(minus, digits, exponent);
      return MinusText(minus) + scientific;
    }
    if places < |digits| {
      var split := |digits| - places;
      PlainText(minus, digits[..split], Some(digits[split..]));
      return MinusText(minus) + (digits[..split] + ("." + digits[split..]));
    }
    PlainText(minus, "0", Some(Zeros(places - |digits|) + digits));
    r := MinusText(minus) + ("0" + ("." + (Zeros(places - |digits|) + digits)));
  }

  /** What the parser reads: the sign, the digits without the point, and the exponent of the last digit. */
  datatype Parsed = Parsed(negative: bool, digits: string, exponent: int)

  function ParsedNumber(n: Number): Parsed
    requires WellFormed(n)
  {
    Parsed(n.minus, Digits(n), WrittenExponent(n))
  }

  /** Reads an optional exponent up to the end of the source. */
  method ParseExponent(source: string, start: nat) returns (ok: bool, exponent: int)
    requires start <= |source|
    ensures ok <==> ScanExponent(source[start..]).Some?
    ensures ok ==> forall n: Number | WellFormed(n) && n.exponent == ScanExponent(source[start..]).value ::
                     exponent == ExponentValue(n)
  {
    var index := start;
    exponent := 0;
    ghost var tail := source[start..];
    if index < |source| && (source[index] == 'e' || source[index] == 'E') {
      index := index + 1;
      var exponentNegative := false;
      assert tail[1..] == source[index..];
      if index < |source| && (source[index] == '+' || source[index] == '-') {
        exponentNegative := source[index] == '-';
        index := index + 1;
      }
      var exponentStart := index;
      assert tail[1 + |ScanSign(tail[1..])|..] == source[exponentStart..];
      index := SkipDigits(source, exponentStart);
      if exponentStart == index {
        return false, 0;
      }
      exponent := NatValue(source[exponentStart..index]);
      if exponentNegative {
        exponent := -exponent;
      }
    }
    ok := index == |source|;
  }

  /** Reads an optional fraction; digits is empty when there is none. */
  method ParseFraction(source: string, start: nat) returns (ok: bool, digits: string, index: nat)
    requires start <= |source|
    ensures ok <==> ScanFraction(source[start..]).Some?
    ensures ok ==> var f := ScanFraction(source[start..]).value;
                   && digits == (if f.Some? then f.value else "")
                   && index <= |source| && source[index..] == source[start..][|FractionText(f)|..]
  {
    index := start;
    digits := "";
    ok := true;
    if index < |source| && source[index] == '.' {
      index := index + 1;
      var fractionStart := index;
      assert source[start..][1..] == source[fractionStart..];
      index := SkipDigits(source, fractionStart);
      ok := fractionStart != index;
      digits := source[fractionStart..index];
    }
  }

  /** Reads the optional minus sign and the integer part. */
  method ParseInteger(source: string) returns (ok: bool, negative: bool, digits: string, index: nat)
    ensures negative == ScanMinus(source)
    ensures var start := |MinusText(negative)|;
            && digits == LeadingDigits(source[start..])
            && index <= |source| && source[index..] == source[start..][|digits|..]
    ensures ok <==> WellFormedInteger(digits)
  {
    index := 0;
    negative := false;
    if index < |source| && source[index] == '-' {
      negative := true;
      index := index + 1;
    }
    var integerStart := index;
    index := SkipDigits(source, integerStart);
    digits := source[integerStart..index];
    ok := digits != "" && (digits[0] == '0' ==> index == integerStart + 1);
  }

  /** Reads a JSON number from left to right. */
  method ParseJsonNumber(source: string) returns (r: Option<Parsed>)
    ensures r == if Scan(source).None? then None else Some(ParsedNumber(Scan(source).value))
  {
    hide LeadingDigits, ScanFraction, ScanExponent, NatValue;
    var ok, negative, integerPart, index := ParseInteger(source);
    if !ok {
      return None;
    }
    ghost var fraction := ScanFraction(source[index..]);
    var fractionPart;
    ok, fractionPart, index := ParseFraction(source, index);
    if !ok {
      return None;
    }
    ghost var rest := ScanRest(source[index..], negative, integerPart, fraction.value);
    assert Scan(source) == rest;
    var exponent;
    ok, exponent := ParseExponent(source, index);
    if !ok {
      return None;
    }
    assert ParsedNumber(rest.value) == Parsed(negative, integerPart + fractionPart, exponent - |fractionPart|);
    r := Some(Parsed(negative, integerPart + fractionPart, exponent - |fractionPart|));
  }

  /** Cancels trailing zeros against a negative exponent. */
  method CancelZeros(digits: string, exponent: int) returns (d: string, e: int)
    ensures TrimRight(d) == TrimRight(digits) && e + |d| == exponent + |digits|
    ensures e <= 0 <==> exponent <= 0
    ensures e < 0 ==> TrimRight(d) == d
  {
    d, e := digits, exponent;
    while e < 0 && d != "" && d[|d| - 1] == '0'
      invariant TrimRight(d) == TrimRight(digits) && e + |d| == exponent + |digits|
      invariant e <= 0 <==> exponent <= 0
    {
      d, e := d[..|d| - 1], e + 1;
    }
  }

  lemma WrittenOutInteger(minus: bool, digits: string)
    ensures MinusText(minus) + digits == Text(Layout(minus, TrimRight(digits), |digits| - |TrimRight(digits)|, true))
  {
    TrimRightDropsZeros(digits);
    IntegerText(minus, digits);
  }

  /** Prints nonzero digits and the exponent of the last one, after cancellation. */
  method PrintCanonical(minus: bool, digits: string, exponent: int) returns (r: string)
    requires exponent < 0 ==> TrimRight(digits) == digits
    ensures var d := TrimRight(digits);
            r == Text(Layout(minus, d, exponent + |digits| - |d|, exponent <= 0))
  {
    hide Text, TrimRight;
    if exponent > 0 {
      r := PrintInteger(minus, digits, exponent);
    } else if exponent == 0 {
      r := MinusText(minus) + digits;
      WrittenOutInteger(minus, digits);
    } else {
      r := PrintFraction(minus, digits, exponent);
    }
  }

  /** The canonical text of a JSON number, or None for a text outside the grammar. */
  method CanonicalJsonNumber(source: string) returns (r: Option<string>)
    ensures r == CanonicalText(source)
  {
    hide Text, TrimRight, Layout, Digits, WrittenExponent, Scan;
    var parsed := ParseJsonNumber(source);
    if parsed.None? {
      return None;
    }
    var Parsed(negative, written, writtenExponent) := parsed.value;
    var trimmed := TrimLeft(written);
    if trimmed == "" {
      IntegerText(false, "0");
      assert MinusText(false) + "0" == "0";
      return Some("0");
    }
    var digits, exponent := CancelZeros(trimmed, writtenExponent);
    var text := PrintCanonical(negative, digits, exponent);
    r := Some(text);
  }
}
