/**
 The number grammar of RFC 8259, section 6, the rational a number denotes, and a
 scanner for it.

 `Text` spells a number out of its parts; the grammar is the set of spellings of
 well-formed parts. `Scan` is the inverse of `Text`, so every text has at most one
 reading and `ValueOf` is well defined.
 */
module JsonNumber {
  import opened Wrappers
  import opened Decimal

  datatype Exponent = Exponent(marker: char, sign: string, digits: string)

  datatype Number = Number(minus: bool, integer: string, fraction: Option<string>, exponent: Option<Exponent>)

  predicate WellFormedInteger(s: string) {
    AllDigits(s) && s != "" && (s[0] == '0' ==> s == "0")
  }

  predicate WellFormedFraction(f: Option<string>) {
    f.Some? ==> AllDigits(f.value) && f.value != ""
  }

  predicate WellFormedExponent(e: Option<Exponent>) {
    e.Some? ==>
      && (e.value.marker == 'e' || e.value.marker == 'E')
      && (e.value.sign == "" || e.value.sign == "+" || e.value.sign == "-")
      && AllDigits(e.value.digits) && e.value.digits != ""
  }

  predicate WellFormed(n: Number) {
    WellFormedInteger(n.integer) && WellFormedFraction(n.fraction) && WellFormedExponent(n.exponent)
  }

  function MinusText(minus: bool): string {
    if minus then "-" else ""
  }

  function FractionText(f: Option<string>): string {
    if f.Some? then "." + f.value else ""
  }

  function ExponentText(e: Option<Exponent>): string {
    if e.Some? then [e.value.marker] + (e.value.sign + e.value.digits) else ""
  }

  function Text(n: Number): string {
    MinusText(n.minus) + (n.integer + (FractionText(n.fraction) + ExponentText(n.exponent)))
  }

  /** The number grammar of RFC 8259, section 6. */
  ghost predicate IsJsonNumber(s: string) {
    exists n :: WellFormed(n) && Text(n) == s
  }

  function FractionDigits(n: Number): string {
    if n.fraction.Some? then n.fraction.value else ""
  }

  /** All digits of the significand, without the point. */
  function Digits(n: Number): (s: string)
    requires WellFormed(n)
    ensures AllDigits(s) && s != ""
  {
    n.integer + FractionDigits(n)
  }

  function ExponentValue(n: Number): int
    requires WellFormed(n)
  {
    if n.exponent.None? then 0
    else if n.exponent.value.sign == "-" then 0 - NatValue(n.exponent.value.digits)
    else NatValue(n.exponent.value.digits)
  }

  /** The power of ten that the last written digit counts. */
  function WrittenExponent(n: Number): int
    requires WellFormed(n)
  {
    ExponentValue(n) - |FractionDigits(n)|
  }

  /** The rational a number denotes. */
  ghost function Value(n: Number): real
    requires WellFormed(n)
  {
    var magnitude := Rational(NatValue(Digits(n)), WrittenExponent(n));
    if n.minus then -magnitude else magnitude
  }

  /** The longest prefix of s made of digits. */
  function LeadingDigits(s: string): (d: string)
    ensures |d| <= |s| && d == s[..|d|] && AllDigits(d)
    ensures |d| < |s| ==> !IsDigit(s[|d|])
  {
    if s != "" && IsDigit(s[0]) then [s[0]] + LeadingDigits(s[1..]) else ""
  }

  lemma {:induction false} LeadingDigitsOfConcat(d: string, rest: string)
    requires AllDigits(d) && (rest != "" ==> !IsDigit(rest[0]))
    ensures LeadingDigits(d + rest) == d
  {
    if d == "" {
      assert d + rest == rest;
    } else {
      LeadingDigitsOfConcat(d[1..], rest);
      assert (d + rest)[1..] == d[1..] + rest;
    }
  }

  /** Reads an optional fraction; None when a point has no digit after it. */
  function ScanFraction(s: string): (r: Option<Option<string>>)
    ensures r.Some? ==> WellFormedFraction(r.value) && |FractionText(r.value)| <= |s|
  {
    if s != "" && s[0] == '.' then
      var digits := LeadingDigits(s[1..]);
      if digits == "" then None else Some(Some(digits))
    else Some(None)
  }

  /** Reads an optional sign. */
  function ScanSign(s: string): (sign: string)
    ensures |sign| <= |s|
    ensures sign == "" || sign == "+" || sign == "-"
  {
    if s != "" && (s[0] == '+' || s[0] == '-') then [s[0]] else ""
  }

  /** Reads an optional exponent that ends the text. */
  function ScanExponent(s: string): (r: Option<Option<Exponent>>)
    ensures r.Some? ==> WellFormedExponent(r.value)
  {
    if s == "" then Some(None)
    else if s[0] == 'e' || s[0] == 'E' then
      var sign := ScanSign(s[1..]);
      var digits := LeadingDigits(s[1 + |sign|..]);
      if digits == "" || 1 + |sign| + |digits| < |s| then None
      else Some(Some(Exponent(s[0], sign, digits)))
    else None
  }

  function ScanMinus(s: string): bool {
    s != "" && s[0] == '-'
  }

  function ScanRest(tail: string, minus: bool, integer: string, f: Option<string>): (r: Option<Number>)
    requires WellFormedInteger(integer) && WellFormedFraction(f)
    ensures r.Some? ==> WellFormed(r.value)
  {
    var e := ScanExponent(tail);
    if e.None? then None else Some(Number(minus, integer, f, e.value))
  }

  /** Reads a number without its minus sign. */
  function ScanUnsigned(s: string, minus: bool): (r: Option<Number>)
    ensures r.Some? ==> WellFormed(r.value)
  {
    var integer := LeadingDigits(s);
    if !WellFormedInteger(integer) then None else
      var afterInteger := s[|integer|..];
      var fraction := ScanFraction(afterInteger);
      if fraction.None? then None else
        ScanRest(afterInteger[|FractionText(fraction.value)|..], minus, integer, fraction.value)
  }

  /** Reads a whole text; None when it is not in the grammar. */
  function Scan(s: string): (r: Option<Number>)
    ensures r.Some? ==> WellFormed(r.value)
  {
    ScanUnsigned(s[|MinusText(ScanMinus(s))|..], ScanMinus(s))
  }

  lemma ScannedFraction(s: string)
    requires ScanFraction(s).Some?
    ensures var f := FractionText(ScanFraction(s).value); s == f + s[|f|..]
  {
  }

  lemma ScannedExponent(s: string)
    requires ScanExponent(s).Some?
    ensures ExponentText(ScanExponent(s).value) == s
  {
    if s != "" {
      var sign := ScanSign(s[1..]);
      assert s[1..] == sign + s[1 + |sign|..];
    }
  }

  lemma ScannedUnsigned(s: string, minus: bool)
    requires ScanUnsigned(s, minus).Some?
    ensures var n := ScanUnsigned(s, minus).value;
            n.minus == minus && n.integer + (FractionText(n.fraction) + ExponentText(n.exponent)) == s
  {
    hide LeadingDigits, ScanFraction, ScanExponent;
    var integer := LeadingDigits(s);
    var s' := s[|integer|..];
    var f := FractionText(ScanFraction(s').value);
    assert s == integer + s';
    ScannedFraction(s');
    ScannedExponent(s'[|f|..]);
  }

  /** What the scanner reads is a spelling of the text. */
  lemma ScanIsSound(s: string)
    requires Scan(s).Some?
    ensures Text(Scan(s).value) == s
  {
    var minus := ScanMinus(s);
    var unsigned := s[|MinusText(minus)|..];
    assert s == MinusText(minus) + unsigned;
    ScannedUnsigned(unsigned, minus);
  }

  lemma ScanFractionFindsIt(f: Option<string>, rest: string)
    requires WellFormedFraction(f)
    requires rest != "" ==> !IsDigit(rest[0]) && rest[0] != '.'
    ensures ScanFraction(FractionText(f) + rest) == Some(f)
  {
    if f.Some? {
      assert (FractionText(f) + rest)[1..] == f.value + rest;
      LeadingDigitsOfConcat(f.value, rest);
    } else {
      assert FractionText(f) + rest == rest;
    }
  }

  lemma ScanExponentFindsIt(e: Option<Exponent>)
    requires WellFormedExponent(e)
    ensures ScanExponent(ExponentText(e)) == Some(e)
  {
    if e.Some? {
      var s := ExponentText(e);
      var Exponent(marker, sign, digits) := e.value;
      assert s[1..] == sign + digits;
      assert ScanSign(s[1..]) == sign;
      assert s[1 + |sign|..] == digits;
      LeadingDigitsOfConcat(digits, "");
      assert digits + "" == digits;
    }
  }

  lemma ScanUnsignedFindsIt(n: Number)
    requires WellFormed(n)
    ensures ScanUnsigned(n.integer + (FractionText(n.fraction) + ExponentText(n.exponent)), n.minus) == Some(n)
  {
    var f, e := FractionText(n.fraction), ExponentText(n.exponent);
    LeadingDigitsOfConcat(n.integer, f + e);
    assert (n.integer + (f + e))[|n.integer|..] == f + e;
    ScanFractionFindsIt(n.fraction, e);
    assert (f + e)[|f|..] == e;
    ScanExponentFindsIt(n.exponent);
  }

  /** Every text of the grammar is read back as the parts it was spelled from. */
  lemma ScanInvertsText(n: Number)
    requires WellFormed(n)
    ensures Scan(Text(n)) == Some(n)
  {
    var rest := n.integer + (FractionText(n.fraction) + ExponentText(n.exponent));
    assert rest[0] == n.integer[0];
    assert Text(n)[|MinusText(n.minus)|..] == rest;
    ScanUnsignedFindsIt(n);
  }

  /** The scanner accepts exactly the grammar, and each text has one reading. */
  lemma ScanAcceptsTheGrammar(s: string)
    ensures Scan(s).Some? <==> IsJsonNumber(s)
    ensures forall n :: WellFormed(n) && Text(n) == s ==> Scan(s) == Some(n)
  {
    if Scan(s).Some? {
      ScanIsSound(s);
    }
    forall n | WellFormed(n) && Text(n) == s
      ensures Scan(s) == Some(n)
    {
      ScanInvertsText(n);
    }
  }

  /** The rational a text of the grammar denotes. */
  ghost function ValueOf(s: string): real
    requires Scan(s).Some?
  {
    Value(Scan(s).value)
  }
}
