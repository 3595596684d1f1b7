/**
 Decimal digit strings, the naturals they denote, and powers of ten.

 A digit string is read most significant digit first; `Dec` is the shortest
 digit string of a natural number, as math/big prints it.
 */
module Decimal {

  predicate IsDigit(c: char) {
    '0' <= c <= '9'
  }

  predicate AllDigits(s: string) {
    forall i :: 0 <= i < |s| ==> IsDigit(s[i])
  }

  function DigitValue(c: char): (d: nat)
    requires IsDigit(c)
    ensures d < 10
  {
    c as int - '0' as int
  }

  function NatValue(s: string): nat
    requires AllDigits(s)
  {
    if s == "" then 0 else 10 * NatValue(s[..|s| - 1]) + DigitValue(s[|s| - 1])
  }

  function DigitChar(d: nat): (c: char)
    requires d < 10
    ensures IsDigit(c) && DigitValue(c) == d
  {
    '0' + d as char
  }

  function Dec(n: nat): (s: string)
    ensures AllDigits(s) && s != "" && NatValue(s) == n
    ensures s[0] == '0' <==> n == 0
    ensures n == 0 ==> s == "0"
  {
    if n < 10 then
      assert [DigitChar(n)][..0] == "";
      [DigitChar(n)]
    else
      var s := Dec(n / 10) + [DigitChar(n % 10)];
      assert s[..|s| - 1] == Dec(n / 10);
      s
  }

  function Zeros(n: nat): (s: string)
    ensures |s| == n && forall i :: 0 <= i < n ==> s[i] == '0'
  {
    seq(n, i => '0')
  }

  function Pow10(n: nat): (p: nat)
    ensures p > 0
  {
    if n == 0 then 1 else 10 * Pow10(n - 1)
  }

  /** The rational v times ten to the power e. */
  ghost function Rational(v: nat, e: int): real
    decreases if e < 0 then -e else e
  {
    if e == 0 then v as real
    else if e > 0 then 10.0 * Rational(v, e - 1)
    else Rational(v, e + 1) / 10.0
  }

  /** Drops leading zeros, as strings.TrimLeft(s, "0") does. */
  function TrimLeft(s: string): (t: string)
    ensures |t| <= |s|
  {
    if s != "" && s[0] == '0' then TrimLeft(s[1..]) else s
  }

  /** Drops trailing zeros. */
  function TrimRight(s: string): (t: string)
    ensures |t| <= |s|
  {
    if s != "" && s[|s| - 1] == '0' then TrimRight(s[..|s| - 1]) else s
  }

  lemma {:induction false} TrimRightDropsZeros(s: string)
    ensures s == TrimRight(s) + Zeros(|s| - |TrimRight(s)|)
    ensures TrimRight(s) != "" ==> TrimRight(s)[|TrimRight(s)| - 1] != '0'
  {
    if s != "" && s[|s| - 1] == '0' {
      TrimRightDropsZeros(s[..|s| - 1]);
      var t := TrimRight(s);
      assert s == s[..|s| - 1] + "0";
      assert Zeros(|s| - |t|) == Zeros(|s| - 1 - |t|) + "0";
    }
  }

  lemma {:induction false} TrimLeftOfPadded(n: nat, d: string)
    requires d != "" && d[0] != '0'
    ensures TrimLeft(Zeros(n) + d) == d
  {
    if n > 0 {
      assert (Zeros(n) + d)[1..] == Zeros(n - 1) + d;
      TrimLeftOfPadded(n - 1, d);
    } else {
      assert Zeros(n) + d == d;
    }
  }

  lemma {:induction false} TrimRightOfPadded(d: string, n: nat)
    requires d != "" && d[|d| - 1] != '0'
    ensures TrimRight(d + Zeros(n)) == d
  {
    if n > 0 {
      assert (d + Zeros(n))[..|d| + n - 1] == d + Zeros(n - 1);
      TrimRightOfPadded(d, n - 1);
    } else {
      assert d + Zeros(n) == d;
    }
  }

  /** A digit string without leading zeros trims to its significant digits. */
  lemma TrimRightOfDigits(s: string)
    requires AllDigits(s) && s != "" && s[0] != '0'
    ensures Significant(TrimRight(s)) && s == TrimRight(s) + Zeros(|s| - |TrimRight(s)|)
  {
    TrimRightDropsZeros(s);
    if TrimRight(s) == "" {
      assert false;
    }
  }

  lemma {:induction false} NatValueOfConcat(a: string, b: string)
    requires AllDigits(a) && AllDigits(b)
    ensures AllDigits(a + b) && NatValue(a + b) == NatValue(a) * Pow10(|b|) + NatValue(b)
  {
    if b == "" {
      assert a + b == a;
    } else {
      var b' := b[..|b| - 1];
      NatValueOfConcat(a, b');
      assert (a + b)[..|a + b| - 1] == a + b';
      Regroup(NatValue(a), Pow10(|b'|), NatValue(b'));
    }
  }

  lemma Regroup(a: int, p: int, b: int)
    ensures 10 * (a * p + b) == a * (10 * p) + 10 * b
  {
  }

  lemma {:induction false} NatValueOfZeros(n: nat)
    ensures AllDigits(Zeros(n)) && NatValue(Zeros(n)) == 0
  {
    if n > 0 {
      assert Zeros(n)[..n - 1] == Zeros(n - 1);
      NatValueOfZeros(n - 1);
    }
  }

  lemma NatValueShifted(d: string, n: nat)
    requires AllDigits(d)
    ensures AllDigits(d + Zeros(n)) && NatValue(d + Zeros(n)) == NatValue(d) * Pow10(n)
  {
    NatValueOfZeros(n);
    NatValueOfConcat(d, Zeros(n));
  }

  lemma NatValuePadded(d: string, n: nat)
    requires AllDigits(d)
    ensures AllDigits(Zeros(n) + d) && NatValue(Zeros(n) + d) == NatValue(d)
  {
    NatValueOfZeros(n);
    NatValueOfConcat(Zeros(n), d);
  }

  lemma {:induction false} TrimLeftKeepsValue(s: string)
    requires AllDigits(s)
    ensures AllDigits(TrimLeft(s)) && NatValue(TrimLeft(s)) == NatValue(s)
    ensures TrimLeft(s) == "" <==> NatValue(s) == 0
    ensures TrimLeft(s) != "" ==> TrimLeft(s)[0] != '0'
  {
    if s != "" && s[0] == '0' {
      TrimLeftKeepsValue(s[1..]);
      assert s == Zeros(1) + s[1..];
      NatValuePadded(s[1..], 1);
    } else if s != "" {
      PositiveValue(s);
    }
  }

  lemma {:induction false} PositiveValue(s: string)
    requires AllDigits(s) && s != "" && s[0] != '0'
    ensures NatValue(s) > 0
  {
    if |s| > 1 {
      PositiveValue(s[..|s| - 1]);
    } else {
      assert s[..0] == "";
    }
  }

  /** Two digit strings without leading zeros that denote the same number are the same string. */
  lemma {:induction false} DigitsAreUnique(a: string, b: string)
    requires AllDigits(a) && AllDigits(b)
    requires a != "" ==> a[0] != '0'
    requires b != "" ==> b[0] != '0'
    requires NatValue(a) == NatValue(b)
    ensures a == b
  {
    if a == "" || b == "" {
      if a != "" { PositiveValue(a); }
      if b != "" { PositiveValue(b); }
    } else {
      DigitsAreUnique(a[..|a| - 1], b[..|b| - 1]);
      assert a == a[..|a| - 1] + [a[|a| - 1]];
      assert b == b[..|b| - 1] + [b[|b| - 1]];
    }
  }

  lemma {:induction false} TenfoldIsOneStep(v: nat, e: int)
    ensures Rational(10 * v, e) == Rational(v, e + 1)
    decreases if e < 0 then -e else e
  {
    if e > 0 {
      TenfoldIsOneStep(v, e - 1);
    } else if e < -1 {
      TenfoldIsOneStep(v, e + 1);
    }
  }

  /** Appending n zero digits is the same as raising the exponent by n. */
  lemma {:induction false} ShiftedRational(v: nat, n: nat, e: int)
    ensures Rational(v * Pow10(n), e) == Rational(v, e + n)
  {
    if n > 0 {
      Regroup(v, Pow10(n - 1), 0);
      TenfoldIsOneStep(v * Pow10(n - 1), e);
      ShiftedRational(v, n - 1, e + 1);
    }
  }

  lemma ShiftedDigits(d: string, n: nat, e: int)
    requires AllDigits(d)
    ensures AllDigits(d + Zeros(n)) && Rational(NatValue(d + Zeros(n)), e) == Rational(NatValue(d), e + n)
  {
    NatValueShifted(d, n);
    ShiftedRational(NatValue(d), n, e);
  }

  lemma {:induction false} SameExponent(x: nat, y: nat, e: int)
    requires Rational(x, e) == Rational(y, e)
    ensures x == y
    decreases if e < 0 then -e else e
  {
    if e > 0 {
      SameExponent(x, y, e - 1);
    } else if e < 0 {
      SameExponent(x, y, e + 1);
    }
  }

  lemma {:induction false} RationalSign(v: nat, e: int)
    ensures Rational(v, e) >= 0.0 && (Rational(v, e) == 0.0 <==> v == 0)
    decreases if e < 0 then -e else e
  {
    if e > 0 {
      RationalSign(v, e - 1);
    } else if e < 0 {
      RationalSign(v, e + 1);
    }
  }

  /** A nonzero decimal has one normal form: no leading or trailing zero digit. */
  lemma NormalFormIsUnique(a: string, ea: int, b: string, eb: int)
    requires Significant(a) && Significant(b)
    requires Rational(NatValue(a), ea) == Rational(NatValue(b), eb)
    ensures a == b && ea == eb
  {
    if ea <= eb {
      OrderedNormalForms(a, ea, b, eb);
    } else {
      OrderedNormalForms(b, eb, a, ea);
    }
  }

  predicate Significant(d: string) {
    AllDigits(d) && d != "" && d[0] != '0' && d[|d| - 1] != '0'
  }

  lemma OrderedNormalForms(a: string, ea: int, b: string, eb: int)
    requires Significant(a) && Significant(b) && ea <= eb
    requires Rational(NatValue(a), ea) == Rational(NatValue(b), eb)
    ensures a == b && ea == eb
  {
    ShiftedRational(NatValue(b), eb - ea, ea);
    SameExponent(NatValue(a), NatValue(b) * Pow10(eb - ea), ea);
    SameScale(a, b, eb - ea);
  }

  lemma SameScale(a: string, b: string, n: nat)
    requires Significant(a) && Significant(b)
    requires NatValue(a) == NatValue(b) * Pow10(n)
    ensures n == 0 && a == b
  {
    if n > 0 {
      Regroup(NatValue(b), Pow10(n - 1), 0);
      LastDigit(a, NatValue(b) * Pow10(n - 1));
    }
    DigitsAreUnique(a, b);
  }

  lemma LastDigit(a: string, q: nat)
    requires AllDigits(a) && a != "" && NatValue(a) == 10 * q
    ensures a[|a| - 1] == '0'
  {
    assert NatValue(a) == 10 * NatValue(a[..|a| - 1]) + DigitValue(a[|a| - 1]);
  }
}
