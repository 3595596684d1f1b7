/**
 The number grammar of RFC 8259, section 6, as a machine that reads one character at a
 time, and its agreement with the grammar by parts.
 */
module NumberGrammar {
  import opened Wrappers
  import opened Decimal
  import opened JsonNumber

  datatype Place = Begin | Minus | Zero | Int | Point | Frac | Mark | Sign | Exp | Bad

  function Read(q: Place, c: char): Place {
    match q
    case Begin => if c == '-' then Minus else if c == '0' then Zero else if '1' <= c <= '9' then Int else Bad
    case Minus => if c == '0' then Zero else if '1' <= c <= '9' then Int else Bad
    case Zero => if c == '.' then Point else if c == 'e' || c == 'E' then Mark else Bad
    case Int => if '0' <= c <= '9' then Int else if c == '.' then Point else if c == 'e' || c == 'E' then Mark else Bad
    case Point => if '0' <= c <= '9' then Frac else Bad
    case Frac => if '0' <= c <= '9' then Frac else if c == 'e' || c == 'E' then Mark else Bad
    case Mark => if c == '+' || c == '-' then Sign else if '0' <= c <= '9' then Exp else Bad
    case Sign => if '0' <= c <= '9' then Exp else Bad
    case Exp => if '0' <= c <= '9' then Exp else Bad
    case Bad => Bad
  }

  function After(q: Place, s: string): Place {
    if s == "" then q else Read(After(q, s[..|s| - 1]), s[|s| - 1])
  }

  predicate Complete(q: Place) {
    q == Zero || q == Int || q == Frac || q == Exp
  }

  lemma {:induction false} AfterConcat(q: Place, a: string, b: string)
    ensures After(q, a + b) == After(After(q, a), b)
  {
    if b == "" {
      assert a + b == a;
    } else {
      AfterConcat(q, a, b[..|b| - 1]);
      assert (a + b)[..|a + b| - 1] == a + b[..|b| - 1];
    }
  }

  lemma AfterOne(q: Place, c: char)
    ensures After(q, [c]) == Read(q, c)
  {
    assert [c][..0] == "";
  }

  /** A run of digits stays where digits may follow. */
  lemma {:induction false} AfterDigits(q: Place, d: string)
    requires AllDigits(d) && (q == Int || q == Frac || q == Exp)
    ensures After(q, d) == q
  {
    if d != "" {
      AfterDigits(q, d[..|d| - 1]);
    }
  }

  lemma FirstThenDigits(q: Place, d: string, next: Place)
    requires AllDigits(d) && d != "" && Read(q, d[0]) == next && (next == Int || next == Frac || next == Exp)
    ensures After(q, d) == next
  {
    assert d == [d[0]] + d[1..];
    AfterConcat(q, [d[0]], d[1..]);
    AfterOne(q, d[0]);
    AfterDigits(next, d[1..]);
  }

  lemma AfterInteger(minus: bool, integer: string)
    requires WellFormedInteger(integer)
    ensures After(Begin, MinusText(minus) + integer) == if integer == "0" then Zero else Int
  {
    var q := if minus then Minus else Begin;
    AfterConcat(Begin, MinusText(minus), integer);
    AfterOne(Begin, '-');
    if integer == "0" {
      AfterOne(q, '0');
    } else {
      FirstThenDigits(q, integer, Int);
    }
  }

  lemma AfterFraction(q: Place, f: Option<string>)
    requires WellFormedFraction(f) && (q == Zero || q == Int)
    ensures After(q, FractionText(f)) == if f.Some? then Frac else q
  {
    if f.Some? {
      AfterConcat(q, ".", f.value);
      AfterOne(q, '.');
      FirstThenDigits(Point, f.value, Frac);
    }
  }

  lemma AfterExponent(q: Place, e: Option<Exponent>)
    requires WellFormedExponent(e) && (q == Zero || q == Int || q == Frac)
    ensures After(q, ExponentText(e)) == if e.Some? then Exp else q
  {
    if e.Some? {
      var Exponent(marker, sign, digits) := e.value;
      AfterConcat(q, [marker], sign + digits);
      AfterConcat(Mark, sign, digits);
      AfterOne(q, marker);
      if sign != "" {
        AfterOne(Mark, sign[0]);
        assert sign == [sign[0]];
        FirstThenDigits(Sign, digits, Exp);
      } else {
        FirstThenDigits(Mark, digits, Exp);
      }
    }
  }

  /** A spelling up to its exponent. */
  function Head(n: Number): string {
    MinusText(n.minus) + n.integer + FractionText(n.fraction)
  }

  lemma TextHasHead(n: Number)
    ensures Text(n) == Head(n) + ExponentText(n.exponent)
  {
    var i, f, e := n.integer, FractionText(n.fraction), ExponentText(n.exponent);
    var m := MinusText(n.minus);
    hide FractionText, ExponentText, MinusText;
    assert m + (i + (f + e)) == m + i + f + e;
  }

  lemma SpellingsAreRead(n: Number)
    requires WellFormed(n)
    ensures Complete(After(Begin, Text(n)))
  {
    hide After, Text, FractionText, ExponentText, MinusText, WellFormedInteger, WellFormedFraction, WellFormedExponent;
    TextHasHead(n);
    var integer := MinusText(n.minus) + n.integer;
    AfterConcat(Begin, Head(n), ExponentText(n.exponent));
    AfterConcat(Begin, integer, FractionText(n.fraction));
    AfterInteger(n.minus, n.integer);
    AfterFraction(After(Begin, integer), n.fraction);
    AfterExponent(After(Begin, Head(n)), n.exponent);
  }

  // ---------- what has been read so far ----------

  /** A spelling without fraction and exponent, without exponent, or with both as given. */
  ghost predicate Spells(s: string, n: Number) {
    WellFormed(n) && Text(n) == s
  }

  /** What stands before a place: a number so far, or a number and the marks after it. */
  ghost predicate Before(q: Place, s: string) {
    match q
    case Begin => s == ""
    case Minus => s == "-"
    case Zero => exists n :: Spells(s, n) && n.integer == "0" && n.fraction.None? && n.exponent.None?
    case Int => exists n :: Spells(s, n) && n.integer != "0" && n.fraction.None? && n.exponent.None?
    case Point => exists n :: Spells(s[..Last(s)], n) && n.fraction.None? && n.exponent.None? && s == s[..Last(s)] + "."
    case Frac => exists n :: Spells(s, n) && n.fraction.Some? && n.exponent.None?
    case Mark => Marked(s)
    case Sign => s != "" && Marked(s[..|s| - 1]) && (s[|s| - 1] == '+' || s[|s| - 1] == '-')
    case Exp => exists n :: Spells(s, n) && n.exponent.Some?
    case Bad => true
  }

  function Last(s: string): nat {
    if s == "" then 0 else |s| - 1
  }

  ghost predicate Marked(s: string) {
    && s != "" && (s[|s| - 1] == 'e' || s[|s| - 1] == 'E')
    && exists n :: Spells(s[..|s| - 1], n) && n.exponent.None?
  }

  lemma IntegerStep(s: string, c: char, q: Place)
    requires Before(q, s) && (q == Begin || q == Minus) && IsDigit(c)
    ensures Before(Read(q, c), s + [c])
  {
    var n := Number(q == Minus, [c], None, None);
    assert Text(n) == s + [c];
    assert Spells(s + [c], n);
  }

  lemma MoreInteger(s: string, c: char)
    requires Before(Int, s) && IsDigit(c)
    ensures Before(Int, s + [c])
  {
    var n :| Spells(s, n) && n.integer != "0" && n.fraction.None? && n.exponent.None?;
    var m := n.(integer := n.integer + [c]);
    assert Text(n) == MinusText(n.minus) + n.integer && Text(m) == MinusText(n.minus) + (n.integer + [c]);
    assert Spells(s + [c], m);
  }

  lemma FirstFraction(s: string, c: char)
    requires Before(Point, s) && IsDigit(c)
    ensures Before(Frac, s + [c])
  {
    var n :| Spells(s[..Last(s)], n) && n.fraction.None? && n.exponent.None? && s == s[..Last(s)] + ".";
    FractionGrows(s[..Last(s)], n, c);
    assert s + [c] == s[..Last(s)] + ("." + [c]);
  }

  lemma FractionGrows(s: string, n: Number, c: char)
    requires Spells(s, n) && n.fraction.None? && n.exponent.None? && IsDigit(c)
    ensures Spells(s + ("." + [c]), n.(fraction := Some([c])))
  {
    var m := n.(fraction := Some([c]));
    TextHasHead(n);
    TextHasHead(m);
    assert FractionText(m.fraction) == "." + [c];
    assert Head(n) == MinusText(n.minus) + n.integer;
    hide Text, MinusText;
  }

  lemma MoreFraction(s: string, c: char)
    requires Before(Frac, s) && IsDigit(c)
    ensures Before(Frac, s + [c])
  {
    var n :| Spells(s, n) && n.fraction.Some? && n.exponent.None?;
    var m := n.(fraction := Some(n.fraction.value + [c]));
    assert Text(n) == MinusText(n.minus) + n.integer + ("." + n.fraction.value);
    assert Text(m) == MinusText(n.minus) + n.integer + ("." + (n.fraction.value + [c]));
    assert Spells(s + [c], m);
  }

  /** The exponent begins: marker, optional sign, first digit. */
  lemma FirstExponent(t: string, marker: char, sign: string, c: char, n: Number)
    requires Spells(t, n) && n.exponent.None? && (marker == 'e' || marker == 'E') && IsDigit(c)
    requires sign == "" || sign == "+" || sign == "-"
    ensures Before(Exp, t + [marker] + sign + [c])
  {
    var m := n.(exponent := Some(Exponent(marker, sign, [c])));
    TextHasHead(n);
    TextHasHead(m);
    hide Text, Head;
    assert t == Head(n) == Head(m) by {
      SameHead(n, m);
    }
    assert Text(m) == t + [marker] + sign + [c];
    assert Spells(t + [marker] + sign + [c], m);
  }

  lemma SameHead(n: Number, m: Number)
    requires m == n.(exponent := m.exponent)
    ensures Head(n) == Head(m)
  {
  }

  lemma MoreExponent(s: string, c: char)
    requires Before(Exp, s) && IsDigit(c)
    ensures Before(Exp, s + [c])
  {
    var n :| Spells(s, n) && n.exponent.Some?;
    var Exponent(marker, sign, digits) := n.exponent.value;
    var m := n.(exponent := Some(Exponent(marker, sign, digits + [c])));
    TextHasHead(n);
    TextHasHead(m);
    SameHead(n, m);
    hide Text, Head;
    assert Text(m) == Text(n) + [c];
    assert Spells(s + [c], m);
  }

  lemma MarkStep(s: string, c: char, q: Place)
    requires Before(q, s) && (q == Zero || q == Int || q == Frac) && (c == 'e' || c == 'E')
    ensures Before(Mark, s + [c])
  {
    assert (s + [c])[..|s|] == s;
    var n :| Spells(s, n) && n.exponent.None?;
  }

  lemma PointStep(s: string, q: Place)
    requires Before(q, s) && (q == Zero || q == Int)
    ensures Before(Point, s + ".")
  {
    assert (s + ".")[..|s|] == s;
    var n :| Spells(s, n) && n.fraction.None? && n.exponent.None?;
  }

  lemma MarkedStep(marked: string, sign: string, c: char)
    requires Marked(marked) && (sign == "" || sign == "+" || sign == "-") && IsDigit(c)
    ensures Before(Exp, marked + sign + [c])
  {
    hide Before, Spells;
    var t, marker := marked[..|marked| - 1], marked[|marked| - 1];
    var n :| Spells(t, n) && n.exponent.None?;
    assert marked == t + [marker];
    FirstExponent(t, marker, sign, c, n);
  }

  lemma MarkThenDigit(s: string, c: char)
    requires Before(Mark, s) && IsDigit(c)
    ensures Before(Exp, s + [c])
  {
    MarkedStep(s, "", c);
    assert s + "" + [c] == s + [c];
  }

  lemma SignThenDigit(s: string, c: char)
    requires Before(Sign, s) && IsDigit(c)
    ensures Before(Exp, s + [c])
  {
    hide Marked;
    var marked, sign := s[..|s| - 1], [s[|s| - 1]];
    MarkedStep(marked, sign, c);
    assert s == marked + sign;
  }

  lemma SignStep(s: string, c: char)
    requires Before(Mark, s) && (c == '+' || c == '-')
    ensures Before(Sign, s + [c])
  {
    assert (s + [c])[..|s|] == s;
  }

  lemma ReadKeepsBefore(s: string, c: char, q: Place)
    requires Before(q, s)
    ensures Before(Read(q, c), s + [c])
  {
    hide Before;
    var next := Read(q, c);
    if next == Bad {
      AnythingBeforeBad(s + [c]);
    } else if q == Begin || q == Minus {
      if c == '-' { MinusStep(s); } else { IntegerStep(s, c, q); }
    } else if next == Point {
      PointStep(s, q);
    } else if next == Mark {
      MarkStep(s, c, q);
    } else if q == Int {
      MoreInteger(s, c);
    } else if q == Point {
      FirstFraction(s, c);
    } else if q == Frac {
      MoreFraction(s, c);
    } else if next == Sign {
      SignStep(s, c);
    } else if q == Exp {
      MoreExponent(s, c);
    } else if q == Mark {
      MarkThenDigit(s, c);
    } else {
      SignThenDigit(s, c);
    }
  }

  lemma AnythingBeforeBad(s: string)
    ensures Before(Bad, s)
  {
  }

  lemma MinusStep(s: string)
    requires Before(Begin, s)
    ensures Before(Minus, s + "-")
  {
  }

  lemma {:induction false} PlaceTells(s: string)
    ensures Before(After(Begin, s), s)
  {
    if s != "" {
      PlaceTells(s[..|s| - 1]);
      ReadKeepsBefore(s[..|s| - 1], s[|s| - 1], After(Begin, s[..|s| - 1]));
      assert s == s[..|s| - 1] + [s[|s| - 1]];
    }
  }

  /** The machine accepts exactly the grammar. */
  lemma MachineAcceptsTheGrammar(s: string)
    ensures Complete(After(Begin, s)) <==> IsJsonNumber(s)
  {
    PlaceTells(s);
    if IsJsonNumber(s) {
      var n :| WellFormed(n) && Text(n) == s;
      SpellingsAreRead(n);
    }
    if Complete(After(Begin, s)) {
      var n :| Spells(s, n);
    }
  }
}
