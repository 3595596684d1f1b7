/**
 The byte order of strings that Go's `<` and sort.Strings use, and the one ascending
 arrangement of a set of strings. Code points compare as their UTF-8 bytes do.
 */
module TextOrder {

  predicate Less(a: string, b: string) {
    b != "" && (a == "" || a[0] < b[0] || (a[0] == b[0] && Less(a[1..], b[1..])))
  }

  lemma {:induction false} LessIsAsymmetric(a: string, b: string)
    requires Less(a, b)
    ensures a != b && !Less(b, a)
  {
    if a != "" && a[0] == b[0] {
      LessIsAsymmetric(a[1..], b[1..]);
    }
  }

  lemma {:induction false} LessIsTotal(a: string, b: string)
    ensures Less(a, b) || a == b || Less(b, a)
  {
    if a != "" && b != "" && a[0] == b[0] {
      LessIsTotal(a[1..], b[1..]);
      assert a == [a[0]] + a[1..] && b == [b[0]] + b[1..];
    }
  }

  lemma {:induction false} LessIsTransitive(a: string, b: string, c: string)
    requires Less(a, b) && Less(b, c)
    ensures Less(a, c)
  {
    if a != "" && a[0] == b[0] == c[0] {
      LessIsTransitive(a[1..], b[1..], c[1..]);
    }
  }

  /** The first difference stands at this position, or the first string ends there. */
  predicate LessAt(a: string, b: string, i: nat) {
    i <= |a| && i < |b| && a[..i] == b[..i] && (i < |a| ==> a[i] < b[i])
  }

  lemma {:induction false} LessHasPlace(a: string, b: string)
    ensures Less(a, b) <==> exists i: nat :: LessAt(a, b, i)
  {
    if a != "" && b != "" && a[0] == b[0] {
      LessHasPlace(a[1..], b[1..]);
      forall i: nat | 0 < i
        ensures LessAt(a, b, i) <==> LessAt(a[1..], b[1..], i - 1)
      {
        Shifted(a, b, i);
      }
      if i: nat :| LessAt(a[1..], b[1..], i) {
        assert LessAt(a, b, i + 1);
      }
    } else {
      assert forall i: nat :: LessAt(a, b, i) && i > 0 ==> a[..i][0] == b[..i][0];
      assert Less(a, b) ==> LessAt(a, b, 0);
    }
  }

  /** The order is decided by the first difference; a proper prefix comes first. */
  lemma LessAtFirstDifference(a: string, b: string)
    ensures Less(a, b) <==>
            exists i :: 0 <= i <= |a| && i < |b| && a[..i] == b[..i] && (i < |a| ==> a[i] < b[i])
  {
    LessHasPlace(a, b);
    hide Less;
    if i: nat :| LessAt(a, b, i) {
      assert a[..i] == b[..i];
    }
    assert forall i: nat :: i <= |a| && i < |b| && a[..i] == b[..i] && (i < |a| ==> a[i] < b[i]) ==> LessAt(a, b, i);
  }

  lemma Shifted(a: string, b: string, i: nat)
    requires a != "" && b != "" && a[0] == b[0] && i > 0
    ensures LessAt(a, b, i) <==> LessAt(a[1..], b[1..], i - 1)
  {
    if i <= |a| && i < |b| {
      assert a[..i] == [a[0]] + a[1..][..i - 1] && b[..i] == [b[0]] + b[1..][..i - 1];
      assert a[1..][..i - 1] == a[..i][1..] && b[1..][..i - 1] == b[..i][1..];
    }
  }

  ghost predicate Ascending(s: seq<string>) {
    forall i, j :: 0 <= i < j < |s| ==> Less(s[i], s[j])
  }

  ghost predicate Lists(s: seq<string>, keys: set<string>) {
    forall k :: k in s <==> k in keys
  }

  /** A set of strings has at most one ascending listing. */
  lemma {:induction false} AscendingIsUnique(a: seq<string>, b: seq<string>, keys: set<string>)
    requires Ascending(a) && Ascending(b) && Lists(a, keys) && Lists(b, keys)
    ensures a == b
    decreases |a|
  {
    assert a != [] ==> a[0] in keys;
    assert b != [] ==> b[0] in keys;
    if a != [] && b != [] {
      SameHead(a, b, keys);
      TailLists(a, keys);
      TailLists(b, keys);
      AscendingIsUnique(a[1..], b[1..], keys - {a[0]});
      assert a == [a[0]] + a[1..] && b == [b[0]] + b[1..];
    }
  }

  lemma SameHead(a: seq<string>, b: seq<string>, keys: set<string>)
    requires Ascending(a) && Ascending(b) && Lists(a, keys) && Lists(b, keys) && a != [] && b != []
    ensures a[0] == b[0]
  {
    assert a[0] in b && b[0] in a;
    var i :| 0 <= i < |b| && b[i] == a[0];
    var j :| 0 <= j < |a| && a[j] == b[0];
    if i > 0 && j > 0 {
      LessIsAsymmetric(a[0], a[j]);
    }
  }

  lemma TailLists(a: seq<string>, keys: set<string>)
    requires Ascending(a) && Lists(a, keys) && a != []
    ensures Ascending(a[1..]) && Lists(a[1..], keys - {a[0]})
  {
    assert a == [a[0]] + a[1..];
    assert forall k :: k in a <==> k == a[0] || k in a[1..];
    forall i | 0 < i < |a|
      ensures a[i] != a[0]
    {
      LessIsAsymmetric(a[0], a[i]);
    }
  }

  /** Inserts a key at its place in an ascending list. */
  method Insert(s: seq<string>, key: string) returns (r: seq<string>)
    requires Ascending(s) && key !in s
    ensures Ascending(r) && forall k :: k in r <==> k in s || k == key
  {
    hide Less;
    var i := |s|;
    while i > 0 && Less(key, s[i - 1])
      invariant 0 <= i <= |s|
      invariant forall j :: i <= j < |s| ==> Less(key, s[j])
    {
      i := i - 1;
    }
    forall j | 0 <= j < i
      ensures Less(s[j], key)
    {
      LessIsTotal(s[i - 1], key);
      if j < i - 1 {
        LessIsTransitive(s[j], s[i - 1], key);
      }
    }
    r := s[..i] + [key] + s[i..];
    assert s == s[..i] + s[i..];
  }

  /** Collects the keys of a map in any order and sorts them. */
  method SortedKeys(keys: set<string>) returns (r: seq<string>)
    ensures Ascending(r) && Lists(r, keys)
  {
    r := [];
    var rest := keys;
    while rest != {}
      invariant rest <= keys && Ascending(r) && Lists(r, keys - rest)
      decreases rest
    {
      var k :| k in rest;
      r := Insert(r, k);
      rest := rest - {k};
    }
  }

  lemma {:induction false} ArrangementExists(keys: set<string>)
    ensures exists r :: Ascending(r) && Lists(r, keys)
  {
    if keys == {} {
      assert Ascending([]) && Lists([], keys);
    } else {
      LeastExists(keys);
      var k :| IsLeast(k, keys);
      ArrangementExists(keys - {k});
      var rest :| Ascending(rest) && Lists(rest, keys - {k});
      forall i | 0 <= i < |rest|
        ensures Less(k, rest[i])
      {
        assert rest[i] in rest;
      }
      assert Ascending([k] + rest) && Lists([k] + rest, keys);
    }
  }

  ghost predicate IsLeast(k: string, keys: set<string>) {
    k in keys && forall j :: j in keys && j != k ==> Less(k, j)
  }

  lemma {:induction false} LeastExists(keys: set<string>)
    requires keys != {}
    ensures exists k :: IsLeast(k, keys)
  {
    var k :| k in keys;
    if keys == {k} {
      assert IsLeast(k, keys);
    } else {
      LeastExists(keys - {k});
      var m :| IsLeast(m, keys - {k});
      LessIsTotal(k, m);
      if Less(m, k) {
        assert IsLeast(m, keys);
      } else {
        forall j | j in keys && j != k
          ensures Less(k, j)
        {
          if j != m {
            LessIsTransitive(k, m, j);
          }
        }
        assert IsLeast(k, keys);
      }
    }
  }

  /** The ascending listing of a set of strings. */
  ghost function Arrangement(keys: set<string>): (r: seq<string>)
    ensures Ascending(r) && Lists(r, keys)
  {
    ArrangementExists(keys);
    var r :| Ascending(r) && Lists(r, keys);
    r
  }
}
