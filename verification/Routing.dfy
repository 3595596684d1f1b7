/**
 Route selection: the channels of a recipient domain, or of the wildcard, without
 blanks or repeats, in policy order, cut at the attempt limit.
 */
module Routing {
  import opened Wrappers

  const WILDCARD := "*"

  type RoutePolicy = map<string, seq<string>>

  datatype Selection = Selection(recipientDomain: string, channels: seq<string>)

  /** The distinct nonblank channels, each at its first use. */
  function FirstUses(channels: seq<string>): seq<string> {
    if channels == [] then [] else
      var rest, last := FirstUses(channels[..|channels| - 1]), channels[|channels| - 1];
      if last == "" || last in rest then rest else rest + [last]
  }

  function Candidates(channels: seq<string>, limit: int): seq<string> {
    if limit <= 0 then []
    else if |FirstUses(channels)| <= limit then FirstUses(channels)
    else FirstUses(channels)[..limit]
  }

  /** recipientDomain is the domain of a valid single address, or None for any other text. */
  function SelectRoute(policy: RoutePolicy, recipientDomain: Option<string>, maxAttempts: int): Option<Selection> {
    if recipientDomain.None? then None else
      var key := if recipientDomain.value in policy then recipientDomain.value else WILDCARD;
      if key !in policy then None else
        var channels := Candidates(policy[key], maxAttempts);
        if channels == [] then None else Some(Selection(recipientDomain.value, channels))
  }

  ghost predicate Distinct(s: seq<string>) {
    forall i, j :: 0 <= i < j < |s| ==> s[i] != s[j]
  }

  /** x is used at index i of s and nowhere before. */
  ghost predicate FirstAt(s: seq<string>, x: string, i: nat) {
    i < |s| && s[i] == x && x !in s[..i]
  }

  lemma {:induction false} FirstUsesAreDistinct(channels: seq<string>)
    ensures var r := FirstUses(channels); Distinct(r) && forall x :: x in r <==> x in channels && x != ""
  {
    if channels != [] {
      var n := |channels| - 1;
      FirstUsesAreDistinct(channels[..n]);
      assert channels == channels[..n] + [channels[n]];
    }
  }

  /** The order of first uses is the order of the policy. */
  lemma {:induction false} FirstUsesKeepOrder(channels: seq<string>, i: nat, j: nat, a: nat, b: nat)
    requires i < j < |FirstUses(channels)|
    requires FirstAt(channels, FirstUses(channels)[i], a) && FirstAt(channels, FirstUses(channels)[j], b)
    ensures a < b
  {
    var n := |channels| - 1;
    var rest := FirstUses(channels[..n]);
    FirstUsesAreDistinct(channels[..n]);
    assert channels == channels[..n] + [channels[n]];
    var x := FirstUses(channels)[i];
    assert x == rest[i] && x in rest && x in channels[..n];
    FirstIsInside(channels, x, n, a);
    if j < |rest| {
      var y := rest[j];
      assert y in rest && y in channels[..n];
      FirstIsInside(channels, y, n, b);
      FirstUsesKeepOrder(channels[..n], i, j, a, b);
    } else {
      assert channels[n] !in channels[..n];
    }
  }

  lemma FirstIsInside(s: seq<string>, x: string, n: nat, i: nat)
    requires n <= |s| && x in s[..n] && FirstAt(s, x, i)
    ensures i < n && FirstAt(s[..n], x, i)
  {
    var k :| 0 <= k < n && s[..n][k] == x;
    forall m | 0 <= m < i
      ensures s[m] != x
    {
      assert s[..i][m] == s[m];
    }
    assert s[k] == x;
    assert s[..n][..i] == s[..i];
  }

  function Nonblank(s: seq<string>): set<string> {
    set x | x in s && x != ""
  }

  /** Fewer than limit other channels are used before the first use of this one. */
  ghost predicate ComesInTime(channels: seq<string>, c: string, limit: int) {
    c != "" && exists i: nat :: FirstAt(channels, c, i) && |Nonblank(channels[..i])| < limit
  }

  /** There are as many first uses as distinct nonblank channels. */
  lemma {:induction false} CountFirstUses(channels: seq<string>)
    ensures |FirstUses(channels)| == |Nonblank(channels)|
  {
    if channels != [] {
      var n := |channels| - 1;
      CountFirstUses(channels[..n]);
      FirstUsesAreDistinct(channels[..n]);
      var last, before := channels[n], Nonblank(channels[..n]);
      assert channels == channels[..n] + [last];
      if last == "" || last in FirstUses(channels[..n]) {
        assert Nonblank(channels) == before;
      } else {
        assert last !in before;
        assert Nonblank(channels) == before + {last};
      }
    }
  }

  lemma PlaceOfFirstUse(channels: seq<string>, c: string, i: nat)
    requires c != "" && FirstAt(channels, c, i)
    ensures var k := |Nonblank(channels[..i])|; k < |FirstUses(channels)| && FirstUses(channels)[k] == c
  {
    var before := channels[..i];
    assert channels[..i + 1][..i] == before;
    CountFirstUses(before);
    FirstUsesAreDistinct(before);
    assert FirstUses(channels[..i + 1]) == FirstUses(before) + [c];
    FirstUsesOfPrefix(channels, i + 1);
  }

  lemma {:induction false} FirstUseExists(channels: seq<string>, c: string) returns (i: nat)
    requires c in channels
    ensures FirstAt(channels, c, i)
  {
    var n := |channels| - 1;
    assert channels == channels[..n] + [channels[n]];
    if c in channels[..n] {
      i := FirstUseExists(channels[..n], c);
      assert channels[..n][..i] == channels[..i];
    } else {
      i := n;
    }
  }

  /** A channel is selected exactly when fewer than limit distinct channels come before it. */
  lemma CandidatesComeInTime(channels: seq<string>, limit: int, c: string)
    ensures c in Candidates(channels, limit) <==> ComesInTime(channels, c, limit)
    ensures |Candidates(channels, limit)| == if limit <= 0 then 0 else if |Nonblank(channels)| < limit
                                             then |Nonblank(channels)| else limit
  {
    CountFirstUses(channels);
    FirstUsesAreDistinct(channels);
    var uses := FirstUses(channels);
    if c in Candidates(channels, limit) {
      var k :| 0 <= k < |Candidates(channels, limit)| && Candidates(channels, limit)[k] == c;
      assert uses[k] == c && c in uses;
      var i := FirstUseExists(channels, c);
      PlaceOfFirstUse(channels, c, i);
    }
    if ComesInTime(channels, c, limit) {
      var i: nat :| FirstAt(channels, c, i) && |Nonblank(channels[..i])| < limit;
      PlaceOfFirstUse(channels, c, i);
      assert c == Candidates(channels, limit)[|Nonblank(channels[..i])|];
    }
  }

  /** What a selection guarantees: a nonempty, duplicate-free choice from one policy entry within the limit. */
  lemma SelectionIsSound(policy: RoutePolicy, recipientDomain: Option<string>, maxAttempts: int)
    requires SelectRoute(policy, recipientDomain, maxAttempts).Some?
    ensures var r := SelectRoute(policy, recipientDomain, maxAttempts).value;
            var key := if recipientDomain.value in policy then recipientDomain.value else "*";
            && r.recipientDomain == recipientDomain.value && key in policy
            && 0 < |r.channels| <= maxAttempts
            && Distinct(r.channels)
            && (forall c :: c in r.channels ==> c in policy[key] && c != "")
            && r.channels <= FirstUses(policy[key])
            && forall c :: c in r.channels <==> ComesInTime(policy[key], c, maxAttempts)
  {
    var r := SelectRoute(policy, recipientDomain, maxAttempts).value;
    var key := if recipientDomain.value in policy then recipientDomain.value else WILDCARD;
    FirstUsesAreDistinct(policy[key]);
    assert forall c :: c in r.channels ==> c in FirstUses(policy[key]);
    forall c
      ensures c in r.channels <==> ComesInTime(policy[key], c, maxAttempts)
    {
      CandidatesComeInTime(policy[key], maxAttempts, c);
    }
  }

  /** Selection fails exactly for an invalid recipient, a missing route, or a route without usable entries. */
  lemma SelectionFailsIff(policy: RoutePolicy, recipientDomain: Option<string>, maxAttempts: int)
    ensures SelectRoute(policy, recipientDomain, maxAttempts).None? <==>
            || recipientDomain.None?
            || maxAttempts <= 0
            || (var key := if recipientDomain.value in policy then recipientDomain.value else "*";
                key !in policy || forall c :: c in policy[key] ==> c == "")
  {
    if recipientDomain.Some? {
      var key := if recipientDomain.value in policy then recipientDomain.value else WILDCARD;
      if key in policy {
        var uses := FirstUses(policy[key]);
        FirstUsesAreDistinct(policy[key]);
        if uses != [] {
          assert uses[0] in uses;
        }
      }
    }
  }

  method UniqueAndTruncateChannels(channels: seq<string>, maxAttempts: int) returns (result: seq<string>)
    ensures result == Candidates(channels, maxAttempts)
  {
    if maxAttempts <= 0 {
      return [];
    }
    var seen: set<string> := {};
    result := [];
    var i := 0;
    while i < |channels|
      invariant 0 <= i <= |channels|
      invariant result == FirstUses(channels[..i]) && |result| < maxAttempts
      invariant forall x :: x in seen <==> x in result
    {
      var channel := channels[i];
      i := i + 1;
      assert channels[..i][..i - 1] == channels[..i - 1];
      if channel == "" || channel in seen {
        continue;
      }
      seen := seen + {channel};
      result := result + [channel];
      if |result| == maxAttempts {
        FirstUsesOfPrefix(channels, i);
        return;
      }
    }
    assert channels[..i] == channels;
  }

  lemma {:induction false} FirstUsesOfPrefix(channels: seq<string>, i: nat)
    requires i <= |channels|
    ensures FirstUses(channels[..i]) <= FirstUses(channels)
    decreases |channels| - i
  {
    if i < |channels| {
      FirstUsesOfPrefix(channels, i + 1);
      assert channels[..i + 1][..i] == channels[..i];
    } else {
      assert channels[..i] == channels;
    }
  }
}
