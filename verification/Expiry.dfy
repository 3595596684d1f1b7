/**
 When an idempotency entry stands, expires or gives way, in plain arithmetic on its
 creation time, and what that means for a resend, over whole interleaved runs.
 */
module Expiry {
  import opened Wrappers
  import opened Domain
  import opened Admission
  import Safety = AdmissionSafety
  import I = Idempotency
  import Q = DelayQueue
  import R = RateLimiter

  // ---------- every drop of a run was due or made room ----------

  /** The state behind the first so many actions. */
  ghost function At(p: Params, clock: int, actions: seq<Action>, n: nat): State
    requires n <= |actions|
  {
    Run(p, clock, actions[..n])
  }

  lemma Advance(p: Params, clock: int, actions: seq<Action>, n: nat)
    requires n < |actions|
    ensures At(p, clock, actions, n + 1) == Apply(p, At(p, clock, actions, n), actions[n])
  {
    assert actions[..n + 1][..n] == actions[..n];
  }

  /** Queued, and its lifetime is over. */
  predicate IsDue(s: State, ttl: nat, k: I.Key) {
    k in s.cache && s.cache[k].status == I.Queued && s.cache[k].createdAt + ttl <= s.clock
  }

  /** At most one entry: a queued one with lifetime left, the oldest of its kind, and only from a full cache. */
  ghost predicate EvictsOldest(p: Params, s: State, expired: set<I.Key>, evicted: set<I.Key>) {
    && |evicted| <= 1
    && (evicted != {} ==> |s.cache.Keys - expired| == p.cacheLimit)
    && (forall k :: k in evicted ==>
          && k in s.cache && s.cache[k].status == I.Queued && s.clock < s.cache[k].createdAt + p.ttl
          && I.NoneOlder(s.cache, k, s.clock, p.ttl))
  }

  /** The event expires exactly the due entries, and evicts at most the oldest of the rest. */
  ghost predicate DropsDue(p: Params, s: State, e: Event) {
    && e.DropEvent?
    && (forall k :: k in e.expired <==> IsDue(s, p.ttl, k))
    && EvictsOldest(p, s, e.expired, e.evicted)
  }

  lemma EvictsOne(entries: I.Entries, limit: nat, ttl: nat, key: I.Key, fingerprint: string, now: int)
    requires |entries| <= limit
    ensures var after := I.ReserveEffect(entries, limit, ttl, key, fingerprint, now).0;
            var live := I.Live(entries, now, ttl);
            && |live.Keys - after.Keys| <= 1
            && (live.Keys - after.Keys != {} ==> |live.Keys| == limit)
  {
    hide I.ReserveEffect, I.InsertsOne, I.HasQueued, I.IsOldestQueued, I.Live;
    var live := I.Live(entries, now, ttl);
    var (after, outcome) := I.ReserveEffect(entries, limit, ttl, key, fingerprint, now);
    I.ReserveKeepsTheRest(entries, limit, ttl, key, fingerprint, now);
    I.ReserveIsAllOrNothing(entries, limit, ttl, key, fingerprint, now);
    assert |live.Keys| == |live|;
    if outcome == I.Reserved && live.Keys - after.Keys != {} {
      EvictsWhenFull(live, after, limit, key, I.Entry("", fingerprint, I.Pending, now));
    }
  }

  lemma EvictedFromLeft(p: Params, s: State, live: set<I.Key>, after: set<I.Key>)
    requires live <= s.cache.Keys && forall k :: k in live ==> !IsDue(s, p.ttl, k)
    requires |live - after| <= 1 && (live - after != {} ==> |live| == p.cacheLimit)
    requires forall k :: k in s.cache && k !in after ==> s.cache[k].status == I.Queued
    requires forall k :: k in s.cache && k !in after && s.clock < s.cache[k].createdAt + p.ttl ==>
                           I.NoneOlder(s.cache, k, s.clock, p.ttl)
    ensures EvictsOldest(p, s, s.cache.Keys - live, live - after)
  {
    hide I.NoneOlder;
    WithoutTheRest(s.cache.Keys, live);
    assert forall k :: k in live - after ==> k in live && k !in after && k in s.cache;
  }

  lemma WithoutTheRest(keys: set<I.Key>, live: set<I.Key>)
    requires live <= keys
    ensures keys - (keys - live) == live
  {
  }

  lemma ReserveDropsDue(p: Params, s: State, id: nat)
    requires |s.cache| <= p.cacheLimit && id in s.clients
    ensures var r := s.clients[id].request;
            var after := I.ReserveEffect(s.cache, p.cacheLimit, p.ttl, r.key, r.fingerprint, s.clock).0;
            DropsDue(p, s, Safety.Dropped(p, s, after))
  {
    hide I.ReserveEffect, I.Live, I.NoneOlder, EvictsOldest;
    var r := s.clients[id].request;
    var after := I.ReserveEffect(s.cache, p.cacheLimit, p.ttl, r.key, r.fingerprint, s.clock).0;
    EvictsOne(s.cache, p.cacheLimit, p.ttl, r.key, r.fingerprint, s.clock);
    I.ReserveLeaves(s.cache, p.cacheLimit, p.ttl, r.key, r.fingerprint, s.clock);
    I.ExpiryIsDue(s.cache, s.clock, p.ttl);
    EvictedFromLeft(p, s, I.Live(s.cache, s.clock, p.ttl).Keys, after.Keys);
  }

  lemma EvictsWhenFull(live: I.Entries, after: I.Entries, limit: nat, key: I.Key, entry: I.Entry)
    requires key !in live && |live| <= limit && I.InsertsOne(live, after, limit, key, entry)
    requires live.Keys - after.Keys != {}
    ensures |live| == limit
  {
    var grown := live[key := entry];
    assert grown.Keys == live.Keys + {key} && |grown.Keys| == |grown| && |live.Keys| == |live|;
  }

  /** Of all actions only a request's reservation drops entries. */
  lemma OnlyReserveDrops(p: Params, s: State, a: Action)
    ensures var t := Apply(p, s, a);
            && s.history <= t.history
            && (forall j :: |s.history| <= j < |t.history| && t.history[j].DropEvent? ==>
                  && j == |s.history| && a.ReserveKey? && a.id in s.clients && s.clients[a.id].stage == Arrived
                  && t.history[j] == Safety.Dropped(p, s, t.cache))
  {
    hide I.ReserveEffect, I.Live, I.CompleteEffect, I.ReleaseEffect, Q.ReserveSlot, Q.CommitSlot, Q.ReturnSlot,
         Q.TakeReady, Q.CloseQueue, R.AllowEffect, R.RollbackEffect, Queued, CommitFailed, Fresh;
  }

  /**
   Every drop in the history of a run was made by one reservation, and what it dropped was due at that
   moment, or was the oldest queued entry of a full cache.
   */
  lemma {:induction false} DropsAreDue(p: Params, clock: int, actions: seq<Action>, j: nat)
    returns (m: nat, id: nat)
    requires j < |Run(p, clock, actions).history| && Run(p, clock, actions).history[j].DropEvent?
    ensures m < |actions| && actions[m] == ReserveKey(id)
    ensures var s := At(p, clock, actions, m);
            && id in s.clients && s.clients[id].stage == Arrived && |s.history| == j
            && DropsDue(p, s, Run(p, clock, actions).history[j])
  {
    hide Apply, DropsDue;
    var n := |actions| - 1;
    if actions != [] {
      var s := Run(p, clock, actions[..n]);
      OnlyReserveDrops(p, s, actions[n]);
      if j < |s.history| {
        m, id := DropsAreDue(p, clock, actions[..n], j);
        assert actions[..n][..m] == actions[..m];
      } else {
        m, id := n, actions[n].id;
        Safety.RunKeepsInv(p, clock, actions[..n]);
        ReserveDropsDue(p, s, id);
        ReserveCache(p, s, id);
      }
    }
  }

  lemma ReserveCache(p: Params, s: State, id: nat)
    requires id in s.clients && s.clients[id].stage == Arrived
    ensures var r := s.clients[id].request;
            Apply(p, s, ReserveKey(id)).cache ==
            I.ReserveEffect(s.cache, p.cacheLimit, p.ttl, r.key, r.fingerprint, s.clock).0
  {
    hide I.ReserveEffect, I.Live;
  }

  // ---------- a resend within the lifetime ----------

  lemma StepCaches(p: Params, s: State, id: nat, at: int, messageId: string)
    requires id in s.clients
    ensures var r := s.clients[id].request;
            && ReserveKeyStep(p, s, id).cache ==
               I.ReserveEffect(s.cache, p.cacheLimit, p.ttl, r.key, r.fingerprint, s.clock).0
            && CompleteStep(s, id, at, messageId).cache == I.CompleteEffect(s.cache, r.key, messageId, s.clock)
            && ReserveSlotStep(p, s, id).cache == s.cache && AllowQuotaStep(s, id).cache == s.cache
            && CommitStep(s, id, at, messageId).cache == s.cache
  {
    hide I.ReserveEffect, I.Live, I.CompleteEffect, Q.ReserveSlot, Q.CommitSlot, R.AllowEffect, Queued;
  }

  /** The cache changes with a reservation, a completion and a release, and with nothing else a request does. */
  lemma CacheAfter(p: Params, s: State, id: nat, a: Action)
    requires id in s.clients
    ensures var r := s.clients[id].request;
            var stage := s.clients[id].stage;
            var cache := ClientStep(p, s, id, a).cache;
            if a.ReserveKey? && stage.Arrived? then
              cache == I.ReserveEffect(s.cache, p.cacheLimit, p.ttl, r.key, r.fingerprint, s.clock).0
            else if a.Complete? && stage.Committed? then
              cache == I.CompleteEffect(s.cache, r.key, stage.messageId, s.clock)
            else if a.ReleaseKey? && stage.UnwindKey? then cache == I.ReleaseEffect(s.cache, r.key)
            else cache == s.cache
  {
    hide ReserveKeyStep, ReserveSlotStep, AllowQuotaStep, CommitStep, CompleteStep, I.ReserveEffect, I.CompleteEffect,
         I.ReleaseEffect, Q.ReturnSlot, R.RollbackEffect, Queued, CommitFailed, Fresh;
    var stage := s.clients[id].stage;
    var known := stage.Logged? || stage.Committed?;
    StepCaches(p, s, id, if known then stage.at else 0, if known then stage.messageId else "");
  }

  /** Only a reservation brings a request a key, and only completing and releasing lose it. */
  lemma ClaimAfter(p: Params, s: State, id: nat, a: Action)
    requires id in s.clients
    ensures var r := s.clients[id].request;
            var stage := s.clients[id].stage;
            var t := ClientStep(p, s, id, a);
            && id in t.clients && t.clients[id].request == r
            && (KeyClaim(t.clients[id].stage) != NoKey ==>
                  if a.ReserveKey? && stage.Arrived? then
                    I.ReserveEffect(s.cache, p.cacheLimit, p.ttl, r.key, r.fingerprint, s.clock).1 == I.Reserved
                  else KeyClaim(stage) != NoKey && !(a.Complete? && stage.Committed?)
                       && !(a.ReleaseKey? && stage.UnwindKey?))
  {
    hide I.ReserveEffect, I.Live, I.CompleteEffect, I.ReleaseEffect, I.IsPending, Q.ReserveSlot, Q.CommitSlot,
         Q.ReturnSlot, R.AllowEffect, R.RollbackEffect, Queued, CommitFailed, Fresh;
  }

  /** A request that holds its key has a pending entry there that carries its fingerprint. */
  predicate Matched(cache: I.Entries, c: Client) {
    KeyClaim(c.stage) != NoKey ==>
      I.IsPending(cache, c.request.key) && cache[c.request.key].fingerprint == c.request.fingerprint
  }

  ghost predicate AllMatched(s: State) {
    forall id :: id in s.clients ==> Matched(s.cache, s.clients[id])
  }

  lemma OwnStepMatches(p: Params, s: State, id: nat, a: Action)
    requires |s.cache| <= p.cacheLimit && id in s.clients && Matched(s.cache, s.clients[id])
    ensures var t := ClientStep(p, s, id, a); id in t.clients && Matched(t.cache, t.clients[id])
  {
    hide ClientStep, I.ReserveEffect, KeyClaim;
    var r := s.clients[id].request;
    CacheAfter(p, s, id, a);
    ClaimAfter(p, s, id, a);
    I.PendingAfterReserve(s.cache, p.cacheLimit, p.ttl, r.key, r.fingerprint, s.clock);
  }

  lemma StepKeepsPending(p: Params, s: State, id: nat, a: Action, k: I.Key)
    requires |s.cache| <= p.cacheLimit && id in s.clients && I.IsPending(s.cache, k)
    requires k != s.clients[id].request.key || KeyClaim(s.clients[id].stage) == NoKey
    ensures var t := ClientStep(p, s, id, a); k in t.cache && t.cache[k] == s.cache[k]
  {
    hide ClientStep, I.ReserveEffect;
    var r := s.clients[id].request;
    CacheAfter(p, s, id, a);
    I.PendingAfterReserve(s.cache, p.cacheLimit, p.ttl, r.key, r.fingerprint, s.clock);
  }

  lemma ClientStepMatches(p: Params, s: State, id: nat, a: Action)
    requires |s.cache| <= p.cacheLimit && KeysPaired(s.cache, s.clients) && AllMatched(s) && id in s.clients
    ensures AllMatched(ClientStep(p, s, id, a))
  {
    hide ClientStep, KeyClaim;
    var t := ClientStep(p, s, id, a);
    OwnStepMatches(p, s, id, a);
    Safety.ClientStepGrowsLog(p, s, id, a);
    forall i | i in t.clients && i != id
      ensures Matched(t.cache, t.clients[i])
    {
      var k := s.clients[i].request.key;
      assert Matched(s.cache, s.clients[i]);
      assert Holds(s.clients, i, k) <==> KeyClaim(s.clients[i].stage) != NoKey;
      if KeyClaim(s.clients[i].stage) != NoKey {
        assert Holds(s.clients, id, k) ==> i == id;
        StepKeepsPending(p, s, id, a, k);
      }
    }
  }

  lemma ActionMatches(p: Params, s: State, a: Action)
    requires |s.cache| <= p.cacheLimit && KeysPaired(s.cache, s.clients) && AllMatched(s)
    ensures AllMatched(Apply(p, s, a))
  {
    hide ClientStep, KeysPaired, Q.TakeReady, Q.ReserveSlot, Q.CommitSlot, Q.CloseQueue;
    match a
    case Tick(_) =>
    case Arrive(id, request) => assert Matched(s.cache, Client(request, Arrived));
    case WorkerTake =>
    case WorkerReserve =>
    case WorkerCommit(_, _) =>
    case Close =>
    case _ =>
      if a.id in s.clients {
        ClientStepMatches(p, s, a.id, a);
      }
  }

  lemma {:induction false} RunMatches(p: Params, clock: int, actions: seq<Action>)
    ensures AllMatched(Run(p, clock, actions))
  {
    hide Apply, AllMatched;
    if actions != [] {
      var s := Run(p, clock, actions[..|actions| - 1]);
      RunMatches(p, clock, actions[..|actions| - 1]);
      Safety.RunKeepsInv(p, clock, actions[..|actions| - 1]);
      ActionMatches(p, s, actions[|actions| - 1]);
    } else {
      NoneMatched(p, clock);
    }
  }

  lemma NoneMatched(p: Params, clock: int)
    ensures AllMatched(Start(clock))
  {
  }

  /** An action that is no reservation changes one request's stage at most, and entries only from pending. */
  lemma OtherStepsKeepEntries(p: Params, s: State, a: Action, k: I.Key)
    requires !(a.ReserveKey? && a.id in s.clients && s.clients[a.id].stage == Arrived)
    requires k in s.cache && s.cache[k].status == I.Queued
    ensures var t := Apply(p, s, a); k in t.cache && t.cache[k] == s.cache[k]
  {
    hide ClientStep, Q.ReserveSlot, Q.CommitSlot, Q.TakeReady, Q.CloseQueue;
    match a
    case Tick(_) =>
    case Arrive(_, _) =>
    case WorkerTake =>
    case WorkerReserve =>
    case WorkerCommit(_, _) =>
    case Close =>
    case _ =>
      if a.id in s.clients {
        CacheAfter(p, s, a.id, a);
      }
  }

  /** A queued entry with lifetime left outlasts every action that does not evict it. */
  lemma EntryOutlasts(p: Params, s: State, a: Action, k: I.Key)
    requires |s.cache| <= p.cacheLimit
    requires k in s.cache && s.cache[k].status == I.Queued && s.clock < s.cache[k].createdAt + p.ttl
    requires var h := Apply(p, s, a).history;
             forall j :: |s.history| <= j < |h| && h[j].DropEvent? ==> k !in h[j].evicted
    ensures var t := Apply(p, s, a); k in t.cache && t.cache[k] == s.cache[k]
  {
    if a.ReserveKey? && a.id in s.clients && s.clients[a.id].stage == Arrived {
      var r := s.clients[a.id].request;
      ReserveCache(p, s, a.id);
      ReserveRecordsDrop(p, s, a.id);
      hide Apply, I.ReserveEffect, I.Live, I.InsertsOne, I.HasQueued, I.NoneOlder;
      I.ExpiryIsDue(s.cache, s.clock, p.ttl);
      I.ReserveKeepsTheRest(s.cache, p.cacheLimit, p.ttl, r.key, r.fingerprint, s.clock);
    } else {
      OtherStepsKeepEntries(p, s, a, k);
    }
  }

  lemma ReserveRecordsDrop(p: Params, s: State, id: nat)
    requires id in s.clients && s.clients[id].stage == Arrived
    ensures var t := Apply(p, s, ReserveKey(id));
            |t.history| > |s.history| && t.history[|s.history|] == Safety.Dropped(p, s, t.cache)
  {
    hide I.ReserveEffect, I.Live;
  }

  lemma ClockNeverTurnsBack(p: Params, s: State, a: Action)
    ensures s.clock <= Apply(p, s, a).clock
  {
    hide I.ReserveEffect, I.Live, I.CompleteEffect, I.ReleaseEffect, Q.ReserveSlot, Q.CommitSlot, Q.ReturnSlot,
         Q.TakeReady, Q.CloseQueue, R.AllowEffect, R.RollbackEffect, Queued, CommitFailed, Fresh;
  }

  /** A request's completion leaves its queued entry, created at that moment. */
  lemma CompletedEntry(p: Params, s: State, id: nat, at: int, messageId: string)
    requires id in s.clients && s.clients[id].stage == Committed(at, messageId) && Matched(s.cache, s.clients[id])
    ensures var t := Apply(p, s, Complete(id));
            var request := s.clients[id].request;
            && request.key in t.cache
            && t.cache[request.key] == I.Entry(messageId, request.fingerprint, I.Queued, s.clock)
            && t.history == s.history && t.clock == s.clock
  {
  }

  /** A completed request's entry stands until its lifetime ends, unless it is evicted. */
  lemma {:induction false} CompletedEntryStands(p: Params, clock: int, actions: seq<Action>, k: nat, id: nat,
                                                at: int, messageId: string)
    requires k < |actions| && actions[k] == Complete(id)
    requires id in At(p, clock, actions, k).clients
             && At(p, clock, actions, k).clients[id].stage == Committed(at, messageId)
    requires Run(p, clock, actions).clock < At(p, clock, actions, k).clock + p.ttl
    requires var h := Run(p, clock, actions).history;
             forall j :: |At(p, clock, actions, k).history| <= j < |h| && h[j].DropEvent? ==>
                           At(p, clock, actions, k).clients[id].request.key !in h[j].evicted
    ensures var s, t := At(p, clock, actions, k), Run(p, clock, actions);
            var request := s.clients[id].request;
            && request.key in t.cache
            && t.cache[request.key] == I.Entry(messageId, request.fingerprint, I.Queued, s.clock)
            && s.history <= t.history
  {
    hide Apply, Matched, AllMatched;
    var n := |actions| - 1;
    var s, t := Run(p, clock, actions[..n]), Run(p, clock, actions);
    var c := At(p, clock, actions, k).clients[id];
    OnlyReserveDrops(p, s, actions[n]);
    if k == n {
      RunMatches(p, clock, actions[..n]);
      MatchedOf(s, id);
      CompletedEntry(p, s, id, at, messageId);
    } else {
      assert actions[..n][..k] == actions[..k] && actions[..n][k] == actions[k];
      ClockNeverTurnsBack(p, s, actions[n]);
      CompletedEntryStands(p, clock, actions[..n], k, id, at, messageId);
      Safety.RunKeepsInv(p, clock, actions[..n]);
      EntryOutlasts(p, s, actions[n], c.request.key);
    }
  }

  lemma MatchedOf(s: State, id: nat)
    requires AllMatched(s) && id in s.clients
    ensures Matched(s.cache, s.clients[id])
  {
  }

  /**
   Over any run: a request with the key and fingerprint of a completed one, made before the lifetime has
   passed since the completion, is answered with the message of that one, if its entry was not evicted
   in between. With another fingerprint it fails. Neither adds a commit.
   */
  lemma ResendIsReplayed(p: Params, clock: int, actions: seq<Action>, k: nat, first: nat, at: int,
                         messageId: string, second: nat)
    requires k < |actions| && actions[k] == Complete(first)
    requires first in At(p, clock, actions, k).clients
             && At(p, clock, actions, k).clients[first].stage == Committed(at, messageId)
    requires Run(p, clock, actions).clock < At(p, clock, actions, k).clock + p.ttl
    requires second in Run(p, clock, actions).clients && Run(p, clock, actions).clients[second].stage == Arrived
    requires Run(p, clock, actions).clients[second].request.key == At(p, clock, actions, k).clients[first].request.key
    requires var h := Run(p, clock, actions).history;
             forall j :: |At(p, clock, actions, k).history| <= j < |h| && h[j].DropEvent? ==>
                           At(p, clock, actions, k).clients[first].request.key !in h[j].evicted
    ensures var s := Run(p, clock, actions);
            var t := Apply(p, s, ReserveKey(second));
            var request := s.clients[second].request;
            && second in t.clients
            && t.clients[second].stage ==
                 (if request.fingerprint == At(p, clock, actions, k).clients[first].request.fingerprint
                  then Stage.Replayed(messageId) else Failed)
            && t.queue == s.queue && t.counters == s.counters && t.log == s.log
  {
    hide Run, Apply, Matched, AllMatched;
    CompletedEntryStands(p, clock, actions, k, first, at, messageId);
    Safety.RunKeepsInv(p, clock, actions);
    var s := Run(p, clock, actions);
    ReplayStep(p, s, second);
  }

  lemma ReplayStep(p: Params, s: State, id: nat)
    requires |s.cache| <= p.cacheLimit && id in s.clients && s.clients[id].stage == Arrived
    requires s.clients[id].request.key in s.cache && s.cache[s.clients[id].request.key].status == I.Queued
             && s.clock < s.cache[s.clients[id].request.key].createdAt + p.ttl
    ensures var t := Apply(p, s, ReserveKey(id));
            var request := s.clients[id].request;
            && id in t.clients
            && t.clients[id].stage == (if s.cache[request.key].fingerprint == request.fingerprint
                                       then Stage.Replayed(s.cache[request.key].messageId) else Failed)
            && t.queue == s.queue && t.counters == s.counters && t.log == s.log
  {
    var r := s.clients[id].request;
    I.ReserveAnswers(s.cache, p.cacheLimit, p.ttl, r.key, r.fingerprint, s.clock);
    hide I.ReserveEffect, I.Live;
  }
}
