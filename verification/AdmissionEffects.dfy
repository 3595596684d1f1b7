/**
 What one request costs the others, over whole interleaved runs: apart from expiry, its
 own steps take at most one entry of another key from the cache, the oldest queued one.
 */
module AdmissionEffects {
  import opened Wrappers
  import opened Domain
  import opened Admission
  import Safety = AdmissionSafety
  import I = Idempotency
  import Q = DelayQueue
  import R = RateLimiter

  /** The action is a step of this request. */
  predicate StepOf(id: nat, a: Action) {
    match a
    case Tick(_) => false
    case Arrive(_, _) => false
    case WorkerTake => false
    case WorkerReserve => false
    case WorkerCommit(_, _) => false
    case Close => false
    case _ => a.id == id
  }

  /** Every step of a request but the reservation leaves the entries of all other keys as they are. */
  lemma OnlyReserveTouchesOthers(p: Params, s: State, id: nat, a: Action)
    requires id in s.clients && StepOf(id, a) && !a.ReserveKey?
    ensures var t := Apply(p, s, a);
            forall k :: k != s.clients[id].request.key ==>
                (k in t.cache <==> k in s.cache) && (k in s.cache ==> t.cache[k] == s.cache[k])
  {
    hide Q.ReserveSlot, Q.CommitSlot, Q.ReturnSlot, R.AllowEffect, R.RollbackEffect, Queued, CommitFailed, Fresh;
  }

  /**
   What a reservation does to the cache: other keys lose at most one live entry, the oldest queued one, and
   change none.
   */
  ghost predicate ReservesGently(before: I.Entries, after: I.Entries, ttl: nat, key: I.Key, now: int) {
    var live := I.Live(before, now, ttl);
    && (forall k :: k in before && k !in live ==> I.Expired(before[k], now, ttl))
    && EvictsAtMostTheOldest(live, after, key)
  }

  ghost predicate EvictsAtMostTheOldest(live: I.Entries, after: I.Entries, key: I.Key) {
    && (forall k :: k in after && k != key ==> k in live && after[k] == live[k])
    && |live.Keys - after.Keys| <= 1
    && (forall k :: k in live && k !in after ==> k != key && I.IsOldestQueued(k, live))
    && (key in live ==> after == live)
  }

  lemma GentleInsert(live: I.Entries, after: I.Entries, limit: nat, key: I.Key, entry: I.Entry)
    requires key !in live && entry.status.Pending? && I.InsertsOne(live, after, limit, key, entry)
    ensures forall k :: k in live && k !in after ==> I.IsOldestQueued(k, live)
  {
    var grown := live[key := entry];
    if |grown| > limit {
      var o :| o != key && I.IsOldestQueued(o, grown) && after == (live - {o})[key := entry];
      assert forall k :: k in live ==> k in grown && grown[k] == live[k];
      assert I.IsOldestQueued(o, live);
    }
  }

  lemma LiveDropsExpired(entries: I.Entries, now: int, ttl: nat)
    ensures forall k :: k in entries && k !in I.Live(entries, now, ttl) ==> I.Expired(entries[k], now, ttl)
  {
  }

  lemma InsertEvictsAtMostTheOldest(live: I.Entries, after: I.Entries, limit: nat, key: I.Key, entry: I.Entry)
    requires key !in live && entry.status.Pending? && I.InsertsOne(live, after, limit, key, entry)
    ensures EvictsAtMostTheOldest(live, after, key)
  {
    hide I.IsOldestQueued, I.InsertsOne;
    I.InsertedEntries(live, after, limit, key, entry);
    GentleInsert(live, after, limit, key, entry);
  }

  lemma NothingEvicted(live: I.Entries, key: I.Key)
    ensures EvictsAtMostTheOldest(live, live, key)
  {
    assert live.Keys - live.Keys == {};
  }

  lemma ReserveIsGentle(entries: I.Entries, limit: nat, ttl: nat, key: I.Key, fingerprint: string, now: int)
    requires |entries| <= limit
    ensures ReservesGently(entries, I.ReserveEffect(entries, limit, ttl, key, fingerprint, now).0, ttl, key, now)
  {
    hide I.Live, I.ReserveEffect, I.InsertsOne, I.HasQueued, I.Expired, EvictsAtMostTheOldest;
    var live := I.Live(entries, now, ttl);
    var (after, outcome) := I.ReserveEffect(entries, limit, ttl, key, fingerprint, now);
    LiveDropsExpired(entries, now, ttl);
    I.ReserveIsAllOrNothing(entries, limit, ttl, key, fingerprint, now);
    if outcome == I.Reserved {
      InsertEvictsAtMostTheOldest(live, after, limit, key, I.Entry("", fingerprint, I.Pending, now));
    } else {
      NothingEvicted(live, key);
    }
  }

  /** The reservation of a request, in every reachable state. */
  lemma ReserveTakesAtMostTheOldest(p: Params, clock: int, actions: seq<Action>, id: nat)
    requires id in Run(p, clock, actions).clients
    ensures var s := Run(p, clock, actions);
            var t := Apply(p, s, ReserveKey(id));
            && (s.clients[id].stage == Arrived ==>
                ReservesGently(s.cache, t.cache, p.ttl, s.clients[id].request.key, s.clock))
            && (s.clients[id].stage != Arrived ==> t == s)
  {
    hide Run, I.ReserveEffect, ReservesGently;
    Safety.RunKeepsInv(p, clock, actions);
    var s := Run(p, clock, actions);
    var request := s.clients[id].request;
    ReserveIsGentle(s.cache, p.cacheLimit, p.ttl, request.key, request.fingerprint, s.clock);
  }

  /** What a failing request removes under its own key is the pending entry it put there. */
  lemma ReleaseTakesOnlyItsOwn(p: Params, clock: int, actions: seq<Action>, id: nat)
    requires id in Run(p, clock, actions).clients && Run(p, clock, actions).clients[id].stage == UnwindKey
    ensures var s := Run(p, clock, actions);
            var key := s.clients[id].request.key;
            I.IsPending(s.cache, key) && Apply(p, s, ReleaseKey(id)).cache == s.cache - {key}
  {
    hide Run;
    Safety.RunKeepsInv(p, clock, actions);
  }

  // ---------- summed over a run ----------

  /** The entries of other keys that a step of this request removes, expiry aside. */
  ghost function Taken(p: Params, s: State, id: nat, a: Action): set<I.Key> {
    if id !in s.clients || !StepOf(id, a) then {} else
      (if a.ReserveKey? then I.Live(s.cache, s.clock, p.ttl).Keys else s.cache.Keys)
      - Apply(p, s, a).cache.Keys - {s.clients[id].request.key}
  }

  ghost function TakenOver(p: Params, clock: int, actions: seq<Action>, id: nat): nat {
    if actions == [] then 0 else
      var n := |actions| - 1;
      TakenOver(p, clock, actions[..n], id) + |Taken(p, Run(p, clock, actions[..n]), id, actions[n])|
  }

  /** The request has made no step yet. */
  ghost predicate NotBegun(s: State, id: nat) {
    id in s.clients ==> s.clients[id].stage == Arrived
  }

  lemma NothingMoreTaken(p: Params, s: State, id: nat, a: Action)
    requires !(a.ReserveKey? && StepOf(id, a) && NotBegun(s, id))
    ensures Taken(p, s, id, a) == {}
  {
    if id in s.clients && StepOf(id, a) {
      if a.ReserveKey? {
        LiveIsSmaller(s.cache, s.clock, p.ttl);
        hide I.Live, I.ReserveEffect;
        assert Apply(p, s, a) == s;
      } else {
        OnlyReserveTouchesOthers(p, s, id, a);
      }
    }
  }

  lemma LiveIsSmaller(entries: I.Entries, now: int, ttl: nat)
    ensures I.Live(entries, now, ttl).Keys <= entries.Keys
  {
  }

  /** Once begun a request never returns to its start, and only its own first step begins it. */
  lemma BeginsOnce(p: Params, s: State, id: nat, a: Action)
    ensures !NotBegun(s, id) ==> !NotBegun(Apply(p, s, a), id)
    ensures NotBegun(s, id) && id in s.clients && a == ReserveKey(id) ==> !NotBegun(Apply(p, s, a), id)
  {
    hide ClientStep, Q.TakeReady, Q.ReserveSlot, Q.CommitSlot, Q.CloseQueue;
    match a
    case Tick(_) =>
    case Arrive(_, _) =>
    case WorkerTake =>
    case WorkerReserve =>
    case WorkerCommit(_, _) =>
    case Close =>
    case _ =>
      if a.id in s.clients {
        StepBegins(p, s, a.id, a);
        Safety.ClientStepGrowsLog(p, s, a.id, a);
      }
  }

  lemma StepBegins(p: Params, s: State, id: nat, a: Action)
    requires id in s.clients
    ensures !NotBegun(s, id) || a == ReserveKey(id) ==> !NotBegun(ClientStep(p, s, id, a), id)
  {
    hide I.ReserveEffect, I.Live, I.CompleteEffect, I.ReleaseEffect, Q.ReserveSlot, Q.CommitSlot, Q.ReturnSlot,
         R.AllowEffect, R.RollbackEffect, Queued, CommitFailed, Fresh;
  }

  /**
   Over any run, under any interleaving: all steps of a request together remove at most one entry of
   another key that had not expired, and none while it has not begun.
   */
  lemma {:induction false} RequestTakesAtMostOne(p: Params, clock: int, actions: seq<Action>, id: nat)
    ensures TakenOver(p, clock, actions, id) <= 1
    ensures NotBegun(Run(p, clock, actions), id) ==> TakenOver(p, clock, actions, id) == 0
  {
    if actions != [] {
      var n := |actions| - 1;
      var s, a := Run(p, clock, actions[..n]), actions[n];
      RequestTakesAtMostOne(p, clock, actions[..n], id);
      BeginsOnce(p, s, id, a);
      if a.ReserveKey? && StepOf(id, a) && NotBegun(s, id) {
        if id in s.clients {
          ReserveTakesAtMostTheOldest(p, clock, actions[..n], id);
        }
      } else {
        NothingMoreTaken(p, s, id, a);
      }
      hide Apply, Run, I.Live;
    }
  }
}
