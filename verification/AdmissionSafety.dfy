/**
 What every interleaving of the admission protocol keeps, and what follows for whole
 runs: at-most-once enqueue per key, faithful replays, completion that cannot fail,
 and failed requests that own nothing.
 */
module AdmissionSafety {
  import opened Wrappers
  import opened Domain
  import opened Admission
  import I = Idempotency
  import Q = DelayQueue
  import R = RateLimiter

  // ---------- moving one request to another stage ----------

  function WithStage(clients: Clients, id: nat, stage: Stage): Clients
    requires id in clients
  {
    clients[id := clients[id].(stage := stage)]
  }

  lemma SameClaim(p: Params, cache: I.Entries, history: seq<Event>, clients: Clients, id: nat, stage: Stage)
    requires CacheInv(p, cache, history, clients) && id in clients
    requires KeyClaim(stage) == KeyClaim(clients[id].stage)
    ensures CacheInv(p, cache, history, WithStage(clients, id, stage))
  {
    hide KeyClaim, Sound;
    var after := WithStage(clients, id, stage);
    assert forall i, k :: Holds(after, i, k) <==> Holds(clients, i, k);
    forall k | I.IsPending(cache, k)
      ensures exists i :: Holds(after, i, k)
    {
      var i :| Holds(clients, i, k);
      assert Holds(after, i, k);
    }
  }

  lemma SlotHoldersMove(clients: Clients, id: nat, stage: Stage)
    requires id in clients
    ensures |SlotHolders(WithStage(clients, id, stage))| ==
            |SlotHolders(clients)| - (if HoldsSlot(clients[id].stage) then 1 else 0)
                + (if HoldsSlot(stage) then 1 else 0)
  {
    hide HoldsSlot;
    var before, after := SlotHolders(clients), SlotHolders(WithStage(clients, id, stage));
    assert after - {id} == before - {id};
    assert id in after <==> HoldsSlot(stage);
    SizeWithout(before, id);
    SizeWithout(after, id);
  }

  lemma SizeWithout(s: set<nat>, x: nat)
    ensures |s| == |s - {x}| + if x in s then 1 else 0
  {
    if x !in s {
      assert s - {x} == s;
    }
  }

  lemma ChargedMove(clients: Clients, id: nat, stage: Stage)
    requires id in clients
    ensures var before, after := Charged(clients), Charged(WithStage(clients, id, stage));
            && (QuotaOf(stage) == QuotaOf(clients[id].stage) ==> after == before)
            && (QuotaOf(stage).None? ==> after == before - {id})
            && (QuotaOf(stage).Some? ==>
                after == before[id := R.Grant(clients[id].request.quota, QuotaOf(stage).value)])
            && (id in before <==> QuotaOf(clients[id].stage).Some?)
            && (id in before ==> before[id] == R.Grant(clients[id].request.quota, QuotaOf(clients[id].stage).value))
  {
    hide QuotaOf;
  }

  lemma SameSlot(p: Params, queue: Q.QueueState, clients: Clients, workerSlots: nat, id: nat, stage: Stage)
    requires SlotInv(p, queue, clients, workerSlots) && id in clients
             && HoldsSlot(stage) == HoldsSlot(clients[id].stage)
    ensures SlotInv(p, queue, WithStage(clients, id, stage), workerSlots)
  {
    hide HoldsSlot, SlotHolders, Q.Accounted, Q.Numbered;
    SlotHoldersMove(clients, id, stage);
  }

  lemma SameQuota(counters: R.Counters, clients: Clients, clock: int, id: nat, stage: Stage)
    requires QuotaInv(counters, clients, clock) && id in clients && QuotaOf(stage) == QuotaOf(clients[id].stage)
    ensures QuotaInv(counters, WithStage(clients, id, stage), clock)
  {
    hide QuotaOf, Charged, R.Exact;
    ChargedMove(clients, id, stage);
  }

  // ---------- reserving, completing and releasing a key ----------

  /** Dropping queued entries and recording the drop keeps the cache and the history in step. */
  lemma DropKeepsInv(p: Params, cache: I.Entries, after: I.Entries, history: seq<Event>, clients: Clients, e: Event)
    requires CacheInv(p, cache, history, clients) && e.DropEvent? && |after| <= p.cacheLimit
    requires forall k :: Drops(e, k) <==> k in cache && k !in after
    requires forall k :: k in cache && k !in after ==> cache[k].status.Queued?
    requires forall k :: k in after ==> k in cache && after[k] == cache[k]
    ensures CacheInv(p, after, history + [e], clients)
  {
    hide KeyClaim, Holds;
    SoundLonger(history, e);
    forall k
      ensures LastCommit(history + [e], k) == if Drops(e, k) then None else LastCommit(history, k)
    {
      LastCommitOfLonger(history, e, k);
    }
    assert forall k :: I.IsPending(after, k) <==> I.IsPending(cache, k);
  }

  lemma InsertKeyKeepsInv(p: Params, kept: I.Entries, history: seq<Event>, clients: Clients, id: nat, entry: I.Entry)
    requires CacheInv(p, kept, history, clients) && id in clients && KeyClaim(clients[id].stage) == NoKey
    requires clients[id].request.key !in kept && entry.status.Pending?
    requires |kept[clients[id].request.key := entry]| <= p.cacheLimit
    ensures CacheInv(p, kept[clients[id].request.key := entry], history, WithStage(clients, id, Reserved))
  {
    hide Sound;
    var key := clients[id].request.key;
    var after, next := kept[key := entry], WithStage(clients, id, Reserved);
    assert KeyClaim(Reserved) == Held;
    hide KeyClaim;
    assert forall k :: I.IsPending(after, k) <==> I.IsPending(kept, k) || k == key;
    assert forall i, k :: Holds(next, i, k) <==> Holds(clients, i, k) || (i == id && k == key);
    forall k | I.IsPending(after, k)
      ensures exists i :: Holds(next, i, k)
    {
      if k == key {
        assert Holds(next, id, k);
      } else {
        var i :| Holds(clients, i, k);
        assert Holds(next, i, k);
      }
    }
  }

  lemma ReplayKeepsInv(p: Params, cache: I.Entries, history: seq<Event>, clients: Clients, key: I.Key)
    requires CacheInv(p, cache, history, clients) && key in cache && cache[key].status.Queued?
    ensures CacheInv(p, cache, history + [ReplayEvent(key, cache[key].messageId)], clients)
  {
    hide KeyClaim, Holds;
    var e := ReplayEvent(key, cache[key].messageId);
    SoundLonger(history, e);
    forall k
      ensures LastCommit(history + [e], k) == LastCommit(history, k)
    {
      LastCommitOfLonger(history, e, k);
    }
  }

  lemma CommitKeepsCacheInv(p: Params, cache: I.Entries, history: seq<Event>, clients: Clients, id: nat, at: int,
                            messageId: string)
    requires CacheInv(p, cache, history, clients) && id in clients && KeyClaim(clients[id].stage) == Held
    ensures CacheInv(p, cache, history + [CommitEvent(clients[id].request.key, messageId)],
                     WithStage(clients, id, Committed(at, messageId)))
  {
    hide Sound, LastCommit;
    var key := clients[id].request.key;
    var e, next := CommitEvent(key, messageId), WithStage(clients, id, Committed(at, messageId));
    assert KeyClaim(Committed(at, messageId)) == HeldCommitted(messageId);
    hide KeyClaim;
    SoundLonger(history, e);
    forall k
      ensures LastCommit(history + [e], k) == if k == key then Some(messageId) else LastCommit(history, k)
    {
      LastCommitOfLonger(history, e, k);
    }
    SameHolders(cache, clients, id, Committed(at, messageId));
  }

  /** A request that keeps its key may change what the claim says. */
  lemma SameHolders(cache: I.Entries, clients: Clients, id: nat, stage: Stage)
    requires KeysPaired(cache, clients) && id in clients && KeyClaim(clients[id].stage) != NoKey
             && KeyClaim(stage) != NoKey
    ensures KeysPaired(cache, WithStage(clients, id, stage)) && I.IsPending(cache, clients[id].request.key)
    ensures forall i :: i in clients && i != id && KeyClaim(clients[i].stage) != NoKey ==>
            clients[i].request.key != clients[id].request.key
  {
    hide KeyClaim;
    var next := WithStage(clients, id, stage);
    assert Holds(clients, id, clients[id].request.key);
    forall i | i in clients && i != id && KeyClaim(clients[i].stage) != NoKey
      ensures clients[i].request.key != clients[id].request.key
    {
      assert Holds(clients, i, clients[i].request.key);
    }
    assert forall i, k :: Holds(next, i, k) <==> Holds(clients, i, k);
    forall k | I.IsPending(cache, k)
      ensures exists i :: Holds(next, i, k)
    {
      var i :| Holds(clients, i, k);
      assert Holds(next, i, k);
    }
  }

  /** The request gives up its key, and the entry is no longer pending. */
  lemma GiveUpKey(cache: I.Entries, after: I.Entries, clients: Clients, id: nat, stage: Stage)
    requires KeysPaired(cache, clients) && id in clients && KeyClaim(clients[id].stage) != NoKey
             && KeyClaim(stage) == NoKey
    requires forall k :: I.IsPending(after, k) <==> I.IsPending(cache, k) && k != clients[id].request.key
    ensures KeysPaired(after, WithStage(clients, id, stage))
    ensures forall i :: i in clients && i != id && KeyClaim(clients[i].stage) != NoKey ==>
            clients[i].request.key != clients[id].request.key
  {
    hide KeyClaim;
    var key, next := clients[id].request.key, WithStage(clients, id, stage);
    assert Holds(clients, id, key);
    forall i | i in clients && i != id && KeyClaim(clients[i].stage) != NoKey
      ensures clients[i].request.key != key
    {
      assert Holds(clients, i, clients[i].request.key);
    }
    assert forall i, k :: Holds(next, i, k) <==> Holds(clients, i, k) && i != id;
    forall k | I.IsPending(after, k)
      ensures exists i :: Holds(next, i, k)
    {
      var i :| Holds(clients, i, k);
      assert Holds(next, i, k);
    }
  }

  lemma CompleteKeepsCacheInv(p: Params, cache: I.Entries, history: seq<Event>, clients: Clients, id: nat, at: int,
                              messageId: string, now: int)
    requires CacheInv(p, cache, history, clients) && id in clients
             && KeyClaim(clients[id].stage) == HeldCommitted(messageId)
    ensures I.IsPending(cache, clients[id].request.key)
    ensures CacheInv(p, I.CompleteEffect(cache, clients[id].request.key, messageId, now), history,
                     WithStage(clients, id, Done(at, messageId)))
  {
    hide Sound;
    var key := clients[id].request.key;
    I.CompletedSize(cache, key, messageId, now);
    assert KeyClaim(Done(at, messageId)) == NoKey;
    hide KeyClaim;
    GiveUpKey(cache, I.CompleteEffect(cache, key, messageId, now), clients, id, Done(at, messageId));
  }

  lemma ReleaseKeepsCacheInv(p: Params, cache: I.Entries, history: seq<Event>, clients: Clients, id: nat)
    requires CacheInv(p, cache, history, clients) && id in clients && KeyClaim(clients[id].stage) == Held
    ensures CacheInv(p, I.ReleaseEffect(cache, clients[id].request.key), history, WithStage(clients, id, Failed))
  {
    hide Sound;
    var key := clients[id].request.key;
    I.SubsetSize(I.ReleaseEffect(cache, key).Keys, cache.Keys);
    assert KeyClaim(Failed) == NoKey;
    hide KeyClaim;
    GiveUpKey(cache, I.ReleaseEffect(cache, key), clients, id, Failed);
  }

  /** The drop that Reserve makes before it inserts. */
  function Dropped(p: Params, s: State, after: I.Entries): Event {
    var live := I.Live(s.cache, s.clock, p.ttl);
    DropEvent(s.cache.Keys - live.Keys, live.Keys - after.Keys)
  }

  lemma InsertAfterDrop(p: Params, cache: I.Entries, live: I.Entries, after: I.Entries, history: seq<Event>,
                        clients: Clients, id: nat)
    requires CacheInv(p, cache, history, clients) && id in clients && KeyClaim(clients[id].stage) == NoKey
             && |after| <= p.cacheLimit
    requires forall k :: k in cache && k !in live ==> cache[k].status.Queued?
    requires forall k :: k in live ==> k in cache && live[k] == cache[k]
    requires forall k :: k in live && k !in after ==> live[k].status.Queued?
    requires forall k :: k in after && k != clients[id].request.key ==> k in live && after[k] == live[k]
    requires clients[id].request.key !in live && I.IsPending(after, clients[id].request.key)
    ensures CacheInv(p, after, history + [DropEvent(cache.Keys - live.Keys, live.Keys - after.Keys)],
                     WithStage(clients, id, Reserved))
  {
    hide CacheInv, KeyClaim;
    var key := clients[id].request.key;
    var e := DropEvent(cache.Keys - live.Keys, live.Keys - after.Keys);
    var kept := after - {key};
    I.SubsetSize(kept.Keys, after.Keys);
    DropKeepsInv(p, cache, kept, history, clients, e);
    assert kept[key := after[key]] == after;
    InsertKeyKeepsInv(p, kept, history + [e], clients, id, after[key]);
  }

  lemma ReservedKeepsCacheInv(p: Params, s: State, id: nat, after: I.Entries)
    requires CacheInv(p, s.cache, s.history, s.clients) && id in s.clients && KeyClaim(s.clients[id].stage) == NoKey
    requires var r := s.clients[id].request;
             (after, I.Reserved) == I.ReserveEffect(s.cache, p.cacheLimit, p.ttl, r.key, r.fingerprint, s.clock)
    ensures CacheInv(p, after, s.history + [Dropped(p, s, after)], WithStage(s.clients, id, Reserved))
  {
    hide I.ReserveEffect, I.HasQueued, I.InsertsOne, I.Live, KeyClaim, KeysPaired, HistoryMatches, Sound;
    var request := s.clients[id].request;
    I.ReserveKeepsTheRest(s.cache, p.cacheLimit, p.ttl, request.key, request.fingerprint, s.clock);
    I.ReserveIsAllOrNothing(s.cache, p.cacheLimit, p.ttl, request.key, request.fingerprint, s.clock);
    InsertAfterDrop(p, s.cache, I.Live(s.cache, s.clock, p.ttl), after, s.history, s.clients, id);
  }

  lemma NotReservedKeepsCacheInv(p: Params, s: State, id: nat, after: I.Entries, outcome: I.Outcome)
    requires CacheInv(p, s.cache, s.history, s.clients) && id in s.clients && outcome != I.Reserved
    requires var r := s.clients[id].request;
             (after, outcome) == I.ReserveEffect(s.cache, p.cacheLimit, p.ttl, r.key, r.fingerprint, s.clock)
    ensures CacheInv(p, after, s.history + [Dropped(p, s, after)], s.clients)
    ensures outcome.Replayed? ==> var key := s.clients[id].request.key;
                                  key in after && after[key].status.Queued? && after[key].messageId == outcome.messageId
  {
    var request := s.clients[id].request;
    I.ReserveKeepsTheRest(s.cache, p.cacheLimit, p.ttl, request.key, request.fingerprint, s.clock);
    I.ReserveIsAllOrNothing(s.cache, p.cacheLimit, p.ttl, request.key, request.fingerprint, s.clock);
    hide I.ReserveEffect, I.HasQueued, I.InsertsOne, CacheInv, I.Live;
    DropKeepsInv(p, s.cache, after, s.history, s.clients, Dropped(p, s, after));
  }

  lemma ReserveKeepsCacheInv(p: Params, s: State, id: nat)
    requires CacheInv(p, s.cache, s.history, s.clients) && id in s.clients && s.clients[id].stage == Arrived
    ensures var t := ReserveKeyStep(p, s, id); CacheInv(p, t.cache, t.history, t.clients)
  {
    hide I.ReserveEffect, CacheInv, I.Live;
    var request := s.clients[id].request;
    var key := request.key;
    var (after, outcome) := I.ReserveEffect(s.cache, p.cacheLimit, p.ttl, key, request.fingerprint, s.clock);
    if outcome == I.Reserved {
      ReservedKeepsCacheInv(p, s, id, after);
    } else {
      NotReservedKeepsCacheInv(p, s, id, after, outcome);
      var e := Dropped(p, s, after);
      if outcome.Replayed? {
        ReplayKeepsInv(p, after, s.history + [e], s.clients, key);
        SameClaim(p, after, s.history + [e] + [ReplayEvent(key, outcome.messageId)], s.clients, id,
                  Replayed(outcome.messageId));
      } else {
        SameClaim(p, after, s.history + [e], s.clients, id, Failed);
      }
    }
  }

  // ---------- every action keeps the invariant ----------

  lemma QuietMove(p: Params, s: State, id: nat, stage: Stage)
    requires Inv(p, s) && id in s.clients && KeyClaim(stage) == KeyClaim(s.clients[id].stage) && !stage.Broken?
    requires HoldsSlot(stage) == HoldsSlot(s.clients[id].stage) && QuotaOf(stage) == QuotaOf(s.clients[id].stage)
    ensures Inv(p, Move(s, id, stage))
  {
    hide KeyClaim, HoldsSlot, QuotaOf, CacheInv, SlotInv, QuotaInv;
    SameClaim(p, s.cache, s.history, s.clients, id, stage);
    SameSlot(p, s.queue, s.clients, s.workerSlots, id, stage);
    SameQuota(s.counters, s.clients, s.clock, id, stage);
  }

  lemma ReserveKeyKeepsInv(p: Params, s: State, id: nat)
    requires Inv(p, s) && id in s.clients && s.clients[id].stage == Arrived
    ensures Inv(p, ReserveKeyStep(p, s, id))
  {
    hide CacheInv, SlotInv, QuotaInv, I.ReserveEffect, I.Live;
    ReserveKeepsCacheInv(p, s, id);
    var stage := ReserveKeyStep(p, s, id).clients[id].stage;
    SameSlot(p, s.queue, s.clients, s.workerSlots, id, stage);
    SameQuota(s.counters, s.clients, s.clock, id, stage);
  }

  lemma ReserveSlotKeepsInv(p: Params, s: State, id: nat)
    requires Inv(p, s) && id in s.clients && s.clients[id].stage == Reserved
    ensures Inv(p, ReserveSlotStep(p, s, id))
  {
    hide CacheInv, QuotaInv, SlotHolders, Q.Accounted;
    var stage := ReserveSlotStep(p, s, id).clients[id].stage;
    SameClaim(p, s.cache, s.history, s.clients, id, stage);
    SlotHoldersMove(s.clients, id, stage);
    Q.ReserveKeepsAccount(s.queue, p.capacity, |SlotHolders(s.clients)| + s.workerSlots);
    SameQuota(s.counters, s.clients, s.clock, id, stage);
  }

  lemma AllowQuotaKeepsInv(p: Params, s: State, id: nat)
    requires Inv(p, s) && id in s.clients && s.clients[id].stage == Slotted
    ensures Inv(p, AllowQuotaStep(s, id))
  {
    hide CacheInv, SlotInv, Charged, R.Exact, R.AllowEffect;
    var stage := AllowQuotaStep(s, id).clients[id].stage;
    SameClaim(p, s.cache, s.history, s.clients, id, stage);
    SameSlot(p, s.queue, s.clients, s.workerSlots, id, stage);
    ChargedMove(s.clients, id, stage);
    R.AllowKeepsExact(s.counters, Charged(s.clients), s.clock, s.clock, s.clients[id].request.quota, id);
  }

  lemma CommitKeepsInv(p: Params, s: State, id: nat, at: int, messageId: string)
    requires Inv(p, s) && id in s.clients && s.clients[id].stage == Logged(at, messageId)
    ensures Inv(p, CommitStep(s, id, at, messageId))
  {
    hide CacheInv, QuotaInv, SlotHolders, Q.Accounted, Q.Numbered, Q.CommitSlot;
    var stage := CommitStep(s, id, at, messageId).clients[id].stage;
    if s.queue.closed {
      SameClaim(p, s.cache, s.history, s.clients, id, stage);
    } else {
      CommitKeepsCacheInv(p, s.cache, s.history, s.clients, id, at, messageId);
    }
    SlotHoldersMove(s.clients, id, stage);
    assert HoldsSlot(s.clients[id].stage) && id in SlotHolders(s.clients) by { HolderIsCounted(s.clients, id); }
    Q.CommitKeepsAccount(s.queue, p.capacity, |SlotHolders(s.clients)| + s.workerSlots,
                         QueueTask(Queued(s.clients[id].request, messageId), 1, 0), 0, s.clock);
    SameQuota(s.counters, s.clients, s.clock, id, stage);
  }

  lemma HolderIsCounted(clients: Clients, id: nat)
    requires id in clients && HoldsSlot(clients[id].stage)
    ensures id in SlotHolders(clients)
  {
  }

  lemma CompleteKeepsInv(p: Params, s: State, id: nat, at: int, messageId: string)
    requires Inv(p, s) && id in s.clients && s.clients[id].stage == Committed(at, messageId)
    ensures Inv(p, CompleteStep(s, id, at, messageId))
    ensures CompleteStep(s, id, at, messageId).clients[id].stage == Done(at, messageId)
  {
    hide CacheInv, SlotInv, QuotaInv, I.CompleteEffect;
    CompleteKeepsCacheInv(p, s.cache, s.history, s.clients, id, at, messageId, s.clock);
    SameSlot(p, s.queue, s.clients, s.workerSlots, id, Done(at, messageId));
    SameQuota(s.counters, s.clients, s.clock, id, Done(at, messageId));
  }

  lemma RollbackQuotaKeepsInv(p: Params, s: State, id: nat, at: int, slot: bool)
    requires Inv(p, s) && id in s.clients && s.clients[id].stage == UnwindQuota(at, slot)
    ensures Inv(p, ClientStep(p, s, id, RollbackQuota(id)))
  {
    hide CacheInv, SlotInv, Charged, R.Exact, R.RollbackEffect;
    var stage := if slot then UnwindSlot else UnwindKey;
    SameClaim(p, s.cache, s.history, s.clients, id, stage);
    SameSlot(p, s.queue, s.clients, s.workerSlots, id, stage);
    ChargedMove(s.clients, id, stage);
    R.RollbackKeepsExact(s.counters, Charged(s.clients), s.clock, id);
  }

  lemma ReleaseSlotKeepsInv(p: Params, s: State, id: nat)
    requires Inv(p, s) && id in s.clients && s.clients[id].stage == UnwindSlot
    ensures Inv(p, ClientStep(p, s, id, ReleaseSlot(id)))
  {
    hide CacheInv, QuotaInv, SlotHolders, Q.Accounted;
    SameClaim(p, s.cache, s.history, s.clients, id, UnwindKey);
    SlotHoldersMove(s.clients, id, UnwindKey);
    HolderIsCounted(s.clients, id);
    Q.ReturnKeepsAccount(s.queue, p.capacity, |SlotHolders(s.clients)| + s.workerSlots);
    SameQuota(s.counters, s.clients, s.clock, id, UnwindKey);
  }

  lemma ReleaseKeyKeepsInv(p: Params, s: State, id: nat)
    requires Inv(p, s) && id in s.clients && s.clients[id].stage == UnwindKey
    ensures Inv(p, ClientStep(p, s, id, ReleaseKey(id)))
  {
    hide CacheInv, SlotInv, QuotaInv, I.ReleaseEffect;
    ReleaseKeepsCacheInv(p, s.cache, s.history, s.clients, id);
    SameSlot(p, s.queue, s.clients, s.workerSlots, id, Failed);
    SameQuota(s.counters, s.clients, s.clock, id, Failed);
  }

  lemma ClientStepKeepsInv(p: Params, s: State, id: nat, a: Action)
    requires Inv(p, s) && id in s.clients
    ensures Inv(p, ClientStep(p, s, id, a))
  {
    hide Inv, ReserveKeyStep, ReserveSlotStep, AllowQuotaStep, CommitStep, CompleteStep, R.RollbackEffect, Q.ReturnSlot,
         I.ReleaseEffect;
    match (a, s.clients[id].stage)
    case (ReserveKey(_), Arrived) => ReserveKeyKeepsInv(p, s, id);
    case (RejectEarly(_), Reserved) => QuietMove(p, s, id, UnwindKey);
    case (ReserveSlot(_), Reserved) => ReserveSlotKeepsInv(p, s, id);
    case (AllowQuota(_), Slotted) => AllowQuotaKeepsInv(p, s, id);
    case (FailBeforeLog(_), Limited(at)) => QuietMove(p, s, id, UnwindQuota(at, true));
    case (LogQueued(_, messageId), Limited(at)) =>
      if Fresh(s, messageId) {
        var logged := s.(log := s.log + [Queued(s.clients[id].request, messageId)]);
        LogIsNotHeld(p, s, logged.log);
        QuietMove(p, logged, id, Logged(at, messageId));
      }
    case (Commit(_), Logged(at, messageId)) => CommitKeepsInv(p, s, id, at, messageId);
    case (LogRefused(_, logged), Refused(at, messageId)) =>
      var t := if logged then s.(log := s.log + [CommitFailed(s.clients[id].request, messageId)]) else s;
      LogIsNotHeld(p, s, t.log);
      QuietMove(p, t, id, UnwindQuota(at, false));
    case (Complete(_), Committed(at, messageId)) => CompleteKeepsInv(p, s, id, at, messageId);
    case (RollbackQuota(_), UnwindQuota(at, slot)) => RollbackQuotaKeepsInv(p, s, id, at, slot);
    case (ReleaseSlot(_), UnwindSlot) => ReleaseSlotKeepsInv(p, s, id);
    case (ReleaseKey(_), UnwindKey) => ReleaseKeyKeepsInv(p, s, id);
    case _ =>
  }

  lemma LogIsNotHeld(p: Params, s: State, log: seq<Message>)
    requires Inv(p, s)
    ensures Inv(p, s.(log := log))
  {
  }

  lemma ArriveKeepsCacheInv(p: Params, cache: I.Entries, history: seq<Event>, clients: Clients, id: nat,
                            request: SendRequest)
    requires CacheInv(p, cache, history, clients) && id !in clients
    ensures CacheInv(p, cache, history, clients[id := Client(request, Arrived)])
  {
    hide Sound, KeyClaim, LastCommit;
    ArrivedHoldsNothing();
    var next := clients[id := Client(request, Arrived)];
    assert forall i, k :: Holds(next, i, k) <==> Holds(clients, i, k);
    forall k | I.IsPending(cache, k)
      ensures exists i :: Holds(next, i, k)
    {
      var i :| Holds(clients, i, k);
      assert Holds(next, i, k);
    }
  }

  lemma ArriveKeepsInv(p: Params, s: State, id: nat, request: SendRequest)
    requires Inv(p, s) && id !in s.clients
    ensures Inv(p, s.(clients := s.clients[id := Client(request, Arrived)]))
  {
    hide CacheInv, Q.Accounted, R.Exact, Q.Numbered;
    var next := s.clients[id := Client(request, Arrived)];
    ArriveKeepsCacheInv(p, s.cache, s.history, s.clients, id, request);
    assert SlotHolders(next) == SlotHolders(s.clients);
    assert Charged(next) == Charged(s.clients);
  }

  lemma ArrivedHoldsNothing()
    ensures KeyClaim(Arrived) == NoKey
  {
  }

  /** The workers and the closing touch only the queue. */
  lemma WorkerKeepsSlots(p: Params, s: State, a: Action)
    requires SlotInv(p, s.queue, s.clients, s.workerSlots)
             && (a.WorkerTake? || a.WorkerReserve? || a.WorkerCommit? || a.Close?)
    ensures var t := Apply(p, s, a);
            t == s.(queue := t.queue, workerSlots := t.workerSlots) && SlotInv(p, t.queue, t.clients, t.workerSlots)
  {
    hide SlotHolders, Q.TakeReady, Q.CommitSlot, Q.Numbered, Q.Accounted, Q.ReserveSlot, Q.CloseQueue;
    var reserved := |SlotHolders(s.clients)| + s.workerSlots;
    match a {
      case WorkerTake =>
        Q.TakeKeepsAccount(s.queue, p.capacity, reserved, s.clock);
        TakeKeepsNumbers(s.queue, s.clock);
      case WorkerReserve =>
        Q.ReserveKeepsAccount(s.queue, p.capacity, reserved);
        ReserveKeepsNumbers(s.queue, p.capacity);
      case WorkerCommit(task, delay) =>
        if s.workerSlots > 0 {
          Q.CommitKeepsAccount(s.queue, p.capacity, reserved, task, delay, s.clock);
        }
      case Close =>
        CloseKeepsAccount(s.queue, p.capacity, reserved);
    }
  }

  lemma ReserveKeepsNumbers(q: Q.QueueState, capacity: nat)
    requires Q.Numbered(q)
    ensures Q.Numbered(Q.ReserveSlot(q, capacity).0)
  {
  }

  /** Closing empties the queue; the slots still out count for nothing from then on. */
  lemma CloseKeepsAccount(q: Q.QueueState, capacity: nat, reserved: nat)
    requires Q.Accounted(q, capacity, reserved) && Q.Numbered(q)
    ensures Q.Accounted(Q.CloseQueue(q), capacity, reserved) && Q.Numbered(Q.CloseQueue(q))
  {
  }

  lemma WorkerKeepsInv(p: Params, s: State, a: Action)
    requires Inv(p, s) && (a.WorkerTake? || a.WorkerReserve? || a.WorkerCommit? || a.Close?)
    ensures Inv(p, Apply(p, s, a))
  {
    hide CacheInv, QuotaInv, SlotInv, Apply;
    WorkerKeepsSlots(p, s, a);
  }

  lemma TakeKeepsNumbers(q: Q.QueueState, now: int)
    requires Q.Numbered(q)
    ensures Q.Numbered(Q.TakeReady(q, now).0)
  {
    Q.MoveKeepsNumbers(q, now);
  }

  /** No action of any request, worker or clock breaks the accounts. */
  lemma ActionKeepsInv(p: Params, s: State, a: Action)
    requires Inv(p, s)
    ensures Inv(p, Apply(p, s, a))
  {
    match a
    case Tick(now) =>
      if now >= s.clock {
        hide CacheInv, SlotInv, Charged, R.Exact;
        R.TickKeepsExact(s.counters, Charged(s.clients), s.clock, now);
      }
    case Arrive(id, request) =>
      hide Inv;
      if id !in s.clients {
        ArriveKeepsInv(p, s, id, request);
      }
    case WorkerTake => WorkerKeepsInv(p, s, a);
    case WorkerReserve => WorkerKeepsInv(p, s, a);
    case WorkerCommit(_, _) => WorkerKeepsInv(p, s, a);
    case Close => WorkerKeepsInv(p, s, a);
    case _ =>
      hide Inv, ClientStep;
      if a.id in s.clients {
        ClientStepKeepsInv(p, s, a.id, a);
      }
  }

  lemma StartIsAccounted(p: Params, clock: int)
    ensures Inv(p, Start(clock))
  {
    assert SlotHolders(map[]) == {} && Charged(map[]) == map[];
    assert forall key :: R.Holders(map[], key) == {};
  }

  lemma {:induction false} RunKeepsInv(p: Params, clock: int, actions: seq<Action>)
    ensures Inv(p, Run(p, clock, actions))
  {
    hide Inv, Apply;
    if actions == [] {
      StartIsAccounted(p, clock);
    } else {
      RunKeepsInv(p, clock, actions[..|actions| - 1]);
      ActionKeepsInv(p, Run(p, clock, actions[..|actions| - 1]), actions[|actions| - 1]);
    }
  }

  // ---------- what holds over every run ----------

  /**
   Two commits under one idempotency key happen only if the entry of the first expired or
   was evicted in between, in every interleaving.
   */
  lemma CommittedAtMostOnce(p: Params, clock: int, actions: seq<Action>, i: nat, j: nat)
    requires var h := Run(p, clock, actions).history;
             i < j < |h| && h[i].CommitEvent? && h[j].CommitEvent? && h[i].key == h[j].key
    ensures var h := Run(p, clock, actions).history;
            exists l :: i < l < j && Drops(h[l], h[i].key)
  {
    hide Run;
    RunKeepsInv(p, clock, actions);
    SoundMeansAtMostOnce(Run(p, clock, actions).history, i, j);
  }

  /** Every replay answers with the message last committed under the key, whose entry was not dropped since. */
  lemma ReplaysAreFaithful(p: Params, clock: int, actions: seq<Action>, j: nat) returns (i: nat)
    requires var h := Run(p, clock, actions).history; j < |h| && h[j].ReplayEvent?
    ensures var h := Run(p, clock, actions).history;
            && i < j && h[i] == CommitEvent(h[j].key, h[j].messageId)
            && (forall l :: i < l < j ==> !Drops(h[l], h[j].key))
            && (forall l :: i < l < j && h[l].CommitEvent? ==> h[l].key != h[j].key)
  {
    hide Run;
    RunKeepsInv(p, clock, actions);
    var h := Run(p, clock, actions).history;
    i := LastCommitWasMade(h, j, h[j].key);
    forall l | i < l < j && h[l].CommitEvent?
      ensures h[l].key != h[j].key
    {
      if h[l].key == h[j].key {
        CommitRemains(h, i, l);
      }
    }
  }

  /** Completing after a commit never fails: the pending entry is still there. */
  lemma CompletionCannotFail(p: Params, clock: int, actions: seq<Action>, id: nat)
    requires id in Run(p, clock, actions).clients
    ensures var s := Run(p, clock, actions);
            && !s.clients[id].stage.Broken?
            && (s.clients[id].stage.Committed? ==> I.IsPending(s.cache, s.clients[id].request.key))
  {
    hide Run;
    RunKeepsInv(p, clock, actions);
  }

  lemma WithoutOwner(clients: Clients, id: nat)
    requires id in clients && KeyClaim(clients[id].stage) == NoKey && !HoldsSlot(clients[id].stage)
             && QuotaOf(clients[id].stage).None?
    ensures SlotHolders(clients - {id}) == SlotHolders(clients)
    ensures Charged(clients - {id}) == Charged(clients)
  {
  }

  /**
   A request that failed, was replayed or has not begun owns nothing: the same state without it
   is fully accounted for, so no pending entry, slot or quota is its own.
   */
  lemma EndedWithoutCommitOwnsNothing(p: Params, clock: int, actions: seq<Action>, id: nat)
    requires var s := Run(p, clock, actions);
             id in s.clients && (s.clients[id].stage.Failed? || s.clients[id].stage.Replayed?
                                 || s.clients[id].stage.Arrived?)
    ensures var s := Run(p, clock, actions); Inv(p, s.(clients := s.clients - {id}))
  {
    hide Run;
    RunKeepsInv(p, clock, actions);
    var s := Run(p, clock, actions);
    WithoutOwner(s.clients, id);
    hide SlotHolders, Charged, CacheInv, Q.Accounted, Q.Numbered, R.Exact;
    CacheWithoutOwner(p, s.cache, s.history, s.clients, id);
  }

  lemma CacheWithoutOwner(p: Params, cache: I.Entries, history: seq<Event>, clients: Clients, id: nat)
    requires CacheInv(p, cache, history, clients) && id in clients && KeyClaim(clients[id].stage) == NoKey
    ensures CacheInv(p, cache, history, clients - {id})
  {
    hide KeyClaim, Sound, LastCommit;
    assert forall i, k :: Holds(clients - {id}, i, k) <==> Holds(clients, i, k);
    forall k | I.IsPending(cache, k)
      ensures exists i :: Holds(clients - {id}, i, k)
    {
      var i :| Holds(clients, i, k);
      assert Holds(clients - {id}, i, k);
    }
  }

  /** When every request has ended: nothing is pending, and quota is charged for accepted requests alone. */
  lemma NothingLeaks(p: Params, clock: int, actions: seq<Action>)
    requires forall id :: id in Run(p, clock, actions).clients ==> Ended(Run(p, clock, actions).clients[id].stage)
    ensures var s := Run(p, clock, actions);
            && (forall k :: k in s.cache ==> s.cache[k].status.Queued?)
            && Q.Accounted(s.queue, p.capacity, s.workerSlots)
            && R.Exact(s.counters, Charged(s.clients), s.clock)
            && (forall id :: id in Charged(s.clients) ==> s.clients[id].stage.Done?)
  {
    hide Run;
    RunKeepsInv(p, clock, actions);
    var s := Run(p, clock, actions);
    assert SlotHolders(s.clients) == {};
    assert forall i, k :: !Holds(s.clients, i, k);
    assert forall k :: k in s.cache ==> !I.IsPending(s.cache, k);
  }

  lemma ActionGrowsLog(p: Params, s: State, a: Action)
    ensures s.log <= Apply(p, s, a).log
  {
    hide ClientStep, Q.TakeReady, Q.ReserveSlot, Q.CommitSlot, Q.CloseQueue;
    match a
    case Arrive(_, _) =>
    case Tick(_) =>
    case WorkerTake =>
    case WorkerReserve =>
    case WorkerCommit(_, _) =>
    case Close =>
    case _ =>
      if a.id in s.clients {
        ClientStepGrowsLog(p, s, a.id, a);
      }
  }

  /** What was logged at some point of a run is in the log at every later one, at the same place. */
  lemma {:induction false} LogOnlyGrows(p: Params, clock: int, actions: seq<Action>, k: nat)
    requires k <= |actions|
    ensures Run(p, clock, actions[..k]).log <= Run(p, clock, actions).log
  {
    hide Apply;
    if k == |actions| {
      assert actions[..k] == actions;
    } else {
      var n := |actions| - 1;
      LogOnlyGrows(p, clock, actions[..n], k);
      assert actions[..n][..k] == actions[..k];
      ActionGrowsLog(p, Run(p, clock, actions[..n]), actions[n]);
    }
  }

  /**
   Over any run: once a refused request has logged its failure, the failed record stands behind the queued
   one for good.
   */
  lemma RefusedCommitIsLogged(p: Params, clock: int, actions: seq<Action>, k: nat, id: nat) returns (i: nat, j: nat)
    requires k < |actions| && actions[k] == LogRefused(id, true)
    requires id in Run(p, clock, actions[..k]).clients && Run(p, clock, actions[..k]).clients[id].stage.Refused?
    ensures var Client(request, stage) := Run(p, clock, actions[..k]).clients[id];
            var log := Run(p, clock, actions).log;
            && i < j < |log|
            && log[i] == request.draft.(messageId := stage.messageId, status := StatusQueued)
            && log[j] == request.draft.(messageId := stage.messageId, status := StatusFailed,
                                        errorCode := InternalError)
  {
    hide Apply, Queued;
    var s := Run(p, clock, actions[..k]);
    var Client(request, stage) := s.clients[id];
    RunLogsBeforeCommit(p, clock, actions[..k]);
    assert ClientLogged(s.clients[id], s.log);
    LoggedRecords(p, s, id);
    i :| i < |s.log| && s.log[i] == Queued(request, stage.messageId);
    j := |s.log|;
    assert actions[..k + 1][..k] == actions[..k];
    assert Run(p, clock, actions[..k + 1]) == Apply(p, s, actions[k]);
    LogOnlyGrows(p, clock, actions, k + 1);
  }

  lemma LoggedRecords(p: Params, s: State, id: nat)
    requires id in s.clients && s.clients[id].stage.Refused?
    ensures var Client(request, stage) := s.clients[id];
            && Queued(request, stage.messageId)
               == request.draft.(messageId := stage.messageId, status := StatusQueued)
            && Apply(p, s, LogRefused(id, true)).log
               == s.log + [request.draft.(messageId := stage.messageId, status := StatusFailed,
                                          errorCode := InternalError)]
  {
  }

  predicate ClientLogged(c: Client, log: seq<Message>) {
    c.stage.Logged? || c.stage.Refused? ==> Queued(c.request, c.stage.messageId) in log
  }

  /** A request that has logged and not yet committed has its queued record in the log. */
  ghost predicate LoggedFirst(s: State) {
    forall id :: id in s.clients ==> ClientLogged(s.clients[id], s.log)
  }

  lemma StepsKeepLog(p: Params, s: State, id: nat, at: int, messageId: string)
    requires id in s.clients
    ensures SameLog(s, ReserveKeyStep(p, s, id), id) && SameLog(s, ReserveSlotStep(p, s, id), id)
            && SameLog(s, AllowQuotaStep(s, id), id)
    ensures SameLog(s, CommitStep(s, id, at, messageId), id) && SameLog(s, CompleteStep(s, id, at, messageId), id)
  {
    hide I.ReserveEffect, I.Live, I.CompleteEffect, Q.ReserveSlot, Q.CommitSlot, R.AllowEffect, Queued;
  }

  predicate SameLog(s: State, t: State, id: nat) {
    t.log == s.log && id in t.clients && t.clients == s.clients[id := t.clients[id]]
  }

  /** Only the two logging steps change the log. */
  lemma QuietStepKeepsLog(p: Params, s: State, id: nat, a: Action)
    requires id in s.clients && !a.LogQueued? && !a.LogRefused?
    ensures SameLog(s, ClientStep(p, s, id, a), id)
  {
    hide ReserveKeyStep, ReserveSlotStep, AllowQuotaStep, CommitStep, CompleteStep, I.ReleaseEffect, Q.ReturnSlot,
         R.RollbackEffect;
    var stage := s.clients[id].stage;
    var known := stage.Logged? || stage.Committed?;
    StepsKeepLog(p, s, id, if known then stage.at else 0, if known then stage.messageId else "");
  }

  lemma ClientStepGrowsLog(p: Params, s: State, id: nat, a: Action)
    requires id in s.clients
    ensures var t := ClientStep(p, s, id, a);
            s.log <= t.log && id in t.clients && t.clients == s.clients[id := t.clients[id]]
  {
    if a.LogQueued? || a.LogRefused? {
      hide ReserveKeyStep, ReserveSlotStep, AllowQuotaStep, CommitStep, CompleteStep, I.ReleaseEffect, Q.ReturnSlot,
           R.RollbackEffect,
           Queued, CommitFailed, Fresh;
      assert s.clients[id := s.clients[id]] == s.clients;
    } else {
      hide ClientStep;
      QuietStepKeepsLog(p, s, id, a);
    }
  }

  lemma ClientStepLogs(p: Params, s: State, id: nat, a: Action)
    requires id in s.clients && ClientLogged(s.clients[id], s.log)
    ensures var t := ClientStep(p, s, id, a); id in t.clients && ClientLogged(t.clients[id], t.log)
  {
    hide I.ReserveEffect, I.Live, I.CompleteEffect, I.ReleaseEffect, Q.ReserveSlot, Q.CommitSlot, Q.ReturnSlot,
         R.AllowEffect, R.RollbackEffect, Queued, CommitFailed, Fresh;
  }

  lemma ActionLogs(p: Params, s: State, a: Action)
    requires LoggedFirst(s)
    ensures LoggedFirst(Apply(p, s, a))
  {
    hide ClientLogged, ClientStep, Q.TakeReady, Q.ReserveSlot, Q.CommitSlot, Q.CloseQueue;
    match a
    case Arrive(id, request) => NewClientLogged(request, s.log);
    case Tick(_) =>
    case WorkerTake =>
    case WorkerReserve =>
    case WorkerCommit(_, _) =>
    case Close =>
    case _ =>
      if a.id in s.clients {
        ClientStepGrowsLog(p, s, a.id, a);
        ClientStepLogs(p, s, a.id, a);
        var t := Apply(p, s, a);
        forall id | id in t.clients
          ensures ClientLogged(t.clients[id], t.log)
        {
          if id != a.id {
            LoggedInLonger(s.clients[id], s.log, t.log);
          }
        }
      }
  }

  lemma NewClientLogged(request: SendRequest, log: seq<Message>)
    ensures ClientLogged(Client(request, Arrived), log)
  {
  }

  lemma LoggedInLonger(c: Client, log: seq<Message>, longer: seq<Message>)
    requires ClientLogged(c, log) && log <= longer
    ensures ClientLogged(c, longer)
  {
    assert forall m :: m in log ==> m in longer;
  }

  lemma {:induction false} RunLogsBeforeCommit(p: Params, clock: int, actions: seq<Action>)
    ensures LoggedFirst(Run(p, clock, actions))
  {
    hide Apply;
    if actions != [] {
      RunLogsBeforeCommit(p, clock, actions[..|actions| - 1]);
      ActionLogs(p, Run(p, clock, actions[..|actions| - 1]), actions[|actions| - 1]);
    }
  }

  // ---------- what undoing leaves behind ----------

  /** Reserving and releasing a key costs the cache its expired entries and at most the oldest queued one. */
  lemma ReserveThenRelease(entries: I.Entries, limit: nat, ttl: nat, key: I.Key, fingerprint: string, now: int)
    requires |entries| <= limit
    requires I.ReserveEffect(entries, limit, ttl, key, fingerprint, now).1 == I.Reserved
    ensures var live := I.Live(entries, now, ttl);
            var after := I.ReleaseEffect(I.ReserveEffect(entries, limit, ttl, key, fingerprint, now).0, key);
            if |live| < limit then after == live
            else exists o :: I.IsOldestQueued(o, live) && after == live - {o}
  {
    hide I.ReserveEffect, I.HasQueued, I.Live, I.InsertsOne, I.IsOldestQueued;
    I.ReserveIsAllOrNothing(entries, limit, ttl, key, fingerprint, now);
    I.PendingAfterReserve(entries, limit, ttl, key, fingerprint, now);
    InsertThenRemove(I.Live(entries, now, ttl), I.ReserveEffect(entries, limit, ttl, key, fingerprint, now).0, limit,
                     key, I.Entry("", fingerprint, I.Pending, now));
  }

  lemma InsertThenRemove(live: I.Entries, after: I.Entries, limit: nat, key: I.Key, entry: I.Entry)
    requires key !in live && entry.status.Pending? && I.InsertsOne(live, after, limit, key, entry)
    ensures if |live| < limit then after - {key} == live
            else exists o :: I.IsOldestQueued(o, live) && after - {key} == live - {o}
  {
    I.GrownByPending(live, key, entry);
    if |live| < limit {
      assert after - {key} == live;
    } else {
      var o :| o != key && I.IsOldestQueued(o, live[key := entry]) && after == (live - {o})[key := entry];
      assert after - {key} == live - {o};
      assert I.IsOldestQueued(o, live);
    }
  }

  /** Rolling back an allowed decision gives every counter back its value. */
  lemma AllowThenRollback(counters: R.Counters, request: R.Request, now: int, key: R.CounterKey)
    requires R.WellKept(counters, now) && R.AllowEffect(counters, request, now).1.Allowed?
    ensures var (after, decision) := R.AllowEffect(counters, request, now);
            R.CountOf(R.RollbackEffect(after, decision), key) == R.CountOf(R.Live(counters, now), key)
  {
    R.LiveIsWellKept(counters, now);
    R.RulesAreDistinct(request);
    hide R.Live, R.Rules, R.KeyOf, R.FirstExceeded, R.FirstBadRule, R.WellKept;
    var live := R.Live(counters, now);
    R.ConsumeCounts(live, request, R.Rules(request), now, key);
    R.UncountAllCounts(R.Consume(live, request, R.Rules(request), now), request, R.Rules(request), now, now, key);
    StoredCountsArePositive(live, now, key);
  }

  lemma StoredCountsArePositive(counters: R.Counters, now: int, key: R.CounterKey)
    requires R.WellKept(counters, now)
    ensures R.CountOf(counters, key) >= 0
  {
  }
}
