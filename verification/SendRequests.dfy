/**
 The send handler over the real structures: it takes a key, a slot and quota in turn, and
 on every failing exit gives back what its flags say it still holds, last taken first.
 Each call it makes is one action of the admission protocol.
 */
module SendRequests {
  import opened Wrappers
  import opened Domain
  import opened Admission
  import I = Idempotency
  import Q = DelayQueue
  import R = RateLimiter
  import Safety = AdmissionSafety
  import Expiry

  datatype Rejection =
    | KeyRefused(reason: I.Outcome)
    | RecipientRefused
    | SlotRefused(cause: Q.ReserveOutcome)
    | RateLimited(decision: R.Decision)
    | NoMessageId
    | NotLogged
    | QueueClosed
    | NotCompleted

  datatype SendOutcome = Accepted(messageId: string) | ReplayOf(messageId: string) | Rejected(rejection: Rejection)

  /**
   What a request meets on its way: whether its recipient is suppressed or has no route, whether
   ids and log records can be written, whether the queue is closed before its commit, and the time
   of each timed call.
   */
  datatype Circumstances = Circumstances(
    recipientOk: bool, idOk: bool, logOk: bool, closes: bool, failureLogOk: bool,
    reservedAt: int, allowedAt: int, committedAt: int, completedAt: int)

  predicate Nondecreasing(clock: int, c: Circumstances) {
    clock <= c.reservedAt <= c.allowedAt <= c.committedAt <= c.completedAt
  }

  /** Why a request that holds its key is turned away, if it is. */
  function AdmissionAnswer(p: Params, queue: Q.QueueState, counters: R.Counters, request: SendRequest,
                           c: Circumstances): Option<Rejection> {
    var slot := Q.ReserveSlot(queue, p.capacity).1;
    var decision := R.AllowEffect(counters, request.quota, c.allowedAt).1;
    if !c.recipientOk then Some(RecipientRefused)
    else if slot != Q.SlotReserved then Some(SlotRefused(slot))
    else if !decision.Allowed? then Some(RateLimited(decision))
    else if !c.idOk then Some(NoMessageId)
    else if !c.logOk then Some(NotLogged)
    else if c.closes then Some(QueueClosed)
    else None
  }

  /** The answer to a request that no other request or worker interrupts. */
  ghost function Answer(p: Params, s: State, request: SendRequest, c: Circumstances, messageId: string): SendOutcome {
    var key := I.ReserveEffect(s.cache, p.cacheLimit, p.ttl, request.key, request.fingerprint, c.reservedAt).1;
    if key.Replayed? then ReplayOf(key.messageId)
    else if key != I.Reserved then Rejected(KeyRefused(key))
    else
      var rejection := AdmissionAnswer(p, s.queue, s.counters, request, c);
      if rejection.Some? then Rejected(rejection.value) else Accepted(messageId)
  }

  /** An action of the request itself, or the clock or the closing of the queue beside it. */
  predicate OwnAction(id: nat, a: Action) {
    match a
    case Tick(_) => true
    case WorkerTake => false
    case WorkerReserve => false
    case WorkerCommit(_, _) => false
    case Close => true
    case _ => a.id == id
  }

  ghost predicate OwnActions(id: nat, actions: seq<Action>) {
    forall i :: 0 <= i < |actions| ==> OwnAction(id, actions[i])
  }

  /** How the answer to the caller reflects where the request ended in the protocol. */
  predicate Answers(outcome: SendOutcome, stage: Stage) {
    match outcome
    case Accepted(messageId) => stage.Done? && stage.messageId == messageId
    case ReplayOf(messageId) => stage == Replayed(messageId)
    case Rejected(_) => stage == Failed
  }

  lemma RunStep(p: Params, clock: int, run: seq<Action>, a: Action)
    ensures Run(p, clock, run + [a]) == Apply(p, Run(p, clock, run), a)
  {
    hide Apply;
    assert (run + [a])[..|run|] == run;
  }

  /** The protocol run so far of one request: what preceded it, and its own actions. */
  ghost predicate Extends(p: Params, clock: int, id: nat, before: seq<Action>, run: seq<Action>, s: State) {
    && before <= run && OwnActions(id, run[|before|..])
    && s == Run(p, clock, run)
  }

  lemma ExtendsBy(p: Params, clock: int, id: nat, before: seq<Action>, run: seq<Action>, s: State, a: Action)
    requires Extends(p, clock, id, before, run, s) && OwnAction(id, a)
    ensures Extends(p, clock, id, before, run + [a], Apply(p, s, a))
  {
    hide Run, Apply, OwnAction;
    RunStep(p, clock, run, a);
    assert (run + [a])[|before|..] == run[|before|..] + [a];
  }

  /** The request is in the protocol, at a stage. */
  ghost predicate Stands(s: State, id: nat, request: SendRequest, stage: Stage) {
    id in s.clients && s.clients[id] == Client(request, stage)
  }

  /** The structures see no difference between two protocol states. */
  ghost predicate SameStructures(s: State, t: State) {
    t.cache == s.cache && t.queue == s.queue && t.counters == s.counters && t.log == s.log
  }

  lemma Begin(p: Params, id: nat, request: SendRequest, now: int, clock: int, before: seq<Action>)
    returns (run: seq<Action>, s: State)
    requires id !in Run(p, clock, before).clients && Run(p, clock, before).clock <= now
    ensures Extends(p, clock, id, before, run, s) && Stands(s, id, request, Arrived)
    ensures SameStructures(Run(p, clock, before), s) && s.clock == now
  {
    hide Run;
    s := Run(p, clock, before);
    ExtendsBy(p, clock, id, before, before, s, Tick(now));
    ExtendsBy(p, clock, id, before, before + [Tick(now)], Apply(p, s, Tick(now)), Arrive(id, request));
    run, s := before + [Tick(now)] + [Arrive(id, request)], Apply(p, Apply(p, s, Tick(now)), Arrive(id, request));
  }

  lemma Wait(p: Params, id: nat, request: SendRequest, clock: int, before: seq<Action>, run0: seq<Action>, s0: State,
             now: int, stage: Stage)
    returns (run: seq<Action>, s: State)
    requires Extends(p, clock, id, before, run0, s0) && Stands(s0, id, request, stage) && s0.clock <= now
    ensures Extends(p, clock, id, before, run, s) && Stands(s, id, request, stage) && SameStructures(s0, s)
            && s.clock == now
  {
    hide Run, Extends;
    ExtendsBy(p, clock, id, before, run0, s0, Tick(now));
    run, s := run0 + [Tick(now)], Apply(p, s0, Tick(now));
  }

  /** An exit that takes nothing and gives nothing back yet. */
  lemma Quiet(p: Params, id: nat, request: SendRequest, clock: int, before: seq<Action>, run0: seq<Action>, s0: State,
              a: Action, from: Stage)
    returns (run: seq<Action>, s: State)
    requires Extends(p, clock, id, before, run0, s0) && Stands(s0, id, request, from)
    requires (a == RejectEarly(id) && from == Stage.Reserved) || (a == FailBeforeLog(id) && from.Limited?)
    ensures Extends(p, clock, id, before, run, s) && SameStructures(s0, s) && s.clock == s0.clock
    ensures Stands(s, id, request, if from.Limited? then UnwindQuota(from.at, true) else UnwindKey)
  {
    hide Run, Extends;
    ExtendsBy(p, clock, id, before, run0, s0, a);
    run, s := run0 + [a], Apply(p, s0, a);
  }

  lemma Logging(p: Params, id: nat, request: SendRequest, s: State, at: int, messageId: string) returns (t: State)
    requires Stands(s, id, request, Limited(at)) && Fresh(s, messageId)
    ensures t == Apply(p, s, LogQueued(id, messageId)) && Stands(t, id, request, Logged(at, messageId))
    ensures SameStructures(s.(log := s.log + [Queued(request, messageId)]), t) && t.clock == s.clock
  {
    hide Fresh, Queued;
    t := Apply(p, s, LogQueued(id, messageId));
  }

  lemma Committing(p: Params, id: nat, request: SendRequest, s: State, at: int, messageId: string) returns (t: State)
    requires Stands(s, id, request, Logged(at, messageId))
    ensures t == Apply(p, s, Commit(id)) && t.clock == s.clock
    ensures var q := Q.CommitSlot(s.queue, QueueTask(Queued(request, messageId), 1, 0), 0, s.clock);
            SameStructures(s.(queue := q), t)
    ensures Stands(t, id, request, if s.queue.closed then Refused(at, messageId) else Committed(at, messageId))
  {
    hide Q.CommitSlot, Queued;
    t := Apply(p, s, Commit(id));
  }

  lemma Refusing(p: Params, id: nat, request: SendRequest, s: State, at: int, messageId: string, logged: bool)
    returns (t: State)
    requires Stands(s, id, request, Refused(at, messageId))
    ensures t == Apply(p, s, LogRefused(id, logged)) && t.clock == s.clock
    ensures SameStructures(s.(log := if logged then s.log + [CommitFailed(request, messageId)] else s.log), t)
    ensures Stands(t, id, request, UnwindQuota(at, false))
  {
    hide CommitFailed;
    t := Apply(p, s, LogRefused(id, logged));
  }

  /** Where reserving the key leads: the outcome decides the stage. */
  function StageAfterKey(outcome: I.Outcome): Stage {
    if outcome == I.Reserved then Stage.Reserved
    else if outcome.Replayed? then Stage.Replayed(outcome.messageId)
    else Failed
  }

  lemma Keying(p: Params, id: nat, request: SendRequest, s: State) returns (t: State)
    requires Stands(s, id, request, Arrived)
    ensures t == Apply(p, s, ReserveKey(id)) && t.clock == s.clock
    ensures var (after, outcome) := I.ReserveEffect(s.cache, p.cacheLimit, p.ttl, request.key, request.fingerprint,
                                                    s.clock);
            SameStructures(s.(cache := after), t) && Stands(t, id, request, StageAfterKey(outcome))
  {
    hide I.ReserveEffect, I.Live;
    t := Apply(p, s, ReserveKey(id));
  }

  lemma Closing(p: Params, id: nat, request: SendRequest, s: State, stage: Stage) returns (t: State)
    requires Stands(s, id, request, stage)
    ensures t == Apply(p, s, Close) && Stands(t, id, request, stage)
    ensures SameStructures(s.(queue := Q.CloseQueue(s.queue)), t) && t.clock == s.clock
  {
    t := Apply(p, s, Close);
  }

  lemma OwnReleases(id: nat)
    ensures OwnAction(id, RollbackQuota(id)) && OwnAction(id, ReleaseSlot(id)) && OwnAction(id, ReleaseKey(id))
  {
  }

  lemma FreshInSameLog(s: State, t: State, messageId: string)
    requires s.log == t.log && Fresh(s, messageId)
    ensures Fresh(t, messageId) && messageId != ""
  {
  }

  /** Behind the ready tasks stands one more: the message, queued, with its first attempt due at once. */
  predicate FirstAttemptQueued(before: Q.QueueState, after: Q.QueueState, request: SendRequest, messageId: string,
                               now: int)
  {
    var message := request.draft.(messageId := messageId, status := StatusQueued);
    after == before.(nextSeq := before.nextSeq + 1,
                     ready := before.ready + [Q.Item(QueueTask(message, 1, now), now, before.nextSeq + 1)])
  }

  lemma CommitQueuesFirst(q: Q.QueueState, request: SendRequest, messageId: string, now: int)
    requires !q.closed
    ensures FirstAttemptQueued(q, Q.CommitSlot(q, QueueTask(Queued(request, messageId), 1, 0), 0, now), request,
                               messageId, now)
  {
  }

  /** The key's entry is the request's own from an earlier time, completed as message m, with lifetime left. */
  predicate StandsFor(entries: I.Entries, ttl: nat, request: SendRequest, now: int, m: string) {
    && request.key in entries
    && entries[request.key].status == I.Queued
    && entries[request.key].fingerprint == request.fingerprint
    && entries[request.key].messageId == m
    && now < entries[request.key].createdAt + ttl
  }

  lemma AnswerReplays(p: Params, clock: int, before: seq<Action>, request: SendRequest, c: Circumstances,
                      messageId: string)
    ensures var s := Run(p, clock, before);
            forall m :: Answer(p, s, request, c, messageId) == ReplayOf(m) <==>
                        StandsFor(s.cache, p.ttl, request, c.reservedAt, m)
  {
    hide Run, I.ReserveEffect, AdmissionAnswer;
    Safety.RunKeepsInv(p, clock, before);
    var s := Run(p, clock, before);
    I.ReserveAnswers(s.cache, p.cacheLimit, p.ttl, request.key, request.fingerprint, c.reservedAt);
  }

  /** A request is accepted exactly when nothing stands in its way. */
  lemma AcceptedIff(p: Params, clock: int, before: seq<Action>, request: SendRequest, c: Circumstances,
                    messageId: string)
    ensures var s := Run(p, clock, before);
            Answer(p, s, request, c, messageId) == Accepted(messageId) <==>
            && !(request.key in s.cache && s.cache[request.key].status == I.Pending)
            && !(request.key in s.cache && c.reservedAt < s.cache[request.key].createdAt + p.ttl)
            && !(|s.cache| == p.cacheLimit && I.AllPending(s.cache))
            && c.recipientOk
            && !s.queue.closed && s.queue.pending < p.capacity
            && R.AllowEffect(s.counters, request.quota, c.allowedAt).1.Allowed?
            && c.idOk && c.logOk && !c.closes
  {
    hide Run, I.ReserveEffect, R.AllowEffect;
    Safety.RunKeepsInv(p, clock, before);
    var s := Run(p, clock, before);
    I.ReserveAnswers(s.cache, p.cacheLimit, p.ttl, request.key, request.fingerprint, c.reservedAt);
  }

  lemma AnswerOf(p: Params, s: State, request: SendRequest, c: Circumstances, messageId: string)
    ensures var key := I.ReserveEffect(s.cache, p.cacheLimit, p.ttl, request.key, request.fingerprint, c.reservedAt).1;
            var rejection := AdmissionAnswer(p, s.queue, s.counters, request, c);
            Answer(p, s, request, c, messageId) ==
            if key.Replayed? then ReplayOf(key.messageId)
            else if key != I.Reserved then Rejected(KeyRefused(key))
            else if rejection.Some? then Rejected(rejection.value) else Accepted(messageId)
  {
    hide I.ReserveEffect, AdmissionAnswer;
  }

  /** A committed request still finds its own pending entry. */
  lemma CommittedEntry(p: Params, clock: int, run: seq<Action>, id: nat, request: SendRequest, at: int,
                       messageId: string)
    requires Stands(Run(p, clock, run), id, request, Committed(at, messageId))
    ensures var cache := Run(p, clock, run).cache;
            I.IsPending(cache, request.key) && cache[request.key].fingerprint == request.fingerprint
  {
    hide Run, Expiry.AllMatched;
    Expiry.RunMatches(p, clock, run);
    Expiry.MatchedOf(Run(p, clock, run), id);
  }

  lemma QueuedRecord(request: SendRequest, messageId: string)
    ensures Queued(request, messageId) == request.draft.(messageId := messageId, status := StatusQueued)
  {
  }

  lemma FailedRecord(request: SendRequest, messageId: string)
    ensures CommitFailed(request, messageId) ==
            request.draft.(messageId := messageId, status := StatusFailed, errorCode := InternalError)
  {
  }

  class Gateway {
    const cache: I.IdempotencyCache
    const queue: Q.MemoryQueue
    const limiter: R.FixedWindowRateLimiter
    var log: seq<Message>

    constructor (cache: I.IdempotencyCache, queue: Q.MemoryQueue, limiter: R.FixedWindowRateLimiter)
      ensures this.cache == cache && this.queue == queue && this.limiter == limiter && log == []
    {
      this.cache, this.queue, this.limiter, log := cache, queue, limiter, [];
    }

    ghost function Settings(): Params {
      Params(cache.limit, cache.ttl, queue.capacity)
    }

    /** The structures hold what a protocol state says. */
    ghost predicate Mirrors(s: State)
      reads this, cache, queue, limiter
    {
      cache.entries == s.cache && queue.State() == s.queue && limiter.counters == s.counters && log == s.log
    }

    method TakeKey(id: nat, request: SendRequest, now: int, ghost s: State)
      returns (reservation: I.IdempotencyReservation?, outcome: I.Outcome, ghost t: State)
      requires Mirrors(s) && Stands(s, id, request, Arrived) && now == s.clock
      modifies cache
      ensures t == Apply(Settings(), s, ReserveKey(id)) && Mirrors(t) && t.clock == now
      ensures Stands(t, id, request, StageAfterKey(outcome))
      ensures outcome == I.ReserveEffect(s.cache, cache.limit, cache.ttl, request.key, request.fingerprint, now).1
      ensures reservation != null <==> outcome == I.Reserved
      ensures reservation != null ==>
              fresh(reservation) && !reservation.used && reservation.cache == cache && reservation.key == request.key
    {
      hide Apply, I.ReserveEffect, I.IdempotencyCache.Valid;
      reservation, outcome := cache.Reserve(request.key, request.fingerprint, now);
      t := Keying(Settings(), id, request, s);
    }

    method TakeSlot(id: nat, request: SendRequest, ghost s: State)
      returns (reservation: Q.QueueReservation?, outcome: Q.ReserveOutcome, ghost t: State)
      requires queue.Valid() && Mirrors(s) && Stands(s, id, request, Stage.Reserved)
      modifies queue
      ensures queue.Valid()
      ensures t == Apply(Settings(), s, ReserveSlot(id)) && Mirrors(t) && t.clock == s.clock
      ensures Stands(t, id, request, if reservation != null then Slotted else UnwindKey)
      ensures outcome == Q.ReserveSlot(s.queue, queue.capacity).1
      ensures reservation != null <==> outcome == Q.SlotReserved
      ensures reservation != null ==>
              fresh(reservation) && Unspent(reservation) && !queue.closed && t.counters == s.counters
      ensures reservation != null ==> queue.State() == old(queue.State()).(pending := old(queue.pending) + 1)
    {
      hide Q.MemoryQueue.Valid;
      reservation, outcome := queue.Reserve();
      t := Apply(Settings(), s, ReserveSlot(id));
    }

    ghost predicate Unspent(reservation: Q.QueueReservation)
      reads queue, reservation
    {
      reservation.queue == queue && reservation in queue.reservations && !reservation.used
    }

    method TakeQuota(id: nat, request: SendRequest, now: int, ghost s: State)
      returns (decision: R.Decision, ghost t: State)
      requires Mirrors(s) && Stands(s, id, request, Slotted) && now == s.clock
      modifies limiter
      ensures t == Apply(Settings(), s, AllowQuota(id)) && Mirrors(t) && t.clock == now
      ensures Stands(t, id, request, if decision.Allowed? then Limited(now) else UnwindSlot)
      ensures decision == R.AllowEffect(s.counters, request.quota, now).1
      ensures decision.Allowed? ==> decision == QuotaKeys(request.quota, now)
    {
      hide R.Live, R.Rules, R.FirstBadRule, R.FirstExceeded, R.Consume, R.Keys, R.CheckOf;
      decision := limiter.Allow(request.quota, now);
      t := Apply(Settings(), s, AllowQuota(id));
    }

    /** A commit refused by a closed queue is logged as a failed message behind the queued one. */
    method CommitInitialQueueTask(id: nat, request: SendRequest, reservation: Q.QueueReservation, ghost at: int,
                                  messageId: string,
                                  now: int, failureLogOk: bool, ghost s: State)
      returns (ok: bool, ghost committed: State, ghost t: State)
      requires queue.Valid() && Unspent(reservation)
      requires Mirrors(s) && Stands(s, id, request, Logged(at, messageId)) && now == s.clock
      modifies reservation, queue, this`log
      ensures queue.Valid() && reservation.used && reservation.queue == queue && reservation in queue.reservations
      ensures committed == Apply(Settings(), s, Commit(id)) && committed.clock == now
      ensures t == if ok then committed else Apply(Settings(), committed, LogRefused(id, failureLogOk))
      ensures Mirrors(t) && t.clock == now
      ensures ok <==> !old(queue.closed)
      ensures Stands(t, id, request, if ok then Committed(at, messageId) else UnwindQuota(at, false))
      ensures ok ==> log == old(log) && FirstAttemptQueued(old(queue.State()), queue.State(), request, messageId, now)
      ensures !ok && failureLogOk ==>
                log == old(log) + [request.draft.(messageId := messageId, status := StatusFailed,
                                                  errorCode := InternalError)]
      ensures !ok && !failureLogOk ==> log == old(log)
    {
      if !queue.closed {
        CommitQueuesFirst(queue.State(), request, messageId, now);
      }
      FailedRecord(request, messageId);
      hide Apply, Q.CommitSlot, Q.MemoryQueue.Valid, FirstAttemptQueued, Queued, CommitFailed, Q.Items;
      var outcome := reservation.CommitDelayed(QueueTask(Queued(request, messageId), 1, 0), 0, now);
      committed := Committing(Settings(), id, request, s, at, messageId);
      t := committed;
      ok := outcome == Q.Committed;
      if !ok {
        if failureLogOk {
          log := log + [CommitFailed(request, messageId)];
        }
        t := Refusing(Settings(), id, request, committed, at, messageId, failureLogOk);
      }
    }

    /** The stage that the flags of a failed request stand for. */
    ghost predicate Owes(s: State, id: nat, request: SendRequest, at: int, slot: Q.QueueReservation?,
                         decision: Option<R.Decision>)
      reads queue, slot
    {
      if decision.Some? && decision.value.Allowed? then
        && slot != null && slot.queue == queue && slot in queue.reservations
        && decision.value == QuotaKeys(request.quota, at) && Stands(s, id, request, UnwindQuota(at, !slot.used))
      else if slot != null then Unspent(slot) && Stands(s, id, request, UnwindSlot)
      else Stands(s, id, request, UnwindKey)
    }

    /** Everything between the key and the completion; a rejection leaves the deferred releases to do. */
    method Admit(id: nat, request: SendRequest, c: Circumstances, messageId: string,
                 ghost clock: int, ghost before: seq<Action>, ghost run0: seq<Action>, ghost s0: State)
      returns (rejection: Option<Rejection>, slot: Q.QueueReservation?, decision: Option<R.Decision>,
               ghost run: seq<Action>, ghost s: State)
      requires queue.Valid() && Mirrors(s0) && Stands(s0, id, request, Stage.Reserved)
      requires s0.clock == c.reservedAt && Nondecreasing(s0.clock, c)
      requires Extends(Settings(), clock, id, before, run0, s0) && Fresh(s0, messageId)
      modifies queue, limiter, this`log
      ensures queue.Valid() && Mirrors(s) && s.clock <= c.completedAt && Extends(Settings(), clock, id, before, run, s)
      ensures rejection == AdmissionAnswer(Settings(), s0.queue, s0.counters, request, c)
      ensures slot != null ==> fresh(slot)
      ensures rejection.None? ==> Stands(s, id, request, Committed(c.allowedAt, messageId))
      ensures rejection.Some? ==> Owes(s, id, request, c.allowedAt, slot, decision)
      ensures rejection.None? ==>
                && log == old(log) + [request.draft.(messageId := messageId, status := StatusQueued)]
                && FirstAttemptQueued(old(queue.State()).(pending := old(queue.pending) + 1), queue.State(), request,
                                      messageId, c.committedAt)
    {
      hide FirstAttemptQueued, Apply, Run, Extends, Q.MemoryQueue.Valid, Queued, QuotaKeys, Q.ReserveSlot,
           R.AllowEffect, Q.Items;
      run, s, slot, decision := run0, s0, null, None;
      if !c.recipientOk {
        run, s := Quiet(Settings(), id, request, clock, before, run, s, RejectEarly(id), Stage.Reserved);
        return Some(RecipientRefused), slot, decision, run, s;
      }
      var slotOutcome;
      ghost var t;
      slot, slotOutcome, t := TakeSlot(id, request, s);
      ExtendsBy(Settings(), clock, id, before, run, s, ReserveSlot(id));
      run, s := run + [ReserveSlot(id)], t;
      if slot == null {
        return Some(SlotRefused(slotOutcome)), slot, decision, run, s;
      }
      run, s := Wait(Settings(), id, request, clock, before, run, s, c.allowedAt, Slotted);
      var allowed;
      allowed, t := TakeQuota(id, request, c.allowedAt, s);
      decision := Some(allowed);
      ExtendsBy(Settings(), clock, id, before, run, s, AllowQuota(id));
      run, s := run + [AllowQuota(id)], t;
      if !allowed.Allowed? {
        return Some(RateLimited(allowed)), slot, decision, run, s;
      }
      if !c.idOk || !c.logOk {
        run, s := Quiet(Settings(), id, request, clock, before, run, s, FailBeforeLog(id), Limited(c.allowedAt));
        return Some(if c.idOk then NotLogged else NoMessageId), slot, decision, run, s;
      }
      FreshInSameLog(s0, s, messageId);
      var ok;
      ok, run, s := LogAndCommit(id, request, c, messageId, slot, clock, before, run, s);
      rejection := if ok then None else Some(QueueClosed);
    }

    /** The queued record, then the commit, with the queue possibly closed between them. */
    method LogAndCommit(id: nat, request: SendRequest, c: Circumstances, messageId: string, slot: Q.QueueReservation,
                        ghost clock: int, ghost before: seq<Action>, ghost run0: seq<Action>, ghost s0: State)
      returns (ok: bool, ghost run: seq<Action>, ghost s: State)
      requires queue.Valid() && !queue.closed && Unspent(slot)
      requires Mirrors(s0) && Stands(s0, id, request, Limited(c.allowedAt)) && s0.clock == c.allowedAt
               && Nondecreasing(c.reservedAt, c)
      requires Extends(Settings(), clock, id, before, run0, s0) && Fresh(s0, messageId)
      modifies queue, this`log, slot
      ensures queue.Valid() && slot.used && slot.queue == queue && slot in queue.reservations
      ensures Mirrors(s) && s.clock == c.committedAt && Extends(Settings(), clock, id, before, run, s)
      ensures ok <==> !c.closes
      ensures Stands(s, id, request, if ok then Committed(c.allowedAt, messageId) else UnwindQuota(c.allowedAt, false))
      ensures ok ==>
                && log == old(log) + [request.draft.(messageId := messageId, status := StatusQueued)]
                && FirstAttemptQueued(old(queue.State()), queue.State(), request, messageId, c.committedAt)
    {
      QueuedRecord(request, messageId);
      hide FirstAttemptQueued, Apply, Run, Extends, Q.MemoryQueue.Valid, Queued, Q.Items, Fresh;
      run, s := run0, s0;
      log := log + [Queued(request, messageId)];
      ghost var t := Logging(Settings(), id, request, s, c.allowedAt, messageId);
      ExtendsBy(Settings(), clock, id, before, run, s, LogQueued(id, messageId));
      run, s := run + [LogQueued(id, messageId)], t;
      run, s := Wait(Settings(), id, request, clock, before, run, s, c.committedAt, Logged(c.allowedAt, messageId));
      if c.closes {
        queue.Close();
        t := Closing(Settings(), id, request, s, Logged(c.allowedAt, messageId));
        ExtendsBy(Settings(), clock, id, before, run, s, Close);
        run, s := run + [Close], t;
      }
      ghost var committed;
      ok, committed, t := CommitInitialQueueTask(id, request, slot, c.allowedAt, messageId, c.committedAt,
                                                 c.failureLogOk, s);
      ExtendsBy(Settings(), clock, id, before, run, s, Commit(id));
      run := run + [Commit(id)];
      if !ok {
        ExtendsBy(Settings(), clock, id, before, run, committed, LogRefused(id, c.failureLogOk));
        run := run + [LogRefused(id, c.failureLogOk)];
      }
      s := t;
    }

    method GiveBackQuota(id: nat, request: SendRequest, decision: R.Decision, ghost at: int, ghost slotHeld: bool,
                         ghost s: State)
      returns (ghost t: State)
      requires Mirrors(s) && Stands(s, id, request, UnwindQuota(at, slotHeld))
               && decision == QuotaKeys(request.quota, at)
      modifies limiter
      ensures t == Apply(Settings(), s, RollbackQuota(id)) && Mirrors(t)
      ensures Stands(t, id, request, if slotHeld then UnwindSlot else UnwindKey)
    {
      hide R.RollbackEffect, QuotaKeys;
      limiter.Rollback(decision);
      t := Apply(Settings(), s, RollbackQuota(id));
    }

    method GiveBackSlot(id: nat, request: SendRequest, slot: Q.QueueReservation, ghost s: State)
      returns (ghost t: State)
      requires queue.Valid() && Mirrors(s) && Unspent(slot) && Stands(s, id, request, UnwindSlot)
      modifies slot, queue
      ensures queue.Valid() && t == Apply(Settings(), s, ReleaseSlot(id)) && Mirrors(t)
              && Stands(t, id, request, UnwindKey)
    {
      hide Q.ReturnSlot, Q.MemoryQueue.Valid;
      slot.Release();
      t := Apply(Settings(), s, ReleaseSlot(id));
    }

    method GiveBackKey(id: nat, request: SendRequest, key: I.IdempotencyReservation, ghost s: State)
      returns (ghost t: State)
      requires Mirrors(s) && Stands(s, id, request, UnwindKey)
      requires key.cache == cache && key.key == request.key && !key.used
      modifies cache, key
      ensures t == Apply(Settings(), s, ReleaseKey(id)) && Mirrors(t) && Stands(t, id, request, Failed)
    {
      hide I.ReleaseEffect;
      key.Release();
      t := Apply(Settings(), s, ReleaseKey(id));
    }

    /** The deferred releases, last registered first: quota, then the slot, then the key. A used slot is left alone. */
    method Undo(id: nat, request: SendRequest, key: I.IdempotencyReservation, slot: Q.QueueReservation?,
                decision: Option<R.Decision>,
                ghost at: int, ghost clock: int, ghost before: seq<Action>, ghost run0: seq<Action>, ghost s0: State)
      returns (ghost run: seq<Action>, ghost s: State)
      requires queue.Valid() && Mirrors(s0) && Owes(s0, id, request, at, slot, decision)
      requires key.cache == cache && key.key == request.key && !key.used
      requires Extends(Settings(), clock, id, before, run0, s0)
      modifies cache, queue, limiter, key
      modifies if slot == null then {} else {slot}
      ensures queue.Valid() && Mirrors(s) && Extends(Settings(), clock, id, before, run, s)
              && Stands(s, id, request, Failed)
    {
      hide Apply, Run, Extends, Q.MemoryQueue.Valid, QuotaKeys, Stands, OwnAction;
      OwnReleases(id);
      run, s := run0, s0;
      ghost var t;
      if decision.Some? && decision.value.Allowed? {
        t := GiveBackQuota(id, request, decision.value, at, !slot.used, s);
        ExtendsBy(Settings(), clock, id, before, run, s, RollbackQuota(id));
        run, s := run + [RollbackQuota(id)], t;
      }
      if slot != null && !slot.used {
        t := GiveBackSlot(id, request, slot, s);
        ExtendsBy(Settings(), clock, id, before, run, s, ReleaseSlot(id));
        run, s := run + [ReleaseSlot(id)], t;
      }
      t := GiveBackKey(id, request, key, s);
      ExtendsBy(Settings(), clock, id, before, run, s, ReleaseKey(id));
      run, s := run + [ReleaseKey(id)], t;
    }

    /**
     Completing the key of a committed request cannot fail; were it to, the deferred release would find the
     key used.
     */
    method Complete(id: nat, request: SendRequest, key: I.IdempotencyReservation, messageId: string, now: int,
                    ghost at: int, ghost clock: int, ghost before: seq<Action>, ghost run0: seq<Action>,
                        ghost s0: State)
      returns (outcome: SendOutcome, ghost run: seq<Action>, ghost s: State)
      requires Mirrors(s0) && Stands(s0, id, request, Committed(at, messageId)) && s0.clock == now && messageId != ""
      requires key.cache == cache && key.key == request.key && !key.used
      requires Extends(Settings(), clock, id, before, run0, s0)
      modifies cache, key
      ensures Mirrors(s) && Extends(Settings(), clock, id, before, run, s)
      ensures outcome == Accepted(messageId) && Stands(s, id, request, Done(at, messageId))
      ensures request.key in cache.entries
              && cache.entries[request.key] == I.Entry(messageId, request.fingerprint, I.Queued, now)
    {
      hide Run, OwnActions, I.IdempotencyCache.Valid;
      var completed := key.CompleteQueued(messageId, now);
      var idempotencyCompleted := completed == I.Completed;
      outcome := if idempotencyCompleted then Accepted(messageId) else Rejected(NotCompleted);
      if !idempotencyCompleted {
        key.Release();
      }
      ExtendsBy(Settings(), clock, id, before, run0, s0, Action.Complete(id));
      run, s := run0 + [Action.Complete(id)], Apply(Settings(), s0, Action.Complete(id));
      CommittedEntry(Settings(), clock, run0, id, request, at, messageId);
    }

    /**
     One send request from any state the protocol can be in, interrupted at most by a close: what the structures hold
     afterwards is where the request's own actions take the protocol, and its answer says how it ended.
     */
    method ProcessSend(id: nat, request: SendRequest, c: Circumstances, messageId: string, ghost clock: int,
                       ghost before: seq<Action>)
      returns (outcome: SendOutcome, ghost run: seq<Action>, ghost s: State)
      requires queue.Valid() && Mirrors(Run(Settings(), clock, before))
      requires id !in Run(Settings(), clock, before).clients && Nondecreasing(Run(Settings(), clock, before).clock, c)
      requires Fresh(Run(Settings(), clock, before), messageId)
      modifies cache, queue, limiter, this`log
      ensures queue.Valid() && Mirrors(s) && Extends(Settings(), clock, id, before, run, s)
      ensures outcome == Answer(Settings(), Run(Settings(), clock, before), request, c, messageId)
      ensures id in s.clients && s.clients[id].request == request && Answers(outcome, s.clients[id].stage)
      ensures outcome.Accepted? ==>
                && outcome.messageId == messageId
                && log == old(log) + [request.draft.(messageId := messageId, status := StatusQueued)]
                && FirstAttemptQueued(old(queue.State()).(pending := old(queue.pending) + 1), queue.State(), request,
                                      messageId, c.committedAt)
                && request.key in cache.entries
                && cache.entries[request.key] == I.Entry(messageId, request.fingerprint, I.Queued, c.completedAt)
      ensures forall m :: outcome == ReplayOf(m) <==> StandsFor(old(cache.entries), cache.ttl, request, c.reservedAt, m)
    {
      AnswerReplays(Settings(), clock, before, request, c, messageId);
      AnswerOf(Settings(), Run(Settings(), clock, before), request, c, messageId);
      hide FirstAttemptQueued, StandsFor, Answer, Apply, Run, Extends, Fresh, Q.MemoryQueue.Valid, I.ReserveEffect,
           AdmissionAnswer;
      run, s := Begin(Settings(), id, request, c.reservedAt, clock, before);
      var key, keyOutcome;
      ghost var t;
      key, keyOutcome, t := TakeKey(id, request, c.reservedAt, s);
      FreshInSameLog(Run(Settings(), clock, before), t, messageId);
      ExtendsBy(Settings(), clock, id, before, run, s, ReserveKey(id));
      run, s := run + [ReserveKey(id)], t;
      if keyOutcome.Replayed? {
        return ReplayOf(keyOutcome.messageId), run, s;
      }
      if key == null {
        return Rejected(KeyRefused(keyOutcome)), run, s;
      }
      var rejection, slot, decision;
      rejection, slot, decision, run, s := Admit(id, request, c, messageId, clock, before, run, s);
      if rejection.Some? {
        run, s := Undo(id, request, key, slot, decision, c.allowedAt, clock, before, run, s);
        return Rejected(rejection.value), run, s;
      }
      run, s := Wait(Settings(), id, request, clock, before, run, s, c.completedAt, Committed(c.allowedAt, messageId));
      outcome, run, s := Complete(id, request, key, messageId, c.completedAt, c.allowedAt, clock, before, run, s);
    }
  }
}
