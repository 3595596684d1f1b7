/**
 The admission protocol of send requests, run concurrently.

 Each mutex-protected call of a request is one atomic action, and actions of any
 number of requests interleave with clock ticks, workers and the closing of the
 queue. A request that fails gives back what it took one action at a time, in the
 reverse order. An action that is not enabled changes nothing.
 */
module Admission {
  import opened Wrappers
  import opened Domain
  import I = Idempotency
  import Q = DelayQueue
  import R = RateLimiter

  datatype Params = Params(cacheLimit: nat, ttl: nat, capacity: nat)

  /** A validated request; draft is the message to queue, still without its id. */
  datatype SendRequest = SendRequest(key: I.Key, fingerprint: string, quota: R.Request, draft: Message)

  /** How far a request has come, with the time its quota was granted and its message id once known. */
  datatype Stage =
    | Arrived
    | Reserved
    | Slotted
    | Limited(at: int)
    | Logged(at: int, messageId: string)
    | Committed(at: int, messageId: string)
    | Refused(at: int, messageId: string)
    | UnwindQuota(at: int, slot: bool)
    | UnwindSlot
    | UnwindKey
    | Done(at: int, messageId: string)
    | Replayed(messageId: string)
    | Failed
    | Broken(at: int)

  datatype Client = Client(request: SendRequest, stage: Stage)

  type Clients = map<nat, Client>

  datatype Event =
    | CommitEvent(key: I.Key, messageId: string)
    | DropEvent(expired: set<I.Key>, evicted: set<I.Key>)
    | ReplayEvent(key: I.Key, messageId: string)

  datatype State = State(
    clock: int,
    cache: I.Entries,
    queue: Q.QueueState,
    counters: R.Counters,
    clients: Clients,
    workerSlots: nat,
    log: seq<Message>,
    history: seq<Event>)

  datatype Action =
    | Tick(now: int)
    | Arrive(id: nat, request: SendRequest)
    | ReserveKey(id: nat)
    | RejectEarly(id: nat)
    | ReserveSlot(id: nat)
    | AllowQuota(id: nat)
    | FailBeforeLog(id: nat)
    | LogQueued(id: nat, messageId: string)
    | Commit(id: nat)
    | LogRefused(id: nat, logged: bool)
    | Complete(id: nat)
    | RollbackQuota(id: nat)
    | ReleaseSlot(id: nat)
    | ReleaseKey(id: nat)
    | WorkerTake
    | WorkerReserve
    | WorkerCommit(task: QueueTask, delay: int)
    | Close

  // ---------- what a stage holds ----------

  datatype Claim = NoKey | Held | HeldCommitted(messageId: string)

  /** The claim of a request on its idempotency key. */
  function KeyClaim(stage: Stage): Claim {
    match stage
    case Arrived => NoKey
    case Done(_, _) => NoKey
    case Replayed(_) => NoKey
    case Failed => NoKey
    case Broken(_) => NoKey
    case Committed(_, messageId) => HeldCommitted(messageId)
    case _ => Held
  }

  predicate HoldsSlot(stage: Stage) {
    stage.Slotted? || stage.Limited? || stage.Logged? || (stage.UnwindQuota? && stage.slot) || stage.UnwindSlot?
  }

  /** When the quota still charged to the request was granted. */
  function QuotaOf(stage: Stage): Option<int> {
    match stage
    case Limited(at) => Some(at)
    case Logged(at, _) => Some(at)
    case Committed(at, _) => Some(at)
    case Refused(at, _) => Some(at)
    case UnwindQuota(at, _) => Some(at)
    case Done(at, _) => Some(at)
    case Broken(at) => Some(at)
    case _ => None
  }

  predicate Ended(stage: Stage) {
    stage.Done? || stage.Replayed? || stage.Failed?
  }

  // ---------- the actions ----------

  function Move(s: State, id: nat, stage: Stage): State
    requires id in s.clients
  {
    s.(clients := s.clients[id := s.clients[id].(stage := stage)])
  }

  function Queued(request: SendRequest, messageId: string): Message {
    request.draft.(messageId := messageId, status := StatusQueued)
  }

  function CommitFailed(request: SendRequest, messageId: string): Message {
    request.draft.(messageId := messageId, status := StatusFailed, errorCode := InternalError)
  }

  function QuotaKeys(request: R.Request, at: int): R.Decision {
    R.Allowed(R.Keys(request, R.Rules(request), at))
  }

  ghost function ReserveKeyStep(p: Params, s: State, id: nat): State
    requires id in s.clients
  {
    var request := s.clients[id].request;
    var live := I.Live(s.cache, s.clock, p.ttl);
    var (after, outcome) := I.ReserveEffect(s.cache, p.cacheLimit, p.ttl, request.key, request.fingerprint, s.clock);
    var t := s.(cache := after, history := s.history + [DropEvent(s.cache.Keys - live.Keys, live.Keys - after.Keys)]);
    match outcome
    case Reserved => Move(t, id, Reserved)
    case Replayed(messageId) => Move(t.(history := t.history + [ReplayEvent(request.key, messageId)]), id,
                                     Replayed(messageId))
    case _ => Move(t, id, Failed)
  }

  function ReserveSlotStep(p: Params, s: State, id: nat): State
    requires id in s.clients
  {
    var (after, outcome) := Q.ReserveSlot(s.queue, p.capacity);
    Move(s.(queue := after), id, if outcome == Q.SlotReserved then Slotted else UnwindKey)
  }

  function AllowQuotaStep(s: State, id: nat): State
    requires id in s.clients
  {
    var (after, decision) := R.AllowEffect(s.counters, s.clients[id].request.quota, s.clock);
    Move(s.(counters := after), id, if decision.Allowed? then Limited(s.clock) else UnwindSlot)
  }

  /** A closed queue refuses the commit and takes the slot back. */
  function CommitStep(s: State, id: nat, at: int, messageId: string): State
    requires id in s.clients
  {
    var request := s.clients[id].request;
    var t := s.(queue := Q.CommitSlot(s.queue, QueueTask(Queued(request, messageId), 1, 0), 0, s.clock));
    if s.queue.closed then Move(t, id, Refused(at, messageId))
    else Move(t.(history := t.history + [CommitEvent(request.key, messageId)]), id, Committed(at, messageId))
  }

  /** The reservation is used either way; when its entry is gone, completing fails. */
  function CompleteStep(s: State, id: nat, at: int, messageId: string): State
    requires id in s.clients
  {
    var key := s.clients[id].request.key;
    Move(s.(cache := I.CompleteEffect(s.cache, key, messageId, s.clock)), id,
         if I.IsPending(s.cache, key) then Done(at, messageId) else Broken(at))
  }

  predicate Fresh(s: State, messageId: string) {
    messageId != "" && forall i :: 0 <= i < |s.log| ==> s.log[i].messageId != messageId
  }

  ghost function ClientStep(p: Params, s: State, id: nat, a: Action): State
    requires id in s.clients
  {
    var request := s.clients[id].request;
    match (a, s.clients[id].stage)
    case (ReserveKey(_), Arrived) => ReserveKeyStep(p, s, id)
    case (RejectEarly(_), Reserved) => Move(s, id, UnwindKey)
    case (ReserveSlot(_), Reserved) => ReserveSlotStep(p, s, id)
    case (AllowQuota(_), Slotted) => AllowQuotaStep(s, id)
    case (FailBeforeLog(_), Limited(at)) => Move(s, id, UnwindQuota(at, true))
    case (LogQueued(_, messageId), Limited(at)) =>
      if Fresh(s, messageId)
      then Move(s.(log := s.log + [Queued(request, messageId)]), id, Logged(at, messageId)) else s
    case (Commit(_), Logged(at, messageId)) => CommitStep(s, id, at, messageId)
    case (LogRefused(_, logged), Refused(at, messageId)) =>
      Move(if logged then s.(log := s.log + [CommitFailed(request, messageId)]) else s, id, UnwindQuota(at, false))
    case (Complete(_), Committed(at, messageId)) => CompleteStep(s, id, at, messageId)
    case (RollbackQuota(_), UnwindQuota(at, slot)) =>
      Move(s.(counters := R.RollbackEffect(s.counters, QuotaKeys(request.quota, at))), id,
           if slot then UnwindSlot else UnwindKey)
    case (ReleaseSlot(_), UnwindSlot) => Move(s.(queue := Q.ReturnSlot(s.queue)), id, UnwindKey)
    case (ReleaseKey(_), UnwindKey) => Move(s.(cache := I.ReleaseEffect(s.cache, request.key)), id, Failed)
    case _ => s
  }

  ghost function Apply(p: Params, s: State, a: Action): State {
    match a
    case Tick(now) => if now < s.clock then s else s.(clock := now)
    case Arrive(id, request) => if id in s.clients then s else s.(clients := s.clients[id := Client(request, Arrived)])
    case WorkerTake => s.(queue := Q.TakeReady(s.queue, s.clock).0)
    case WorkerReserve =>
      var (after, outcome) := Q.ReserveSlot(s.queue, p.capacity);
      s.(queue := after, workerSlots := s.workerSlots + if outcome == Q.SlotReserved then 1 else 0)
    case WorkerCommit(task, delay) =>
      if s.workerSlots == 0 then s
      else s.(queue := Q.CommitSlot(s.queue, task, delay, s.clock), workerSlots := s.workerSlots - 1)
    case Close => s.(queue := Q.CloseQueue(s.queue))
    case _ => if a.id in s.clients then ClientStep(p, s, a.id, a) else s
  }

  function Start(clock: int): State {
    State(clock, map[], Q.QueueState(0, 0, [], {}, false), map[], map[], 0, [], [])
  }

  ghost function Run(p: Params, clock: int, actions: seq<Action>): State {
    if actions == [] then Start(clock)
    else Apply(p, Run(p, clock, actions[..|actions| - 1]), actions[|actions| - 1])
  }

  // ---------- histories ----------

  /** The event expires or evicts the key's entry. */
  predicate Drops(e: Event, key: I.Key) {
    e.DropEvent? && (key in e.expired || key in e.evicted)
  }

  /** The message last committed under a key, unless its entry was dropped since. */
  function LastCommit(h: seq<Event>, key: I.Key): Option<string> {
    if h == [] then None else
      var last := h[|h| - 1];
      if last.CommitEvent? && last.key == key then Some(last.messageId)
      else if Drops(last, key) then None
      else LastCommit(h[..|h| - 1], key)
  }

  /** No commit under a key that still has one, and every replay answers with the last commit. */
  ghost predicate Sound(h: seq<Event>) {
    forall i :: 0 <= i < |h| ==>
                  && (h[i].CommitEvent? ==> LastCommit(h[..i], h[i].key).None?)
                  && (h[i].ReplayEvent? ==> LastCommit(h[..i], h[i].key) == Some(h[i].messageId))
  }

  lemma LastCommitOfLonger(h: seq<Event>, e: Event, key: I.Key)
    ensures LastCommit(h + [e], key) ==
            if e.CommitEvent? && e.key == key then Some(e.messageId)
            else if Drops(e, key) then None
            else LastCommit(h, key)
  {
    assert (h + [e])[..|h|] == h;
  }

  lemma SoundLonger(h: seq<Event>, e: Event)
    requires Sound(h)
    requires e.CommitEvent? ==> LastCommit(h, e.key).None?
    requires e.ReplayEvent? ==> LastCommit(h, e.key) == Some(e.messageId)
    ensures Sound(h + [e])
  {
    var g := h + [e];
    assert g[..|h|] == h;
    forall i | 0 <= i < |h|
      ensures g[..i] == h[..i] && g[i] == h[i]
    {
    }
  }

  /** A commit that is not dropped afterwards is still, or is superseded by, the last commit. */
  lemma {:induction false} CommitRemains(h: seq<Event>, i: nat, n: nat)
    requires i < n <= |h| && h[i].CommitEvent?
    requires forall l :: i < l < n ==> !Drops(h[l], h[i].key)
    ensures LastCommit(h[..n], h[i].key).Some?
    ensures (forall l :: i < l < n && h[l].CommitEvent? ==> h[l].key != h[i].key) ==>
              LastCommit(h[..n], h[i].key) == Some(h[i].messageId)
  {
    assert h[..n][..n - 1] == h[..n - 1];
    if i + 1 < n {
      CommitRemains(h, i, n - 1);
    }
  }

  /** A last commit was made, and nothing dropped its entry since. */
  lemma {:induction false} LastCommitWasMade(h: seq<Event>, n: nat, key: I.Key) returns (i: nat)
    requires n <= |h| && LastCommit(h[..n], key).Some?
    ensures i < n && h[i] == CommitEvent(key, LastCommit(h[..n], key).value)
    ensures forall l :: i < l < n ==> !Drops(h[l], key)
  {
    assert h[..n][..n - 1] == h[..n - 1];
    if h[n - 1].CommitEvent? && h[n - 1].key == key {
      i := n - 1;
    } else {
      i := LastCommitWasMade(h, n - 1, key);
    }
  }

  /** Two commits under one key are separated by an expiry or eviction of that key. */
  lemma SoundMeansAtMostOnce(h: seq<Event>, i: nat, j: nat)
    requires Sound(h) && i < j < |h| && h[i].CommitEvent? && h[j].CommitEvent? && h[i].key == h[j].key
    ensures exists l :: i < l < j && Drops(h[l], h[i].key)
  {
    if forall l :: i < l < j ==> !Drops(h[l], h[i].key) {
      CommitRemains(h, i, j);
    }
  }

  // ---------- the cache and the history ----------

  predicate Holds(clients: Clients, id: nat, key: I.Key) {
    id in clients && clients[id].request.key == key && KeyClaim(clients[id].stage) != NoKey
  }

  function CommittedId(c: Claim): Option<string> {
    if c.HeldCommitted? then Some(c.messageId) else None
  }

  /** Pending entries and requests that hold a key are in bijection. */
  ghost predicate KeysPaired(cache: I.Entries, clients: Clients) {
    && (forall k :: I.IsPending(cache, k) ==> exists id :: Holds(clients, id, k))
    && (forall id :: id in clients && KeyClaim(clients[id].stage) != NoKey ==>
        I.IsPending(cache, clients[id].request.key))
    && (forall i, j, k :: Holds(clients, i, k) && Holds(clients, j, k) ==> i == j)
  }

  /** The history agrees with the cache: what it last committed under a key is what the cache stands for. */
  ghost predicate HistoryMatches(history: seq<Event>, cache: I.Entries, clients: Clients) {
    && (forall k :: k !in cache ==> LastCommit(history, k) == None)
    && (forall k :: k in cache && cache[k].status.Queued? ==> LastCommit(history, k) == Some(cache[k].messageId))
    && (forall id :: id in clients && KeyClaim(clients[id].stage) != NoKey ==>
                       LastCommit(history, clients[id].request.key) == CommittedId(KeyClaim(clients[id].stage)))
  }

  ghost predicate CacheInv(p: Params, cache: I.Entries, history: seq<Event>, clients: Clients) {
    && |cache| <= p.cacheLimit
    && KeysPaired(cache, clients)
    && HistoryMatches(history, cache, clients)
    && Sound(history)
  }

  // ---------- the queue and the limiter ----------

  function SlotHolders(clients: Clients): set<nat> {
    set id | id in clients && HoldsSlot(clients[id].stage)
  }

  ghost predicate SlotInv(p: Params, queue: Q.QueueState, clients: Clients, workerSlots: nat) {
    Q.Accounted(queue, p.capacity, |SlotHolders(clients)| + workerSlots) && Q.Numbered(queue)
  }

  /** The quota still charged, request by request. */
  function Charged(clients: Clients): R.Ledger {
    map id | id in clients && QuotaOf(clients[id].stage).Some? ::
      R.Grant(clients[id].request.quota, QuotaOf(clients[id].stage).value)
  }

  ghost predicate QuotaInv(counters: R.Counters, clients: Clients, clock: int) {
    R.Exact(counters, Charged(clients), clock)
  }

  ghost predicate NotBroken(clients: Clients) {
    forall id :: id in clients ==> !clients[id].stage.Broken?
  }

  /** Everything held is held by exactly one request that can still give it back, or was committed. */
  ghost predicate Inv(p: Params, s: State) {
    && CacheInv(p, s.cache, s.history, s.clients)
    && SlotInv(p, s.queue, s.clients, s.workerSlots)
    && QuotaInv(s.counters, s.clients, s.clock)
    && NotBroken(s.clients)
  }
}
