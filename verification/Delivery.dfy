/**
 Delivery of accepted messages by any number of workers, as a state machine.

 A worker's step is one atomic part of processing a task: taking it, calling the
 provider and judging the answer, reserving a slot for the retry, committing the
 retry. Provider answers and resolved channels are arbitrary. An action that is not
 enabled changes nothing.
 */
module Delivery {
  import opened Wrappers
  import opened Domain
  import opened WorkerTask
  import Q = DelayQueue

  datatype Params = Params(policy: RetryPolicy, capacity: nat)

  /** What a worker has in hand, and since when; a task being scheduled already carries its next attempt number. */
  datatype Hand =
    | Idle
    | Running(task: QueueTask, takenAt: int)
    | Scheduling(task: QueueTask, delay: int)
    | HasSlot(task: QueueTask, delay: int)

  /**
   One attempt: the channel it used, whether its provider was called and accepted, when it ran, and the
   wait its answer asked for.
   */
  datatype Try = Try(
    messageId: string,
    attemptNo: int,
    channel: string,
    called: bool,
    accepted: bool,
    takenAt: int,
    finishedAt: int,
    retryAfterSeconds: int)

  datatype Ending = EndedSent | EndedFailed

  datatype State = State(
    clock: int,
    queue: Q.QueueState,
    hands: seq<Hand>,
    accepted: map<string, Message>,
    ended: map<string, Ending>,
    tries: seq<Try>,
    work: map<string, nat>)

  datatype Action =
    | Tick(now: int)
    | Submit(message: Message)
    | OthersReserve
    | OthersReturn
    | Take(w: nat)
    | Finish(w: nat, runtime: Option<ChannelRuntime>, reply: Option<SendResult>)
    | ReserveRetry(w: nat)
    | CommitRetry(w: nat)
    | Close

  /** What route selection guarantees of the channels of an accepted message. */
  predicate Routed(message: Message) {
    && message.providerChannels != []
    && (forall i :: 0 <= i < |message.providerChannels| ==> message.providerChannels[i] != "")
    && (forall i, j :: 0 <= i < j < |message.providerChannels| ==>
        message.providerChannels[i] != message.providerChannels[j])
  }

  function Id(task: QueueTask): string {
    task.message.messageId
  }

  function Worked(s: State, id: string): map<string, nat> {
    s.work[id := (if id in s.work then s.work[id] else 0) + 1]
  }

  function SubmitStep(p: Params, s: State, message: Message): State {
    if message.messageId in s.accepted || !Routed(message) then s else
      var (queue, outcome) := Q.EnqueueEffect(s.queue, p.capacity, QueueTask(message, 1, 0), 0, s.clock);
      if outcome != Q.Enqueued then s
      else s.(queue := queue, accepted := s.accepted[message.messageId := message],
              work := s.work[message.messageId := 0])
  }

  ghost function TakeStep(s: State, w: nat): State {
    if w >= |s.hands| || s.hands[w] != Idle then s else
      var (queue, taken) := Q.TakeReady(s.queue, s.clock);
      if taken.None? then s.(queue := queue)
      else s.(queue := queue, hands := s.hands[w := Running(taken.value.task, s.clock)],
              work := Worked(s, Id(taken.value.task)))
  }

  /** The try a finished attempt adds. */
  function TryOf(p: Params, task: QueueTask, takenAt: int, finishedAt: int, runtime: Option<ChannelRuntime>,
                 reply: Option<SendResult>): Try
    requires !Decide(p.policy, task, runtime, reply).Unroutable?
  {
    var verdict := Decide(p.policy, task, runtime, reply);
    Try(Id(task), WithAttemptNo(task).attemptNo, verdict.channel, Usable(verdict.channel, runtime), verdict.Sent?,
        takenAt, finishedAt, Answer(verdict.channel, runtime, reply).retryAfterSeconds)
  }

  function FinishStep(p: Params, s: State, w: nat, runtime: Option<ChannelRuntime>, reply: Option<SendResult>): State {
    if w >= |s.hands| || !s.hands[w].Running? then s else
      var task := s.hands[w].task;
      var verdict := Decide(p.policy, task, runtime, reply);
      var t := s.(work := Worked(s, Id(task)),
                  tries := if verdict.Unroutable? then s.tries
                           else s.tries + [TryOf(p, task, s.hands[w].takenAt, s.clock, runtime, reply)]);
      if verdict.Retry? then t.(hands := s.hands[w := Scheduling(Successor(task), verdict.delay)])
      else t.(hands := s.hands[w := Idle],
              ended := s.ended[Id(task) := if verdict.Sent? then EndedSent else EndedFailed])
  }

  function ReserveRetryStep(p: Params, s: State, w: nat): State {
    if w >= |s.hands| || !s.hands[w].Scheduling? then s else
      var Scheduling(task, delay) := s.hands[w];
      var (queue, outcome) := Q.ReserveSlot(s.queue, p.capacity);
      var t := s.(queue := queue, work := Worked(s, Id(task)));
      if outcome == Q.SlotReserved then t.(hands := s.hands[w := HasSlot(task, delay)])
      else t.(hands := s.hands[w := Idle], ended := s.ended[Id(task) := EndedFailed])
  }

  function CommitRetryStep(s: State, w: nat): State {
    if w >= |s.hands| || !s.hands[w].HasSlot? then s else
      var HasSlot(task, delay) := s.hands[w];
      var t := s.(queue := Q.CommitSlot(s.queue, task, delay, s.clock), work := Worked(s, Id(task)),
                  hands := s.hands[w := Idle]);
      if s.queue.closed then t.(ended := s.ended[Id(task) := EndedFailed]) else t
  }

  ghost function Apply(p: Params, s: State, a: Action): State {
    match a
    case Tick(now) => if now < s.clock then s else s.(clock := now)
    case Submit(message) => SubmitStep(p, s, message)
    case OthersReserve => s.(queue := Q.ReserveSlot(s.queue, p.capacity).0)
    case OthersReturn => s.(queue := Q.ReturnSlot(s.queue))
    case Take(w) => TakeStep(s, w)
    case Finish(w, runtime, reply) => FinishStep(p, s, w, runtime, reply)
    case ReserveRetry(w) => ReserveRetryStep(p, s, w)
    case CommitRetry(w) => CommitRetryStep(s, w)
    case Close => s.(queue := Q.CloseQueue(s.queue))
  }

  /** Some idle workers, an open empty queue, nothing accepted. */
  function Start(clock: int, workers: nat): State {
    State(clock, Q.QueueState(0, 0, [], {}, false), seq(workers, w => Idle), map[], map[], [], map[])
  }

  ghost function Run(p: Params, clock: int, workers: nat, actions: seq<Action>): State {
    if actions == [] then Start(clock, workers)
    else Apply(p, Run(p, clock, workers, actions[..|actions| - 1]), actions[|actions| - 1])
  }

  // ---------- where a message is ----------

  type Busy = h: Hand | h != Idle witness Running(QueueTask(Message("", "", "", [], StatusQueued, NoError), 1, 0), 0)

  datatype Token = Queued(item: Q.Item) | InHand(worker: nat, hand: Busy)

  function TaskOf(t: Token): QueueTask {
    if t.Queued? then t.item.task else t.hand.task
  }

  function QueueItems(q: Q.QueueState): set<Q.Item> {
    Q.Items(q.ready) + q.delayed
  }

  function TokensOf(items: set<Q.Item>, hands: seq<Hand>): set<Token> {
    (set x | x in items :: Queued(x)) + (set w | 0 <= w < |hands| && hands[w] != Idle :: InHand(w, hands[w]))
  }

  /** The ready list, the delayed heap and the workers' hands hold one token per message under way. */
  function Tokens(s: State): set<Token> {
    TokensOf(QueueItems(s.queue), s.hands)
  }

  /** The delivery steps a message has taken when its token is where it is. */
  function StepsAt(t: Token): int {
    var n := TaskOf(t).attemptNo;
    if t.Queued? then 4 * (n - 1)
    else match t.hand
         case Running(_, _) => 4 * (n - 1) + 1
         case Scheduling(_, _) => 4 * (n - 2) + 2
         case HasSlot(_, _) => 4 * (n - 2) + 3
  }

  predicate InBounds(policy: RetryPolicy, message: Message, attemptNo: int) {
    1 <= attemptNo <= policy.maxAttempts && attemptNo <= |message.providerChannels|
  }

  /** A token's task is the accepted message, at an attempt that follows all its tries so far, none of them accepted. */
  ghost predicate TokenInv(p: Params, s: State, t: Token) {
    var task := TaskOf(t);
    var id := Id(task);
    && id in s.accepted && task.message == s.accepted[id] && id !in s.ended
    && InBounds(p.policy, task.message, task.attemptNo)
    && (t.InHand? && !t.hand.Running? ==> task.attemptNo >= 2)
    && id in s.work && s.work[id] == StepsAt(t)
    && (forall i :: 0 <= i < |s.tries| && s.tries[i].messageId == id ==>
        s.tries[i].attemptNo < task.attemptNo && !s.tries[i].accepted)
    && (task.attemptNo > 1 ==> Tried(s.tries, |s.tries|, id, task.attemptNo - 1))
  }

  ghost predicate Tried(tries: seq<Try>, before: nat, id: string, attemptNo: int)
    requires before <= |tries|
  {
    exists i :: 0 <= i < before && tries[i].messageId == id && tries[i].attemptNo == attemptNo
  }

  /** A try is in bounds, on its own channel, follows the try before it, and an accepted one ended its message. */
  ghost predicate TryInv(p: Params, accepted: map<string, Message>, ended: map<string, Ending>, tries: seq<Try>, i: nat)
    requires i < |tries|
  {
    var t := tries[i];
    && t.messageId in accepted
    && InBounds(p.policy, accepted[t.messageId], t.attemptNo)
    && t.channel == accepted[t.messageId].providerChannels[t.attemptNo - 1]
    && (t.attemptNo > 1 ==> Tried(tries, i, t.messageId, t.attemptNo - 1))
    && (t.accepted ==> t.called && t.messageId in ended && ended[t.messageId] == EndedSent)
  }

  /** Attempts of one message count up, and none follows an accepted one. */
  ghost predicate Ascending(tries: seq<Try>) {
    forall i, j :: 0 <= i < j < |tries| && tries[i].messageId == tries[j].messageId ==>
                     tries[i].attemptNo < tries[j].attemptNo && !tries[i].accepted
  }

  ghost predicate TriesInv(p: Params, s: State) {
    Ascending(s.tries) && forall i :: 0 <= i < |s.tries| ==> TryInv(p, s.accepted, s.ended, s.tries, i)
  }

  ghost predicate EndedInv(p: Params, s: State) {
    && (forall id :: id in s.ended ==> id in s.accepted && id in s.work && s.work[id] <= 4 * p.policy.maxAttempts)
    && (forall id :: id in s.ended && s.ended[id] == EndedSent ==>
          exists i :: 0 <= i < |s.tries| && s.tries[i].messageId == id && s.tries[i].accepted)
  }

  /** Queue items have distinct sequence numbers. */
  ghost predicate QueueDistinct(q: Q.QueueState) {
    && Q.DistinctSequences(q.ready) && Q.Numbered(q)
    && (forall x, y :: x in q.ready && y in q.delayed ==> x.sequence != y.sequence)
    && (forall x, y :: x in q.delayed && y in q.delayed && x != y ==> x.sequence != y.sequence)
  }

  ghost predicate HasToken(s: State, id: string) {
    exists t :: t in Tokens(s) && Id(TaskOf(t)) == id
  }

  ghost predicate OneToken(s: State) {
    forall t, u :: t in Tokens(s) && u in Tokens(s) && Id(TaskOf(t)) == Id(TaskOf(u)) ==> t == u
  }

  ghost predicate Inv(p: Params, s: State) {
    && p.policy.maxAttempts > 0
    && QueueDistinct(s.queue)
    && (forall id :: id in s.accepted ==> Routed(s.accepted[id]) && s.accepted[id].messageId == id)
    && (forall t :: t in Tokens(s) ==> TokenInv(p, s, t))
    && OneToken(s)
    && (!s.queue.closed ==> forall id :: id in s.accepted && id !in s.ended ==> HasToken(s, id))
    && TriesInv(p, s)
    && EndedInv(p, s)
  }
}
