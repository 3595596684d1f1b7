/**
 One turn of a worker's loop over the real queue: take a task and process it. Each turn
 is a run of delivery steps of that worker, and its records say how the message stands.
 */
module WorkerLoop {
  import opened Wrappers
  import opened Domain
  import opened WorkerTask
  import opened Delivery
  import Safety = DeliverySafety
  import Q = DelayQueue

  predicate OwnAction(w: nat, a: Action) {
    match a
    case Tick(_) => true
    case Take(v) => v == w
    case Finish(v, _, _) => v == w
    case ReserveRetry(v) => v == w
    case CommitRetry(v) => v == w
    case _ => false
  }

  /** A delivery run, extended by actions of one worker and the clock. */
  ghost predicate Extends(p: Params, clock: int, workers: nat, w: nat, before: seq<Action>, run: seq<Action>,
                          s: State) {
    && before <= run && (forall i :: |before| <= i < |run| ==> OwnAction(w, run[i]))
    && s == Run(p, clock, workers, run)
  }

  lemma ExtendsBy(p: Params, clock: int, workers: nat, w: nat, before: seq<Action>, run: seq<Action>, s: State,
                  a: Action)
    requires Extends(p, clock, workers, w, before, run, s) && OwnAction(w, a)
    ensures Extends(p, clock, workers, w, before, run + [a], Apply(p, s, a))
  {
    hide Apply, OwnAction;
    assert (run + [a])[..|run|] == run;
  }

  /** Where processing a task in hand leads: its attempt, and for a retry the reservation and the commit. */
  function Processed(p: Params, s: State, w: nat, runtime: Option<ChannelRuntime>, reply: Option<SendResult>): State {
    CommitRetryStep(ReserveRetryStep(p, FinishStep(p, s, w, runtime, reply), w), w)
  }

  /** An attempt that ends its message leaves nothing to schedule. */
  lemma EndedQueue(p: Params, s: State, w: nat, runtime: Option<ChannelRuntime>, reply: Option<SendResult>)
    requires w < |s.hands| && s.hands[w].Running? && !Decide(p.policy, s.hands[w].task, runtime, reply).Retry?
    ensures Processed(p, s, w, runtime, reply) == FinishStep(p, s, w, runtime, reply)
    ensures var task := s.hands[w].task;
            var t := FinishStep(p, s, w, runtime, reply);
            && t.queue == s.queue && t.hands == s.hands[w := Idle] && t.clock == s.clock
            && t.ended == s.ended[Id(task) := if Decide(p.policy, task, runtime, reply).Sent? then EndedSent
                                  else EndedFailed]
            && t.tries == TriesAfter(p, s, w, runtime, reply)
  {
    hide Decide, TryOf, Worked;
  }

  /** Enqueueing a retry in one call is its reservation and its commit. */
  lemma RetriedQueue(p: Params, s: State, w: nat, runtime: Option<ChannelRuntime>, reply: Option<SendResult>)
    requires w < |s.hands| && s.hands[w].Running? && Decide(p.policy, s.hands[w].task, runtime, reply).Retry?
    ensures var task := s.hands[w].task;
            var delay := Decide(p.policy, task, runtime, reply).delay;
            var (after, outcome) := Q.EnqueueEffect(s.queue, p.capacity, Successor(task), delay, s.clock);
            var t := Processed(p, s, w, runtime, reply);
            && t.queue == after && t.hands == s.hands[w := Idle] && t.clock == s.clock
            && t.ended == (if outcome == Q.Enqueued then s.ended else s.ended[Id(task) := EndedFailed])
            && t.tries == TriesAfter(p, s, w, runtime, reply)
  {
    hide Decide, TryOf, Worked, Q.CommitSlot, Successor;
    var task := s.hands[w].task;
    SameId(task);
    var f := FinishStep(p, s, w, runtime, reply);
    assert f.hands == s.hands[w := Scheduling(Successor(task), Decide(p.policy, task, runtime, reply).delay)];
    hide FinishStep;
    var r := ReserveRetryStep(p, f, w);
    assert r.hands[w := Idle] == s.hands[w := Idle];
  }

  lemma SameId(task: QueueTask)
    ensures Id(Successor(task)) == Id(task)
  {
  }

  function TriesAfter(p: Params, s: State, w: nat, runtime: Option<ChannelRuntime>, reply: Option<SendResult>): seq<Try>
    requires w < |s.hands| && s.hands[w].Running?
  {
    var task := s.hands[w].task;
    if Decide(p.policy, task, runtime, reply).Unroutable? then s.tries
    else s.tries + [TryOf(p, task, s.hands[w].takenAt, s.clock, runtime, reply)]
  }

  /** The records of an attempt agree with how the message ended: sent, failed, or not yet. */
  predicate Tells(records: seq<Message>, ending: Option<Ending>) {
    && TerminalCount(records) == (if ending.Some? then 1 else 0)
    && (ending.Some? ==> records != [] && records[|records| - 1].status == if ending.value == EndedSent then StatusSent
        else StatusFailed)
  }

  lemma RecordsTell(message: Message, verdict: Verdict, outcome: Q.EnqueueOutcome)
    ensures Tells(MessageRecords(message, verdict, outcome),
                  if verdict.Retry? && outcome == Q.Enqueued then None
                      else Some(if verdict.Sent? then EndedSent else EndedFailed))
  {
    var records := MessageRecords(message, verdict, outcome);
    TerminalCountOfFirst(records);
    if |records| > 1 {
      TerminalCountOfFirst(records[1..]);
    }
    if |records| > 2 {
      TerminalCountOfFirst(records[1..][1..]);
    }
  }

  ghost predicate Mirrors(worker: Worker, p: Params, s: State)
    reads worker.queue
  {
    p == Params(worker.policy, worker.queue.capacity) && worker.queue.State() == s.queue
  }

  /**
   A routed attempt of a message under way: the queue, the records and the calls are those its delivery
   steps stand for.
   */
  method HandleTask(worker: Worker, w: nat, task: QueueTask, runtime: Option<ChannelRuntime>, reply: Option<SendResult>,
                    now: int,
                    ghost p: Params, ghost s: State)
    returns (ok: bool, ghost records: seq<Message>, ghost x: Try)
    requires worker.queue.Valid() && Mirrors(worker, p, s) && s.clock == now
    requires w < |s.hands| && s.hands[w].Running? && s.hands[w].task == task
    requires Id(task) !in s.ended && !Decide(p.policy, task, runtime, reply).Unroutable?
    modifies worker, worker.queue
    ensures worker.queue.Valid() && Mirrors(worker, p, Processed(p, s, w, runtime, reply))
    ensures worker.messages == old(worker.messages) + records
    ensures x == TryOf(p, task, s.hands[w].takenAt, now, runtime, reply)
    ensures var t := Processed(p, s, w, runtime, reply);
            && t.hands == s.hands[w := Idle]
            && t.tries == s.tries + [x]
            && Tells(records, if Id(task) in t.ended then Some(t.ended[Id(task)]) else None)
            && worker.calls == old(worker.calls) + if x.called then [(Id(task), x.attemptNo)] else []
  {
    hide Processed, Q.EnqueueEffect, Decide, MessageRecords, AttemptRecords, Usable, Tells, Answer, Successor,
         WithAttemptNo;
    ghost var verdict := Decide(p.policy, task, runtime, reply);
    ghost var outcome := Q.EnqueueEffect(s.queue, p.capacity, Successor(task), if verdict.Retry? then verdict.delay
                                         else 0, now).1;
    records := MessageRecords(task.message, verdict, outcome);
    x := TryOf(p, task, s.hands[w].takenAt, now, runtime, reply);
    RecordsTell(task.message, verdict, outcome);
    if verdict.Retry? {
      RetriedQueue(p, s, w, runtime, reply);
    } else {
      EndedQueue(p, s, w, runtime, reply);
    }
    ok := worker.ProcessTask(task, runtime, reply, now);
  }

  /** What one turn did. */
  datatype Turn = NothingReady | Attempted(task: QueueTask, ok: bool)

  /**
   Takes a task and processes it. The turn is a run of this worker's delivery steps; the queue is the
   one the run leads to, the records tell how the message ended, and a provider is called exactly for
   the try the run adds.
   */
  method RunOne(worker: Worker, w: nat, runtime: Option<ChannelRuntime>, reply: Option<SendResult>, takenAt: int,
                finishedAt: int,
                ghost p: Params, ghost clock: int, ghost workers: nat, ghost before: seq<Action>)
    returns (turn: Turn, ghost records: seq<Message>, ghost run: seq<Action>, ghost s: State)
    requires worker.queue.Valid() && p.policy.maxAttempts > 0
    requires var s0 := Run(p, clock, workers, before);
             Mirrors(worker, p, s0) && w < |s0.hands| && s0.hands[w] == Idle && s0.clock <= takenAt <= finishedAt
    modifies worker, worker.queue
    ensures worker.queue.Valid() && Mirrors(worker, p, s) && Extends(p, clock, workers, w, before, run, s)
    ensures s.hands == Run(p, clock, workers, before).hands
    ensures worker.messages == old(worker.messages) + records
    ensures turn == NothingReady ==>
            records == [] && worker.calls == old(worker.calls) && s.tries == Run(p, clock, workers, before).tries
    ensures turn.Attempted? ==>
              var id := Id(turn.task);
              && Tells(records, if id in s.ended then Some(s.ended[id]) else None)
              && exists x: Try :: && s.tries == Run(p, clock, workers, before).tries + [x]
                                  && x.messageId == id && x.takenAt == takenAt && x.finishedAt == finishedAt
                                  && worker.calls == old(worker.calls) + if x.called then [(id, x.attemptNo)] else []
  {
    hide Apply, Run, Extends, Q.TakeReady, Decide, Tells, Processed, TryOf;
    ghost var s0 := Run(p, clock, workers, before);
    records := [];
    run, s := Taking(p, clock, workers, w, before, takenAt);
    var task := worker.queue.TakeLocked(takenAt);
    if task.None? {
      return NothingReady, records, run, s;
    }
    assert s.hands == s0.hands[w := Running(task.value, takenAt)];
    ghost var u := s.(clock := finishedAt);
    run, s := Processing(p, clock, workers, w, before, run, s, task.value, takenAt, finishedAt, runtime, reply);
    var ok;
    ghost var x;
    ok, records, x := HandleTask(worker, w, task.value, runtime, reply, finishedAt, p, u);
    turn := Attempted(task.value, ok);
    assert s0.hands[w := Running(task.value, takenAt)][w := Idle] == s0.hands;
    TryTimes(p, task.value, takenAt, finishedAt, runtime, reply);
  }

  lemma TryTimes(p: Params, task: QueueTask, takenAt: int, finishedAt: int, runtime: Option<ChannelRuntime>,
                 reply: Option<SendResult>)
    requires !Decide(p.policy, task, runtime, reply).Unroutable?
    ensures var x := TryOf(p, task, takenAt, finishedAt, runtime, reply);
            x.messageId == Id(task) && x.takenAt == takenAt && x.finishedAt == finishedAt
  {
  }

  lemma Taking(p: Params, clock: int, workers: nat, w: nat, before: seq<Action>, takenAt: int)
    returns (run: seq<Action>, s: State)
    requires w < |Run(p, clock, workers, before).hands| && Run(p, clock, workers, before).hands[w] == Idle
    requires Run(p, clock, workers, before).clock <= takenAt
    ensures Extends(p, clock, workers, w, before, run, s)
    ensures var s0 := Run(p, clock, workers, before);
            s == TakeStep(s0.(clock := takenAt), w)
  {
    hide Run, Extends, TakeStep;
    var s0 := Run(p, clock, workers, before);
    Itself(p, clock, workers, w, before);
    ExtendsBy(p, clock, workers, w, before, before, s0, Tick(takenAt));
    ExtendsBy(p, clock, workers, w, before, before + [Tick(takenAt)], Apply(p, s0, Tick(takenAt)), Take(w));
    run := before + [Tick(takenAt)] + [Take(w)];
    s := Apply(p, Apply(p, s0, Tick(takenAt)), Take(w));
  }

  lemma Itself(p: Params, clock: int, workers: nat, w: nat, before: seq<Action>)
    ensures Extends(p, clock, workers, w, before, before, Run(p, clock, workers, before))
  {
  }

  lemma Processing(p: Params, clock: int, workers: nat, w: nat, before: seq<Action>, run0: seq<Action>, s0: State,
                   task: QueueTask,
                   takenAt: int, finishedAt: int, runtime: Option<ChannelRuntime>, reply: Option<SendResult>)
    returns (run: seq<Action>, s: State)
    requires p.policy.maxAttempts > 0 && Extends(p, clock, workers, w, before, run0, s0)
    requires w < |s0.hands| && s0.hands[w] == Running(task, takenAt) && s0.clock <= finishedAt
    ensures Extends(p, clock, workers, w, before, run, s)
    ensures s == Processed(p, s0.(clock := finishedAt), w, runtime, reply)
    ensures Id(task) !in s0.ended && !Decide(p.policy, task, runtime, reply).Unroutable?
  {
    hide Run, FinishStep, ReserveRetryStep, CommitRetryStep, Decide, OwnAction;
    OwnSteps(w, finishedAt, runtime, reply);
    Safety.RunKeepsInv(p, clock, workers, run0);
    Safety.HandIsToken(s0, w);
    Safety.RunningTokenInv(p, s0, w);
    Safety.VerdictOfToken(p, s0, task, runtime, reply);
    hide Extends, Inv;
    var a := Finish(w, runtime, reply);
    run, s := run0, s0;
    ExtendsBy(p, clock, workers, w, before, run, s, Tick(finishedAt));
    run, s := run + [Tick(finishedAt)], s.(clock := finishedAt);
    ExtendsBy(p, clock, workers, w, before, run, s, a);
    run, s := run + [a], FinishStep(p, s, w, runtime, reply);
    ExtendsBy(p, clock, workers, w, before, run, s, ReserveRetry(w));
    run, s := run + [ReserveRetry(w)], ReserveRetryStep(p, s, w);
    ExtendsBy(p, clock, workers, w, before, run, s, CommitRetry(w));
    run, s := run + [CommitRetry(w)], CommitRetryStep(s, w);
  }

  lemma OwnSteps(w: nat, now: int, runtime: Option<ChannelRuntime>, reply: Option<SendResult>)
    ensures OwnAction(w, Tick(now)) && OwnAction(w, Finish(w, runtime, reply))
    ensures OwnAction(w, ReserveRetry(w)) && OwnAction(w, CommitRetry(w))
  {
  }
}
