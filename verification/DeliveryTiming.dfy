/**
 When attempts run, over whole runs: a retry is not taken before the wait that follows
 the failed attempt has passed, counted from the moment that attempt finished.
 */
module DeliveryTiming {
  import opened Wrappers
  import opened Domain
  import opened WorkerTask
  import opened Delivery
  import Q = DelayQueue
  import Safety = DeliverySafety

  /** The earliest time of the attempt after a failed one. */
  function DueAfter(policy: RetryPolicy, t: Try): int {
    t.finishedAt + Min(MAX_RETRY_AFTER_SECONDS, Max(Backoff(policy, t.attemptNo + 1), t.retryAfterSeconds)) * SECOND
  }

  /** Attempt attemptNo, run at the given time, follows one of the first tries by at least its wait. */
  ghost predicate Waits(policy: RetryPolicy, tries: seq<Try>, before: nat, id: string, attemptNo: int, at: int)
    requires before <= |tries|
  {
    attemptNo > 1 ==>
      exists j :: && 0 <= j < before && tries[j].messageId == id && tries[j].attemptNo == attemptNo - 1
                  && DueAfter(policy, tries[j]) <= at
  }

  ghost predicate WaitsFor(p: Params, s: State, task: QueueTask, at: int) {
    Waits(p.policy, s.tries, |s.tries|, Id(task), task.attemptNo, at)
  }

  ghost predicate ItemsWait(p: Params, s: State) {
    && (forall x :: x in s.queue.ready ==> x.readyAt <= s.clock)
    && (forall x :: x in s.queue.ready || x in s.queue.delayed ==> WaitsFor(p, s, x.task, x.readyAt))
  }

  /** A retry still to be scheduled waits from now on. */
  ghost predicate HandWaits(p: Params, s: State, h: Hand) {
    match h
    case Idle => true
    case Running(task, takenAt) => WaitsFor(p, s, task, takenAt)
    case Scheduling(task, delay) => WaitsFor(p, s, task, s.clock + delay)
    case HasSlot(task, delay) => WaitsFor(p, s, task, s.clock + delay)
  }

  ghost predicate HandsWait(p: Params, s: State) {
    forall w :: 0 <= w < |s.hands| ==> HandWaits(p, s, s.hands[w])
  }

  ghost predicate TriesWait(p: Params, s: State) {
    forall i :: 0 <= i < |s.tries| ==>
                  Waits(p.policy, s.tries, i, s.tries[i].messageId, s.tries[i].attemptNo, s.tries[i].takenAt)
  }

  ghost predicate Timely(p: Params, s: State) {
    ItemsWait(p, s) && HandsWait(p, s) && TriesWait(p, s)
  }

  lemma WaitsLonger(policy: RetryPolicy, tries: seq<Try>, longer: seq<Try>, before: nat, after: nat, id: string, n: int,
                    at: int, later: int)
    requires before <= after <= |longer| && before <= |tries| <= |longer| && longer[..|tries|] == tries && at <= later
    requires Waits(policy, tries, before, id, n, at)
    ensures Waits(policy, longer, after, id, n, later)
  {
    if n > 1 {
      var j :| && 0 <= j < before && tries[j].messageId == id && tries[j].attemptNo == n - 1
          && DueAfter(policy, tries[j]) <= at;
      assert longer[j] == longer[..|tries|][j];
    }
  }

  /** Whatever else changes, what waited still waits while tries and time only grow. */
  lemma StillWaits(p: Params, s: State, t: State)
    requires |s.tries| <= |t.tries| && t.tries[..|s.tries|] == s.tries && s.clock <= t.clock
    ensures forall task, at, later :: WaitsFor(p, s, task, at) && at <= later ==> WaitsFor(p, t, task, later)
    ensures forall h :: HandWaits(p, s, h) ==> HandWaits(p, t, h)
  {
    forall task, at, later | WaitsFor(p, s, task, at) && at <= later
      ensures WaitsFor(p, t, task, later)
    {
      WaitsLonger(p.policy, s.tries, t.tries, |s.tries|, |t.tries|, Id(task), task.attemptNo, at, later);
    }
    hide WaitsFor;
  }

  lemma {:induction false} MovedAreDue(q: Q.QueueState, now: int)
    ensures forall x :: x in Q.MoveReady(q, now).ready ==> x in q.ready || (x in q.delayed && x.readyAt <= now)
    ensures Q.MoveReady(q, now).delayed <= q.delayed
    decreases |q.delayed|
  {
    if m :| Q.IsFirst(m, q.delayed) && m.readyAt <= now {
      Q.MoveFirst(q, m, now);
      MovedAreDue(q.(ready := q.ready + [m], delayed := q.delayed - {m}), now);
    }
  }

  lemma TakeIsTimely(p: Params, s: State, w: nat)
    requires Timely(p, s)
    ensures Timely(p, TakeStep(s, w))
  {
    hide WaitsFor;
    var t := TakeStep(s, w);
    StillWaits(p, s, t);
    MovedAreDue(s.queue, s.clock);
    hide Q.MoveReady;
  }

  lemma TriesWaitGrows(p: Params, s: State, t: State, x: Try)
    requires TriesWait(p, s) && t.tries == s.tries + [x]
    requires Waits(p.policy, s.tries, |s.tries|, x.messageId, x.attemptNo, x.takenAt)
    ensures TriesWait(p, t)
  {
    hide Waits;
    forall i | 0 <= i < |t.tries|
      ensures Waits(p.policy, t.tries, i, t.tries[i].messageId, t.tries[i].attemptNo, t.tries[i].takenAt)
    {
      var y := t.tries[i];
      WaitsLonger(p.policy, s.tries, t.tries, i, i, y.messageId, y.attemptNo, y.takenAt, y.takenAt);
    }
  }

  /** The wait of a retry is the one its failed attempt leads to. */
  lemma RetryWaits(p: Params, s: State, t: State, task: QueueTask, takenAt: int, runtime: Option<ChannelRuntime>,
                   reply: Option<SendResult>)
    requires Decide(p.policy, task, runtime, reply).Retry?
    requires t.tries == s.tries + [TryOf(p, task, takenAt, s.clock, runtime, reply)] && t.clock == s.clock
    ensures WaitsFor(p, t, Successor(task), t.clock + Decide(p.policy, task, runtime, reply).delay)
  {
    hide Usable, ChannelForAttempt, NormalizedFailure, Min, Max, Backoff;
    var x := TryOf(p, task, takenAt, s.clock, runtime, reply);
    assert t.tries[|s.tries|] == x;
    assert DueAfter(p.policy, x) == s.clock + Decide(p.policy, task, runtime, reply).delay;
  }

  lemma FinishIsTimely(p: Params, s: State, w: nat, runtime: Option<ChannelRuntime>, reply: Option<SendResult>)
    requires Timely(p, s)
    ensures Timely(p, FinishStep(p, s, w, runtime, reply))
  {
    hide Decide, Waits;
    var t := FinishStep(p, s, w, runtime, reply);
    StillWaits(p, s, t);
    hide WaitsFor;
    if w < |s.hands| && s.hands[w].Running? {
      var Running(task, takenAt) := s.hands[w];
      assert HandWaits(p, s, s.hands[w]);
      if !Decide(p.policy, task, runtime, reply).Unroutable? {
        FinishedTryWaits(p, s, task, takenAt, s.clock, runtime, reply);
        TriesWaitGrows(p, s, t, TryOf(p, task, takenAt, s.clock, runtime, reply));
      }
      if Decide(p.policy, task, runtime, reply).Retry? {
        RetryWaits(p, s, t, task, takenAt, runtime, reply);
      }
    }
  }

  lemma FinishedTryWaits(p: Params, s: State, task: QueueTask, takenAt: int, now: int, runtime: Option<ChannelRuntime>,
                         reply: Option<SendResult>)
    requires WaitsFor(p, s, task, takenAt) && !Decide(p.policy, task, runtime, reply).Unroutable?
    ensures var x := TryOf(p, task, takenAt, now, runtime, reply);
            Waits(p.policy, s.tries, |s.tries|, x.messageId, x.attemptNo, x.takenAt)
  {
    hide Decide, Usable, Answer;
  }

  lemma CommitIsTimely(p: Params, s: State, w: nat)
    requires Timely(p, s)
    ensures Timely(p, CommitRetryStep(s, w))
  {
    hide WaitsFor;
    var t := CommitRetryStep(s, w);
    StillWaits(p, s, t);
    if w < |s.hands| && s.hands[w].HasSlot? {
      assert HandWaits(p, s, s.hands[w]);
      var HasSlot(task, delay) := s.hands[w];
      var item := Q.NewItem(s.queue, task, delay, s.clock);
      SameTaskWaits(p, t, task, item);
    }
  }

  /** Queueing a task sets its ready time and nothing else that its wait depends on. */
  lemma SameTaskWaits(p: Params, s: State, task: QueueTask, item: Q.Item)
    requires item.task == task.(availableAt := item.readyAt)
    ensures WaitsFor(p, s, task, item.readyAt) ==> WaitsFor(p, s, item.task, item.readyAt)
  {
  }

  lemma SubmitIsTimely(p: Params, s: State, message: Message)
    requires Timely(p, s)
    ensures Timely(p, SubmitStep(p, s, message))
  {
    StillWaits(p, s, SubmitStep(p, s, message));
    hide Waits, Routed;
    assert forall task: QueueTask, at :: task.attemptNo == 1 ==>
           Waits(p.policy, s.tries, |s.tries|, Id(task), task.attemptNo, at) by {
      FirstsNeedNotWait(p, s);
    }
  }

  lemma FirstsNeedNotWait(p: Params, s: State)
    ensures forall task: QueueTask, at ::
              task.attemptNo == 1 ==> Waits(p.policy, s.tries, |s.tries|, Id(task), task.attemptNo, at)
  {
  }

  lemma ActionIsTimely(p: Params, s: State, a: Action)
    requires Timely(p, s)
    ensures Timely(p, Apply(p, s, a))
  {
    hide TakeStep, FinishStep, CommitRetryStep, SubmitStep, WaitsFor;
    match a
    case Tick(now) => StillWaits(p, s, Apply(p, s, a));
    case Submit(message) => SubmitIsTimely(p, s, message);
    case Take(w) => TakeIsTimely(p, s, w);
    case Finish(w, runtime, reply) => FinishIsTimely(p, s, w, runtime, reply);
    case CommitRetry(w) => CommitIsTimely(p, s, w);
    case _ => StillWaits(p, s, Apply(p, s, a));
  }

  lemma {:induction false} RunIsTimely(p: Params, clock: int, workers: nat, actions: seq<Action>)
    ensures Timely(p, Run(p, clock, workers, actions))
  {
    hide Apply;
    if actions != [] {
      RunIsTimely(p, clock, workers, actions[..|actions| - 1]);
      ActionIsTimely(p, Run(p, clock, workers, actions[..|actions| - 1]), actions[|actions| - 1]);
    }
  }

  lemma DueIsThen(policy: RetryPolicy, t: Try)
    ensures DueAfter(policy, t)
            == t.finishedAt + WaitSeconds(policy, t.attemptNo + 1, t.retryAfterSeconds) * 1_000_000_000
  {
    DelayInSeconds(policy, t.attemptNo + 1, t.retryAfterSeconds);
  }

  /**
   Over any run: an attempt is taken no earlier than the end of the attempt before it plus the
   larger of its backoff and the provider's retry-after, capped at 300 seconds.
   */
  lemma RetriesWait(p: Params, clock: int, workers: nat, actions: seq<Action>, i: nat, j: nat)
    requires p.policy.maxAttempts > 0
    requires var tries := Run(p, clock, workers, actions).tries;
             && i < |tries| && j < |tries|
             && tries[i].messageId == tries[j].messageId && tries[j].attemptNo == tries[i].attemptNo + 1
    ensures var tries := Run(p, clock, workers, actions).tries;
            tries[j].takenAt >= tries[i].finishedAt
              + WaitSeconds(p.policy, tries[j].attemptNo, tries[i].retryAfterSeconds) * 1_000_000_000
  {
    hide Run, ItemsWait, HandsWait, Tried, DueAfter;
    RunIsTimely(p, clock, workers, actions);
    Safety.AttemptsAreSequential(p, clock, workers, actions);
    var tries := Run(p, clock, workers, actions).tries;
    assert Waits(p.policy, tries, j, tries[j].messageId, tries[j].attemptNo, tries[j].takenAt);
    var k :| && 0 <= k < j && tries[k].messageId == tries[j].messageId && tries[k].attemptNo == tries[j].attemptNo - 1
             && DueAfter(p.policy, tries[k]) <= tries[j].takenAt;
    assert k == i;
    DueIsThen(p.policy, tries[i]);
  }
}
