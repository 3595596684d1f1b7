/**
 Every accepted message ends. A measure over all messages never rises without a new
 submission and falls with every step a worker takes; while the queue is open and a
 message has not ended, some worker can take a step; so any fixed set of messages
 drains, whatever the providers answer.
 */
module Draining {
  import opened Wrappers
  import opened Domain
  import opened WorkerTask
  import opened Delivery
  import opened DeliverySafety
  import Q = DelayQueue

  // ---------- the measure ----------

  /** The delivery steps a message may still take. */
  function LeftOf(p: Params, work: map<string, nat>, id: string): nat {
    var most := 4 * p.policy.maxAttempts;
    var done := if id in work then work[id] else 0;
    if done < most then most - done else 0
  }

  ghost function Sum(p: Params, work: map<string, nat>, ids: set<string>): nat {
    if ids == {} then 0 else
      var id :| id in ids;
      LeftOf(p, work, id) + Sum(p, work, ids - {id})
  }

  /** The delivery steps all accepted messages may still take. */
  ghost function Left(p: Params, s: State): nat {
    Sum(p, s.work, s.accepted.Keys)
  }

  lemma {:induction false} SumSplits(p: Params, work: map<string, nat>, ids: set<string>, id: string)
    requires id in ids
    ensures Sum(p, work, ids) == LeftOf(p, work, id) + Sum(p, work, ids - {id})
  {
    hide LeftOf;
    var first :| first in ids && Sum(p, work, ids) == LeftOf(p, work, first) + Sum(p, work, ids - {first});
    if first != id {
      SumSplits(p, work, ids - {first}, id);
      SumSplits(p, work, ids - {id}, first);
      assert ids - {first} - {id} == ids - {id} - {first};
    }
  }

  lemma {:induction false} SumUnchanged(p: Params, work: map<string, nat>, later: map<string, nat>, ids: set<string>)
    requires forall id :: id in ids ==> LeftOf(p, work, id) == LeftOf(p, later, id)
    ensures Sum(p, work, ids) == Sum(p, later, ids)
  {
    hide LeftOf;
    if ids != {} {
      var id :| id in ids;
      SumSplits(p, work, ids, id);
      SumSplits(p, later, ids, id);
      SumUnchanged(p, work, later, ids - {id});
    }
  }

  predicate WorkerAction(a: Action) {
    a.Take? || a.Finish? || a.ReserveRetry? || a.CommitRetry?
  }

  /** A step of one message that it was still allowed. */
  ghost predicate OneStep(p: Params, s: State, t: State, id: string) {
    && id in s.accepted && id in s.work && s.work[id] < 4 * p.policy.maxAttempts
    && t.work == s.work[id := s.work[id] + 1]
  }

  lemma HandMayStep(p: Params, s: State, w: nat)
    requires Inv(p, s) && w < |s.hands| && s.hands[w] != Idle
    ensures var id := Id(s.hands[w].task); id in s.accepted && id in s.work && s.work[id] < 4 * p.policy.maxAttempts
  {
    HandIsToken(s, w);
    assert TokenInv(p, s, InHand(w, s.hands[w]));
  }

  lemma TakenMayStep(p: Params, s: State)
    requires Inv(p, s) && Q.TakeReady(s.queue, s.clock).1.Some?
    ensures var id := Id(Q.TakeReady(s.queue, s.clock).1.value.task);
            id in s.accepted && id in s.work && s.work[id] < 4 * p.policy.maxAttempts
  {
    hide Q.TakeReady;
    TakeRemovesOne(s.queue, s.clock);
    var x := Q.TakeReady(s.queue, s.clock).1.value;
    InTokens(QueueItems(s.queue), s.hands, Queued(x));
    assert TokenInv(p, s, Queued(x));
  }

  /** Apart from a submission, an action leaves all work alone or is one step of one message by a worker. */
  lemma ActionWorks(p: Params, s: State, a: Action) returns (id: string)
    requires Inv(p, s) && !a.Submit?
    ensures var t := Apply(p, s, a);
            && t.accepted == s.accepted
            && (t.work == s.work || (WorkerAction(a) && OneStep(p, s, t, id)))
  {
    hide Inv, Decide, Q.TakeReady, Q.ReserveSlot, Q.CommitSlot;
    id := "";
    match a {
      case Take(w) =>
        if Q.TakeReady(s.queue, s.clock).1.Some? {
          TakenMayStep(p, s);
          id := Id(Q.TakeReady(s.queue, s.clock).1.value.task);
        }
      case Finish(w, _, _) =>
        if w < |s.hands| && s.hands[w] != Idle { HandMayStep(p, s, w); id := Id(s.hands[w].task); }
      case ReserveRetry(w) =>
        if w < |s.hands| && s.hands[w] != Idle { HandMayStep(p, s, w); id := Id(s.hands[w].task); }
      case CommitRetry(w) =>
        if w < |s.hands| && s.hands[w] != Idle { HandMayStep(p, s, w); id := Id(s.hands[w].task); }
      case _ =>
    }
  }

  lemma StepCosts(p: Params, s: State, t: State, id: string)
    requires OneStep(p, s, t, id) && t.accepted == s.accepted
    ensures Left(p, t) == Left(p, s) - 1
  {
    var ids := s.accepted.Keys;
    SumSplits(p, s.work, ids, id);
    SumSplits(p, t.work, ids, id);
    SumUnchanged(p, s.work, t.work, ids - {id});
  }

  /** The measure never rises without a submission, and every step of a message lowers it by one. */
  lemma ActionCosts(p: Params, s: State, a: Action)
    requires Inv(p, s) && !a.Submit?
    ensures var t := Apply(p, s, a);
            && t.accepted == s.accepted
            && Left(p, t) == Left(p, s) - (if t.work == s.work then 0 else 1)
            && (t.work != s.work ==> WorkerAction(a))
  {
    hide Inv, Apply, Sum, OneStep;
    var id := ActionWorks(p, s, a);
    var t := Apply(p, s, a);
    if t.work != s.work {
      StepCosts(p, s, t, id);
    }
  }

  // ---------- runs ----------

  /** Further actions, from a state on. */
  ghost function Exec(p: Params, s: State, actions: seq<Action>): State
    decreases |actions|
  {
    if actions == [] then s else Exec(p, Apply(p, s, actions[0]), actions[1..])
  }

  lemma {:induction false} RunThenExec(p: Params, clock: int, workers: nat, before: seq<Action>, more: seq<Action>)
    ensures Run(p, clock, workers, before + more) == Exec(p, Run(p, clock, workers, before), more)
    decreases |more|
  {
    hide Apply;
    if more == [] {
      assert before + more == before;
    } else {
      assert (before + [more[0]])[..|before|] == before;
      assert before + more == before + [more[0]] + more[1..];
      RunThenExec(p, clock, workers, before + [more[0]], more[1..]);
    }
  }

  /** The steps of messages in a run. */
  ghost function Steps(p: Params, s: State, actions: seq<Action>): nat
    decreases |actions|
  {
    if actions == [] then 0 else
      var t := Apply(p, s, actions[0]);
      (if t.work == s.work then 0 else 1) + Steps(p, t, actions[1..])
  }

  lemma {:induction false} ExecCosts(p: Params, s: State, actions: seq<Action>)
    requires Inv(p, s) && forall a :: a in actions ==> !a.Submit?
    ensures Steps(p, s, actions) + Left(p, Exec(p, s, actions)) == Left(p, s)
    ensures Exec(p, s, actions).accepted == s.accepted
    decreases |actions|
  {
    hide Inv, Apply, Left;
    if actions != [] {
      ActionCosts(p, s, actions[0]);
      ActionKeepsInv(p, s, actions[0]);
      ExecCosts(p, Apply(p, s, actions[0]), actions[1..]);
    }
  }

  /**
   From any reachable state, whatever the schedule, the providers, other users of the queue and a
   close: without new submissions at most the measure's number of delivery steps follow.
   */
  lemma StepsAreBounded(p: Params, clock: int, workers: nat, before: seq<Action>, more: seq<Action>)
    requires p.policy.maxAttempts > 0 && forall a :: a in more ==> !a.Submit?
    ensures var s := Run(p, clock, workers, before);
            Steps(p, s, more) + Left(p, Run(p, clock, workers, before + more)) == Left(p, s)
  {
    hide Run, Left;
    RunKeepsInv(p, clock, workers, before);
    ExecCosts(p, Run(p, clock, workers, before), more);
    RunThenExec(p, clock, workers, before, more);
  }

  // ---------- progress ----------

  lemma {:induction false} MoveReadyIsDone(q: Q.QueueState, now: int)
    ensures var m := Q.MoveReady(q, now); !exists x :: Q.IsFirst(x, m.delayed) && x.readyAt <= now
    decreases |q.delayed|
  {
    if m :| Q.IsFirst(m, q.delayed) && m.readyAt <= now {
      Q.MoveFirst(q, m, now);
      MoveReadyIsDone(q.(ready := q.ready + [m], delayed := q.delayed - {m}), now);
    }
  }

  lemma {:induction false} FirstExists(items: set<Q.Item>)
    requires items != {}
    requires forall x, y :: x in items && y in items && x != y ==> x.sequence != y.sequence
    ensures exists m :: Q.IsFirst(m, items)
  {
    var x :| x in items;
    if items == {x} {
      assert Q.IsFirst(x, items);
    } else {
      FirstExists(items - {x});
      var m :| Q.IsFirst(m, items - {x});
      var least := if Q.Before(x, m) then x else m;
      forall y | y in items && y != least
        ensures Q.Before(least, y)
      {
        if y != x && y != m {
          assert y in items - {x} && Q.Before(m, y);
        }
      }
      assert Q.IsFirst(least, items);
    }
  }

  /** A task that is due can be taken, or another one can. */
  lemma DueTaskCanBeTaken(q: Q.QueueState, now: int, x: Q.Item)
    requires QueueDistinct(q) && !q.closed && x in QueueItems(q) && x.readyAt <= now
    ensures Q.TakeReady(q, now).1.Some?
  {
    MoveKeepsItems(q, now);
    MoveReadyIsDone(q, now);
    hide Q.MoveReady;
    var moved := Q.MoveReady(q, now);
    if moved.ready == [] {
      assert x in moved.delayed;
      FirstExists(moved.delayed);
    }
  }

  /** What the provider side answers: the runtime resolved for a worker's attempt and the adapter's reply. */
  type Provider = (State, nat) -> (Option<ChannelRuntime>, Option<SendResult>)

  /** Only time passes and workers act, and finished attempts got the provider's answers. */
  ghost predicate Served(p: Params, s: State, actions: seq<Action>, provider: Provider)
    decreases |actions|
  {
    actions != [] ==>
      && (actions[0].Tick? || WorkerAction(actions[0]))
      && (actions[0].Finish? ==> (actions[0].runtime, actions[0].reply) == provider(s, actions[0].w))
      && Served(p, Apply(p, s, actions[0]), actions[1..], provider)
  }

  lemma HandStepsWork(p: Params, s: State, w: nat, runtime: Option<ChannelRuntime>, reply: Option<SendResult>)
    requires w < |s.hands|
    ensures s.hands[w].Running? ==> Apply(p, s, Finish(w, runtime, reply)).work == Worked(s, Id(s.hands[w].task))
    ensures s.hands[w].Scheduling? ==> Apply(p, s, ReserveRetry(w)).work == Worked(s, Id(s.hands[w].task))
    ensures s.hands[w].HasSlot? ==> Apply(p, s, CommitRetry(w)).work == Worked(s, Id(s.hands[w].task))
  {
    hide Worked, Decide, Usable, Q.ReserveSlot, Q.CommitSlot;
  }

  /** A worker step that is possible now; an attempt under way may finish with any answer. */
  lemma BusyHandSteps(p: Params, s: State, w: nat, runtime: Option<ChannelRuntime>, reply: Option<SendResult>)
    returns (a: Action)
    requires Inv(p, s) && w < |s.hands| && s.hands[w] != Idle
    ensures WorkerAction(a) && Apply(p, s, a).work != s.work
    ensures a.Finish? ==> a == Finish(w, runtime, reply)
  {
    HandMayStep(p, s, w);
    HandStepsWork(p, s, w, runtime, reply);
    var id := Id(s.hands[w].task);
    hide Inv, Apply;
    match s.hands[w] {
      case Running(_, _) => a := Finish(w, runtime, reply);
      case Scheduling(_, _) => a := ReserveRetry(w);
      case HasSlot(_, _) => a := CommitRetry(w);
    }
    assert Apply(p, s, a).work[id] == s.work[id] + 1;
  }

  lemma IdleHandTakes(p: Params, s: State, x: Q.Item)
    requires Inv(p, s) && |s.hands| > 0 && s.hands[0] == Idle && !s.queue.closed
    requires x in QueueItems(s.queue) && x.readyAt <= s.clock
    ensures Apply(p, s, Take(0)).work != s.work
  {
    DueTaskCanBeTaken(s.queue, s.clock, x);
    TakenMayStep(p, s);
    hide Inv, Q.TakeReady;
    var id := Id(Q.TakeReady(s.queue, s.clock).1.value.task);
    assert Apply(p, s, Take(0)).work[id] == s.work[id] + 1;
  }

  /**
   While the queue is open and an accepted message has not ended, a worker can take a step, now or once
   time has passed.
   */
  lemma Progress(p: Params, s: State, id: string, provider: Provider) returns (now: int, a: Action)
    requires Inv(p, s) && |s.hands| > 0 && !s.queue.closed && id in s.accepted && id !in s.ended
    ensures s.clock <= now && WorkerAction(a)
    ensures var u := s.(clock := now);
            && Apply(p, u, a).work != u.work
            && (a.Finish? ==> (a.runtime, a.reply) == provider(u, a.w))
  {
    assert HasToken(s, id);
    var token :| token in Tokens(s) && Id(TaskOf(token)) == id;
    InTokens(QueueItems(s.queue), s.hands, token);
    if token.InHand? || s.hands[0] != Idle {
      now := s.clock;
      var w := if token.InHand? then token.worker else 0;
      a := BusyHandSteps(p, s, w, provider(s, w).0, provider(s, w).1);
      assert s.(clock := now) == s;
    } else {
      now := if token.item.readyAt < s.clock then s.clock else token.item.readyAt;
      a := Take(0);
      TimeKeepsInv(p, s, now);
      IdleHandTakes(p, s.(clock := now), token.item);
    }
  }

  lemma {:induction false} WorkersStay(p: Params, s: State, a: Action)
    ensures |Apply(p, s, a).hands| == |s.hands|
    ensures !a.Close? ==> Apply(p, s, a).queue.closed == s.queue.closed
  {
    hide Decide, Q.MoveReady, Q.EnqueueEffect;
    Q.MoveKeepsCount(s.queue, s.clock);
    if a.Submit? {
      EnqueueKeepsOpen(s.queue, p.capacity, QueueTask(a.message, 1, 0), 0, s.clock);
    }
  }

  lemma EnqueueKeepsOpen(q: Q.QueueState, capacity: nat, task: QueueTask, delay: int, now: int)
    ensures Q.EnqueueEffect(q, capacity, task, delay, now).0.closed == q.closed
  {
  }

  lemma {:induction false} RunHasWorkers(p: Params, clock: int, workers: nat, actions: seq<Action>)
    ensures |Run(p, clock, workers, actions).hands| == workers
  {
    hide Apply;
    if actions != [] {
      RunHasWorkers(p, clock, workers, actions[..|actions| - 1]);
      WorkersStay(p, Run(p, clock, workers, actions[..|actions| - 1]), actions[|actions| - 1]);
    }
  }

  ghost predicate Drained(s: State) {
    forall id :: id in s.accepted ==> id in s.ended
  }

  /** From an open state every accepted message can be brought to its end, against any provider. */
  lemma {:induction false} ExecDrains(p: Params, s: State, provider: Provider) returns (more: seq<Action>)
    requires Inv(p, s) && |s.hands| > 0 && !s.queue.closed
    ensures Served(p, s, more, provider) && |more| <= 2 * Left(p, s)
    ensures var t := Exec(p, s, more); Drained(t) && t.accepted == s.accepted && !t.queue.closed
    decreases Left(p, s)
  {
    hide Inv, Left;
    if Drained(s) {
      return [];
    }
    var id :| id in s.accepted && id !in s.ended;
    var now, a := Progress(p, s, id, provider);
    var u := Apply(p, s, Tick(now));
    assert u == s.(clock := now);
    hide Apply;
    ActionKeepsInv(p, s, Tick(now));
    ActionCosts(p, s, Tick(now));
    ActionCosts(p, u, a);
    ActionKeepsInv(p, u, a);
    WorkersStay(p, u, a);
    var rest := ExecDrains(p, Apply(p, u, a), provider);
    more := [Tick(now), a] + rest;
    assert more[1..] == [a] + rest && more[1..][1..] == rest;
    assert Served(p, u, more[1..], provider);
  }

  /**
   A fixed set of messages drains: from every reachable open state with a worker, for any number of
   workers and any provider answers, some schedule of time and worker steps ends every accepted
   message, in at most twice as many actions as the measure.
   */
  lemma Drains(p: Params, clock: int, workers: nat, before: seq<Action>, provider: Provider) returns (more: seq<Action>)
    requires p.policy.maxAttempts > 0 && workers > 0 && !Run(p, clock, workers, before).queue.closed
    ensures Served(p, Run(p, clock, workers, before), more, provider)
    ensures |more| <= 2 * Left(p, Run(p, clock, workers, before))
    ensures var s, t := Run(p, clock, workers, before), Run(p, clock, workers, before + more);
            Drained(t) && t.accepted == s.accepted && !t.queue.closed
  {
    hide Run, Left;
    RunKeepsInv(p, clock, workers, before);
    RunHasWorkers(p, clock, workers, before);
    more := ExecDrains(p, Run(p, clock, workers, before), provider);
    RunThenExec(p, clock, workers, before, more);
  }

  /**
   In every reachable open state, while an accepted message has not ended, a worker step is possible that
   lowers the measure.
   */
  lemma NeverStuck(p: Params, clock: int, workers: nat, actions: seq<Action>, id: string, provider: Provider)
    returns (wait: int, a: Action)
    requires p.policy.maxAttempts > 0 && workers > 0
    requires var s := Run(p, clock, workers, actions); !s.queue.closed && id in s.accepted && id !in s.ended
    ensures WorkerAction(a)
    ensures var s := Run(p, clock, workers, actions);
            var u := Apply(p, s, Tick(wait));
            && (a.Finish? ==> (a.runtime, a.reply) == provider(u, a.w))
            && Left(p, Apply(p, u, a)) == Left(p, s) - 1
            && !Apply(p, u, a).queue.closed
  {
    hide Run, Left, Inv;
    RunKeepsInv(p, clock, workers, actions);
    RunHasWorkers(p, clock, workers, actions);
    var s := Run(p, clock, workers, actions);
    wait, a := Progress(p, s, id, provider);
    var u := Apply(p, s, Tick(wait));
    assert u == s.(clock := wait);
    hide Apply;
    ActionKeepsInv(p, s, Tick(wait));
    ActionCosts(p, s, Tick(wait));
    ActionCosts(p, u, a);
    WorkersStay(p, s, Tick(wait));
    WorkersStay(p, u, a);
  }
}
