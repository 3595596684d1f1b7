/**
 The order in which tasks leave the queue, over whole runs.

 A run is any sequence of clock ticks, reservations, commits, releases, takes and a
 close. The record keeps, beside the queue, what each commit asked for and every item
 taken with the time it was taken.
 */
module QueueOrder {
  import opened Wrappers
  import opened Domain
  import opened DelayQueue

  datatype Asked = Asked(delay: int, at: int)

  datatype Record = Record(q: QueueState, clock: int, asked: map<nat, Asked>, left: seq<Item>, leftAt: seq<int>)

  datatype Event =
    | Tick(now: int)
    | ReserveEvent
    | ReleaseEvent
    | CommitEvent(task: QueueTask, delay: int)
    | TakeEvent
    | CloseEvent

  ghost function Step(r: Record, capacity: nat, e: Event): Record {
    match e
    case Tick(now) => if now < r.clock then r else r.(clock := now)
    case ReserveEvent => r.(q := ReserveSlot(r.q, capacity).0)
    case ReleaseEvent => r.(q := ReturnSlot(r.q))
    case CommitEvent(task, delay) =>
      var q := CommitSlot(r.q, task, delay, r.clock);
      if r.q.closed then r.(q := q) else r.(q := q, asked := r.asked[q.nextSeq := Asked(delay, r.clock)])
    case TakeEvent =>
      var (q, taken) := TakeReady(r.q, r.clock);
      if taken.None? then r.(q := q) else r.(q := q, left := r.left + [taken.value], leftAt := r.leftAt + [r.clock])
    case CloseEvent => r.(q := CloseQueue(r.q))
  }

  function Start(clock: int): Record {
    Record(QueueState(0, 0, [], {}, false), clock, map[], [], [])
  }

  ghost function Run(clock: int, capacity: nat, events: seq<Event>): Record {
    if events == [] then Start(clock)
    else Step(Run(clock, capacity, events[..|events| - 1]), capacity, events[|events| - 1])
  }

  /** The wait an item was committed with. */
  function Wait(x: Item, asked: map<nat, Asked>): int
    requires x.sequence in asked
  {
    if asked[x.sequence].delay < 0 then 0 else asked[x.sequence].delay
  }

  /** An item carries the ready time its commit asked for. */
  ghost predicate Faithful(x: Item, asked: map<nat, Asked>) {
    && x.sequence in asked
    && x.readyAt == asked[x.sequence].at + Wait(x, asked)
    && x.task.availableAt == x.readyAt
  }

  /** The order in which two items may leave: by release order if both waited, by commit order if neither did. */
  ghost predicate MayPrecede(x: Item, y: Item, asked: map<nat, Asked>) {
    && Faithful(x, asked) && Faithful(y, asked)
    && (Wait(x, asked) > 0 && Wait(y, asked) > 0 ==> Before(x, y))
    && (Wait(x, asked) == 0 && Wait(y, asked) == 0 ==> x.sequence < y.sequence)
  }

  /** out lists the items that left or are ready, in order; heap holds the ones still waiting. */
  ghost predicate InOrder(out: seq<Item>, heap: set<Item>, asked: map<nat, Asked>, nextSeq: nat, clock: int) {
    && (forall s :: s in asked ==> s <= nextSeq && asked[s].at <= clock)
    && (forall i :: 0 <= i < |out| ==> Faithful(out[i], asked) && out[i].readyAt <= clock)
    && (forall y :: y in heap ==> Faithful(y, asked) && Wait(y, asked) > 0)
    && (forall i, j :: 0 <= i < j < |out| ==> MayPrecede(out[i], out[j], asked))
    && (forall i, y :: 0 <= i < |out| && y in heap && Wait(out[i], asked) > 0 ==> Before(out[i], y))
  }

  ghost predicate Ordered(r: Record) {
    && InOrder(r.left + r.q.ready, r.q.delayed, r.asked, r.q.nextSeq, r.clock)
    && |r.leftAt| == |r.left|
    && (forall i :: 0 <= i < |r.left| ==> r.left[i].readyAt <= r.leftAt[i] <= r.clock)
  }

  lemma MovedInOrder(out: seq<Item>, heap: set<Item>, asked: map<nat, Asked>, nextSeq: nat, clock: int, m: Item)
    requires InOrder(out, heap, asked, nextSeq, clock) && IsFirst(m, heap) && m.readyAt <= clock
    ensures InOrder(out + [m], heap - {m}, asked, nextSeq, clock)
  {
  }

  lemma {:induction false} MoveKeepsOrder(left: seq<Item>, q: QueueState, asked: map<nat, Asked>, clock: int)
    requires InOrder(left + q.ready, q.delayed, asked, q.nextSeq, clock)
    ensures var m := MoveReady(q, clock);
            InOrder(left + m.ready, m.delayed, asked, m.nextSeq, clock) && m.nextSeq == q.nextSeq
    decreases |q.delayed|
  {
    hide InOrder;
    if m :| IsFirst(m, q.delayed) && m.readyAt <= clock {
      MoveFirst(q, m, clock);
      MovedInOrder(left + q.ready, q.delayed, asked, q.nextSeq, clock, m);
      assert left + (q.ready + [m]) == left + q.ready + [m];
      MoveKeepsOrder(left, q.(ready := q.ready + [m], delayed := q.delayed - {m}), asked, clock);
    }
  }

  lemma PrefixInOrder(out: seq<Item>, k: nat, heap: set<Item>, asked: map<nat, Asked>, nextSeq: nat, clock: int)
    requires InOrder(out, heap, asked, nextSeq, clock) && k <= |out|
    ensures InOrder(out[..k], {}, asked, nextSeq, clock)
  {
  }

  /** Recording a new commit changes nothing for the items already there. */
  lemma AskedLater(out: seq<Item>, heap: set<Item>, asked: map<nat, Asked>, nextSeq: nat, clock: int, a: Asked)
    requires InOrder(out, heap, asked, nextSeq, clock) && a.at <= clock
    ensures InOrder(out, heap, asked[nextSeq + 1 := a], nextSeq + 1, clock)
    ensures forall i :: 0 <= i < |out| ==> out[i].sequence <= nextSeq
    ensures forall y :: y in heap ==> y.sequence <= nextSeq
  {
    var later := asked[nextSeq + 1 := a];
    assert nextSeq + 1 !in asked;
    forall x: Item | Faithful(x, asked)
      ensures Faithful(x, later) && Wait(x, later) == Wait(x, asked)
    {
    }
  }

  lemma CommitKeepsOrder(r: Record, task: QueueTask, delay: int)
    requires Ordered(r) && !r.q.closed
    ensures Ordered(Step(r, 0, CommitEvent(task, delay)))
  {
    hide InOrder;
    var item := NewItem(r.q, task, delay, r.clock);
    var s := Step(r, 0, CommitEvent(task, delay));
    var out := r.left + r.q.ready;
    AskedLater(out, r.q.delayed, r.asked, r.q.nextSeq, r.clock, Asked(delay, r.clock));
    assert Faithful(item, s.asked);
    if delay <= 0 {
      assert s.left + s.q.ready == out + [item];
      AppendedInOrder(out, r.q.delayed, s.asked, s.q.nextSeq, r.clock, item);
    } else {
      PushedInOrder(out, r.q.delayed, s.asked, s.q.nextSeq, r.clock, item);
    }
  }

  lemma AppendedInOrder(out: seq<Item>, heap: set<Item>, asked: map<nat, Asked>, nextSeq: nat, clock: int, item: Item)
    requires InOrder(out, heap, asked, nextSeq, clock)
    requires Faithful(item, asked) && Wait(item, asked) == 0 && item.readyAt <= clock
    requires forall i :: 0 <= i < |out| ==> out[i].sequence < item.sequence
    ensures InOrder(out + [item], heap, asked, nextSeq, clock)
  {
  }

  lemma PushedInOrder(out: seq<Item>, heap: set<Item>, asked: map<nat, Asked>, nextSeq: nat, clock: int, item: Item)
    requires InOrder(out, heap, asked, nextSeq, clock)
    requires Faithful(item, asked) && Wait(item, asked) > 0 && item.readyAt > clock
    ensures InOrder(out, heap + {item}, asked, nextSeq, clock)
  {
  }

  lemma TakeKeepsOrder(r: Record)
    requires Ordered(r) && !r.q.closed
    ensures Ordered(Step(r, 0, TakeEvent))
  {
    hide InOrder;
    MoveKeepsOrder(r.left, r.q, r.asked, r.clock);
    var m := MoveReady(r.q, r.clock);
    if m.ready != [] {
      assert r.left + m.ready == r.left + [m.ready[0]] + m.ready[1..];
      FirstIsDue(r.left, m.ready, m.delayed, r.asked, m.nextSeq, r.clock);
    }
  }

  lemma FirstIsDue(left: seq<Item>, ready: seq<Item>, heap: set<Item>, asked: map<nat, Asked>, nextSeq: nat, clock: int)
    requires InOrder(left + ready, heap, asked, nextSeq, clock) && ready != []
    ensures ready[0].readyAt <= clock
  {
    assert (left + ready)[|left|] == ready[0];
  }

  lemma StepKeepsOrder(r: Record, capacity: nat, e: Event)
    requires Ordered(r)
    ensures Ordered(Step(r, capacity, e))
  {
    match e {
      case Tick(now) =>
      case ReserveEvent =>
      case ReleaseEvent =>
      case CommitEvent(task, delay) =>
        if !r.q.closed {
          CommitKeepsOrder(r, task, delay);
        }
      case TakeEvent =>
        if !r.q.closed {
          TakeKeepsOrder(r);
        }
      case CloseEvent =>
        PrefixInOrder(r.left + r.q.ready, |r.left|, r.q.delayed, r.asked, r.q.nextSeq, r.clock);
        assert (r.left + r.q.ready)[..|r.left|] == r.left + [];
    }
  }

  lemma {:induction false} RunIsOrdered(clock: int, capacity: nat, events: seq<Event>)
    ensures Ordered(Run(clock, capacity, events))
  {
    if events != [] {
      RunIsOrdered(clock, capacity, events[..|events| - 1]);
      StepKeepsOrder(Run(clock, capacity, events[..|events| - 1]), capacity, events[|events| - 1]);
    }
  }

  /**
   The first of two commits may leave before the second: of two that asked for a wait the one due
   earlier, or committed earlier if both are due at once; of two that did not, the one committed earlier.
   */
  predicate LeavesBefore(x: nat, ax: Asked, y: nat, ay: Asked) {
    && (ax.delay > 0 && ay.delay > 0 ==>
          ax.at + ax.delay < ay.at + ay.delay || (ax.at + ax.delay == ay.at + ay.delay && x < y))
    && (ax.delay <= 0 && ay.delay <= 0 ==> x < y)
  }

  /**
   Over any run: delayed tasks leave in (ready time, commit order), immediate tasks leave
   in commit order, and no task leaves before its commit time plus the wait it asked for.
   */
  lemma TasksLeaveInOrder(clock: int, capacity: nat, events: seq<Event>)
    ensures var r := Run(clock, capacity, events);
            && (forall i, j :: 0 <= i < j < |r.left| ==>
                  && r.left[i].sequence in r.asked && r.left[j].sequence in r.asked
                  && LeavesBefore(r.left[i].sequence, r.asked[r.left[i].sequence],
                                  r.left[j].sequence, r.asked[r.left[j].sequence]))
            && |r.leftAt| == |r.left|
            && (forall i :: 0 <= i < |r.left| ==>
                  && r.left[i].sequence in r.asked
                  && r.leftAt[i] >= r.left[i].task.availableAt
                  && r.leftAt[i] >= r.asked[r.left[i].sequence].at + r.asked[r.left[i].sequence].delay)
  {
    RunIsOrdered(clock, capacity, events);
    var r := Run(clock, capacity, events);
    var out := r.left + r.q.ready;
    assert forall i :: 0 <= i < |r.left| ==> out[i] == r.left[i];
    forall i | 0 <= i < |r.left|
      ensures Faithful(r.left[i], r.asked) && Wait(r.left[i], r.asked) >= r.asked[r.left[i].sequence].delay
    {
      assert Faithful(out[i], r.asked);
    }
    forall i, j | 0 <= i < j < |r.left|
      ensures r.left[i].sequence in r.asked && r.left[j].sequence in r.asked
              && LeavesBefore(r.left[i].sequence, r.asked[r.left[i].sequence],
                              r.left[j].sequence, r.asked[r.left[j].sequence])
    {
      assert MayPrecede(out[i], out[j], r.asked);
    }
  }
}
