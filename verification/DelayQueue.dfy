/**
 The in-memory queue: a list of ready tasks, a binary heap of delayed tasks, and
 capacity that is reserved before it is used.

 `QueueState` is the queue as a value, with the delayed tasks as a set; the functions
 on it specify the operations. The class keeps the delayed tasks in an array-shaped
 heap and is proved to compute those functions.
 */
module DelayQueue {
  import opened Wrappers
  import opened Domain

  datatype Item = Item(task: QueueTask, readyAt: int, sequence: nat)

  /** Release order of delayed tasks: ready time, then commit order. */
  predicate Before(a: Item, b: Item) {
    a.readyAt < b.readyAt || (a.readyAt == b.readyAt && a.sequence < b.sequence)
  }

  // ---------- the queue as a value ----------

  datatype QueueState = QueueState(pending: int, nextSeq: nat, ready: seq<Item>, delayed: set<Item>, closed: bool)

  datatype ReserveOutcome = SlotReserved | ReserveClosed | ReserveFull

  function ReserveSlot(q: QueueState, capacity: nat): (QueueState, ReserveOutcome) {
    if q.closed then (q, ReserveClosed)
    else if q.pending >= capacity then (q, ReserveFull)
    else (q.(pending := q.pending + 1), SlotReserved)
  }

  function ReturnSlot(q: QueueState): QueueState {
    if q.pending > 0 then q.(pending := q.pending - 1) else q
  }

  function NewItem(q: QueueState, task: QueueTask, delay: int, now: int): Item {
    var readyAt := now + if delay < 0 then 0 else delay;
    Item(task.(availableAt := readyAt), readyAt, q.nextSeq + 1)
  }

  /** Commits a task into a reserved slot; a closed queue refuses it and takes the slot back. */
  function CommitSlot(q: QueueState, task: QueueTask, delay: int, now: int): QueueState {
    if q.closed then ReturnSlot(q)
    else
      var item := NewItem(q, task, delay, now);
      if delay <= 0
      then q.(nextSeq := item.sequence, ready := q.ready + [item])
      else q.(nextSeq := item.sequence, delayed := q.delayed + {item})
  }

  ghost predicate IsFirst(m: Item, s: set<Item>) {
    m in s && forall x :: x in s && x != m ==> Before(m, x)
  }

  /** Moves every due task behind the ready ones, in release order. */
  ghost function MoveReady(q: QueueState, now: int): QueueState
    decreases |q.delayed|
  {
    if exists m :: IsFirst(m, q.delayed) && m.readyAt <= now then
      var m :| IsFirst(m, q.delayed) && m.readyAt <= now;
      MoveReady(q.(ready := q.ready + [m], delayed := q.delayed - {m}), now)
    else q
  }

  /** One pass through the locked section of Dequeue: the new state and the queue task taken, if any is ready. */
  ghost function TakeReady(q: QueueState, now: int): (QueueState, Option<Item>) {
    if q.closed then (q, None) else
      var moved := MoveReady(q, now);
      if moved.ready == [] then (moved, None)
      else (moved.(ready := moved.ready[1..], pending := moved.pending - 1), Some(moved.ready[0]))
  }

  function CloseQueue(q: QueueState): QueueState {
    if q.closed then q else q.(closed := true, pending := 0, ready := [], delayed := {})
  }

  lemma FirstIsUnique(a: Item, b: Item, s: set<Item>)
    requires IsFirst(a, s) && IsFirst(b, s)
    ensures a == b
  {
  }

  /** One step of the move, with its task named. */
  lemma MoveFirst(q: QueueState, m: Item, now: int)
    requires IsFirst(m, q.delayed) && m.readyAt <= now
    ensures MoveReady(q, now) == MoveReady(q.(ready := q.ready + [m], delayed := q.delayed - {m}), now)
  {
    var n :| IsFirst(n, q.delayed) && n.readyAt <= now &&
             MoveReady(q, now) == MoveReady(q.(ready := q.ready + [n], delayed := q.delayed - {n}), now);
    FirstIsUnique(m, n, q.delayed);
  }

  // ---------- capacity ----------

  /** Pending counts what the queue holds and the slots still reserved; a closed queue counts nothing. */
  ghost predicate Accounted(q: QueueState, capacity: nat, reserved: nat) {
    && (!q.closed ==> q.pending == |q.ready| + |q.delayed| + reserved && q.pending <= capacity)
    && (q.closed ==> q.pending == 0 && q.ready == [] && q.delayed == {})
  }

  lemma {:induction false} MoveKeepsCount(q: QueueState, now: int)
    ensures var m := MoveReady(q, now);
            && |m.ready| + |m.delayed| == |q.ready| + |q.delayed|
            && m.pending == q.pending && m.nextSeq == q.nextSeq && m.closed == q.closed
    decreases |q.delayed|
  {
    if m :| IsFirst(m, q.delayed) && m.readyAt <= now {
      MoveFirst(q, m, now);
      MoveKeepsCount(q.(ready := q.ready + [m], delayed := q.delayed - {m}), now);
    }
  }

  /** Sequence numbers already given out; a new item is none of the delayed ones. */
  ghost predicate Numbered(q: QueueState) {
    && (forall x :: x in q.ready ==> x.sequence <= q.nextSeq)
    && (forall x :: x in q.delayed ==> x.sequence <= q.nextSeq)
  }

  lemma ReserveKeepsAccount(q: QueueState, capacity: nat, reserved: nat)
    requires Accounted(q, capacity, reserved)
    ensures var (after, outcome) := ReserveSlot(q, capacity);
            && Accounted(after, capacity, if outcome == SlotReserved then reserved + 1 else reserved)
            && (outcome == ReserveFull <==> !q.closed && |q.ready| + |q.delayed| + reserved == capacity)
  {
  }

  lemma CommitKeepsAccount(q: QueueState, capacity: nat, reserved: nat, task: QueueTask, delay: int, now: int)
    requires Accounted(q, capacity, reserved) && reserved > 0 && Numbered(q)
    ensures Accounted(CommitSlot(q, task, delay, now), capacity, reserved - 1)
    ensures Numbered(CommitSlot(q, task, delay, now))
  {
    var item := NewItem(q, task, delay, now);
    assert item !in q.delayed;
  }

  lemma ReturnKeepsAccount(q: QueueState, capacity: nat, reserved: nat)
    requires Accounted(q, capacity, reserved) && reserved > 0
    ensures Accounted(ReturnSlot(q), capacity, reserved - 1)
  {
  }

  lemma TakeKeepsAccount(q: QueueState, capacity: nat, reserved: nat, now: int)
    requires Accounted(q, capacity, reserved)
    ensures Accounted(TakeReady(q, now).0, capacity, reserved)
  {
    MoveKeepsCount(q, now);
  }

  // ---------- the binary heap ----------

  function Parent(i: int): int
    requires i > 0
  {
    (i - 1) / 2
  }

  ghost predicate IsHeap(h: seq<Item>) {
    forall i :: 0 < i < |h| ==> !Before(h[i], h[Parent(i)])
  }

  lemma {:induction false} RootIsLeast(h: seq<Item>, i: nat)
    requires IsHeap(h) && i < |h|
    ensures !Before(h[i], h[0])
  {
    if i > 0 {
      RootIsLeast(h, Parent(i));
    }
  }

  ghost predicate DistinctSequences(h: seq<Item>) {
    forall i, j :: 0 <= i < j < |h| ==> h[i].sequence != h[j].sequence
  }

  function Items(h: seq<Item>): set<Item> {
    set x | x in h
  }

  lemma {:induction false} ItemsSize(h: seq<Item>)
    requires DistinctSequences(h)
    ensures |Items(h)| == |h|
  {
    if h != [] {
      var n := |h| - 1;
      ItemsSize(h[..n]);
      assert h == h[..n] + [h[n]];
      assert Items(h) == Items(h[..n]) + {h[n]};
    }
  }

  lemma RootIsFirst(h: seq<Item>)
    requires IsHeap(h) && DistinctSequences(h) && h != []
    ensures IsFirst(h[0], Items(h))
  {
    forall x | x in Items(h) && x != h[0]
      ensures Before(h[0], x)
    {
      var i :| 0 <= i < |h| && h[i] == x;
      RootIsLeast(h, i);
    }
  }

  function Swapped(h: seq<Item>, i: nat, j: nat): seq<Item>
    requires i < |h| && j < |h|
  {
    h[i := h[j]][j := h[i]]
  }

  lemma SwappedIsPermutation(h: seq<Item>, i: nat, j: nat)
    requires i < |h| && j < |h|
    ensures multiset(Swapped(h, i, j)) == multiset(h)
  {
  }

  lemma PermutationKeepsItems(g: seq<Item>, h: seq<Item>)
    requires multiset(g) == multiset(h)
    ensures Items(g) == Items(h) && |g| == |h|
    ensures DistinctSequences(h) ==> DistinctSequences(g)
  {
    assert forall x :: x in g <==> x in multiset(g);
    assert forall x :: x in h <==> x in multiset(h);
    assert |multiset(g)| == |g| && |multiset(h)| == |h|;
    if DistinctSequences(h) {
      forall i, j | 0 <= i < j < |g|
        ensures g[i].sequence != g[j].sequence
      {
        if g[i].sequence == g[j].sequence {
          SameSequenceSameItem(h, g[i], g[j]);
          AppearsTwice(g, i, j);
          AppearsOnce(h, g[i]);
        }
      }
    }
  }

  lemma SameSequenceSameItem(h: seq<Item>, x: Item, y: Item)
    requires DistinctSequences(h) && x in h && y in h && x.sequence == y.sequence
    ensures x == y
  {
  }

  lemma AppearsTwice(g: seq<Item>, i: nat, j: nat)
    requires i < j < |g| && g[i] == g[j]
    ensures multiset(g)[g[i]] >= 2
  {
    assert g == g[..j] + [g[j]] + g[j + 1..];
    assert g[i] in g[..j];
  }

  lemma {:induction false} AppearsOnce(h: seq<Item>, x: Item)
    requires DistinctSequences(h) && x in h
    ensures multiset(h)[x] == 1
  {
    var n := |h| - 1;
    assert h == h[..n] + [h[n]];
    if x in h[..n] {
      AppearsOnce(h[..n], x);
      assert x != h[n];
    }
  }

  // container/heap's up and down, on a heap held in a sequence

  /** In order except that the item at j may be before its parent. */
  ghost predicate HeapExceptUp(h: seq<Item>, j: nat) {
    && (forall i :: 0 < i < |h| && i != j ==> !Before(h[i], h[Parent(i)]))
    && (forall i :: 0 < i < |h| && j > 0 && Parent(i) == j ==> !Before(h[i], h[Parent(j)]))
  }

  /** In order below n except that the item at i may be after its children. */
  ghost predicate HeapExceptDown(h: seq<Item>, i: nat, n: nat) {
    && n <= |h|
    && (forall k :: 0 < k < n && Parent(k) != i ==> !Before(h[k], h[Parent(k)]))
    && (forall k :: 0 < k < n && i > 0 && Parent(k) == i ==> !Before(h[k], h[Parent(i)]))
  }

  lemma UpStep(h: seq<Item>, j: nat)
    requires 0 < j < |h| && HeapExceptUp(h, j) && Before(h[j], h[Parent(j)])
    ensures HeapExceptUp(Swapped(h, Parent(j), j), Parent(j))
  {
    var p := Parent(j);
    var g := Swapped(h, p, j);
    forall i | 0 < i < |h| && i != p
      ensures !Before(g[i], g[Parent(i)])
    {
      if i != j && Parent(i) == p {
        assert !Before(h[i], h[p]);
      }
    }
    forall i | 0 < i < |h| && p > 0 && Parent(i) == p
      ensures !Before(g[i], g[Parent(p)])
    {
      assert !Before(h[p], h[Parent(p)]);
    }
  }

  lemma UpDone(h: seq<Item>, j: nat)
    requires j < |h| && HeapExceptUp(h, j) && (j == 0 || !Before(h[j], h[Parent(j)]))
    ensures IsHeap(h)
  {
  }

  method Up(h: seq<Item>, start: nat) returns (r: seq<Item>)
    requires start < |h| && HeapExceptUp(h, start)
    ensures IsHeap(r) && multiset(r) == multiset(h)
  {
    hide HeapExceptUp, IsHeap, Swapped;
    r := h;
    var j := start;
    while j > 0 && Before(r[j], r[Parent(j)])
      invariant 0 <= j < |r| == |h| && HeapExceptUp(r, j) && multiset(r) == multiset(h)
    {
      var i := Parent(j);
      UpStep(r, j);
      SwappedIsPermutation(r, i, j);
      SwappedSize(r, i, j);
      r := Swapped(r, i, j);
      j := i;
    }
    UpDone(r, j);
  }

  lemma SwappedSize(h: seq<Item>, i: nat, j: nat)
    requires i < |h| && j < |h|
    ensures |Swapped(h, i, j)| == |h| && forall k :: 0 <= k < |h| && k != i && k != j ==> Swapped(h, i, j)[k] == h[k]
  {
  }

  /** The child of i that comes first. */
  function FirstChild(h: seq<Item>, i: nat, n: nat): (j: nat)
    requires n <= |h| && 2 * i + 1 < n
    ensures 0 < j < n && Parent(j) == i
  {
    var j := 2 * i + 1;
    if j + 1 < n && Before(h[j + 1], h[j]) then j + 1 else j
  }

  lemma FirstChildIsFirst(h: seq<Item>, i: nat, n: nat, k: nat)
    requires n <= |h| && 2 * i + 1 < n && 0 < k < n && Parent(k) == i
    ensures !Before(h[k], h[FirstChild(h, i, n)])
  {
    assert k == 2 * i + 1 || k == 2 * i + 2;
  }

  lemma DownStep(h: seq<Item>, i: nat, n: nat)
    requires 2 * i + 1 < n && HeapExceptDown(h, i, n) && Before(h[FirstChild(h, i, n)], h[i])
    ensures HeapExceptDown(Swapped(h, i, FirstChild(h, i, n)), FirstChild(h, i, n), n)
  {
    var j := FirstChild(h, i, n);
    var g := Swapped(h, i, j);
    forall k | 0 < k < n && Parent(k) != j
      ensures !Before(g[k], g[Parent(k)])
    {
      if Parent(k) == i {
        FirstChildIsFirst(h, i, n, k);
      }
    }
    forall k | 0 < k < n && Parent(k) == j
      ensures !Before(g[k], g[Parent(j)])
    {
    }
  }

  lemma DownDone(h: seq<Item>, i: nat, n: nat)
    requires i <= n && HeapExceptDown(h, i, n)
    requires 2 * i + 1 >= n || !Before(h[FirstChild(h, i, n)], h[i])
    ensures IsHeap(h[..n])
  {
    forall k | 0 < k < n
      ensures !Before(h[k], h[Parent(k)])
    {
      if Parent(k) == i {
        FirstChildIsFirst(h, i, n, k);
      }
    }
  }

  method Down(h: seq<Item>, n: nat) returns (r: seq<Item>)
    requires n <= |h| && HeapExceptDown(h, 0, n)
    ensures |r| == |h| && IsHeap(r[..n]) && multiset(r) == multiset(h) && r[n..] == h[n..]
  {
    hide HeapExceptDown, IsHeap, Swapped, FirstChild;
    r := h;
    var i := 0;
    while 2 * i + 1 < n && Before(r[FirstChild(r, i, n)], r[i])
      invariant i <= n <= |r| == |h| && HeapExceptDown(r, i, n) && multiset(r) == multiset(h)
      invariant forall k :: n <= k < |h| ==> r[k] == h[k]
      decreases n - i
    {
      var j := FirstChild(r, i, n);
      DownStep(r, i, n);
      SwappedIsPermutation(r, i, j);
      SwappedSize(r, i, j);
      r := Swapped(r, i, j);
      i := j;
    }
    DownDone(r, i, n);
  }

  method HeapPush(h: seq<Item>, item: Item) returns (r: seq<Item>)
    requires IsHeap(h)
    ensures IsHeap(r) && multiset(r) == multiset(h) + multiset{item}
  {
    var g := h + [item];
    assert HeapExceptUp(g, |h|);
    r := Up(g, |h|);
  }

  method HeapPop(h: seq<Item>) returns (r: seq<Item>, item: Item)
    requires IsHeap(h) && h != []
    ensures item == h[0]
    ensures IsHeap(r) && multiset(h) == multiset(r) + multiset{item}
  {
    var n := |h| - 1;
    var g := Swapped(h, 0, n);
    SwappedIsPermutation(h, 0, n);
    assert HeapExceptDown(g, 0, n);
    g := Down(g, n);
    item := g[n];
    r := g[..n];
    assert g == r + [item];
    assert item == g[n..][0];
  }

  // ---------- the objects ----------

  datatype CommitOutcome = Committed | CommitClosed | SlotAlreadyUsed

  datatype EnqueueOutcome = Enqueued | EnqueueClosed | EnqueueFull

  /** The heap's items after a push and after a pop, as sets. */
  lemma PushedItems(h: seq<Item>, r: seq<Item>, item: Item)
    requires multiset(r) == multiset(h) + multiset{item} && DistinctSequences(h)
    requires forall x :: x in h ==> x.sequence != item.sequence
    ensures Items(r) == Items(h) + {item} && DistinctSequences(r)
  {
    var g := h + [item];
    assert multiset(g) == multiset(h) + multiset{item};
    assert Items(g) == Items(h) + {item};
    PermutationKeepsItems(r, g);
  }

  lemma PoppedItems(h: seq<Item>, r: seq<Item>, item: Item)
    requires multiset(h) == multiset(r) + multiset{item} && DistinctSequences(h)
    ensures Items(r) == Items(h) - {item} && DistinctSequences(r) && |r| < |h|
  {
    var g := r + [item];
    assert multiset(g) == multiset(h);
    PermutationKeepsItems(g, h);
    assert g[|r|] == item;
    assert forall x :: x in r ==> x in g && x.sequence != item.sequence by {
      forall x | x in r
        ensures x in g && x.sequence != item.sequence
      {
        var i :| 0 <= i < |r| && r[i] == x;
        assert g[i] == x;
      }
    }
    assert Items(g) == Items(r) + {item};
    assert r == g[..|r|];
  }

  lemma LaterThanRoot(h: seq<Item>, now: int)
    requires IsHeap(h) && h != [] && h[0].readyAt > now
    ensures forall i :: 0 <= i < |h| ==> h[i].readyAt > now
  {
    forall i | 0 <= i < |h|
      ensures h[i].readyAt > now
    {
      RootIsLeast(h, i);
    }
  }

  class MemoryQueue {
    const capacity: nat
    var pending: int
    var nextSeq: nat
    var ready: seq<Item>
    var delayed: seq<Item>
    var closed: bool
    ghost var reservations: set<QueueReservation>

    ghost function State(): QueueState
      reads this
    {
      QueueState(pending, nextSeq, ready, Items(delayed), closed)
    }

    ghost function Unused(): set<QueueReservation>
      reads this`reservations, reservations
    {
      set r | r in reservations && !r.used
    }

    /** The heap is a heap of distinct items, and every slot is accounted for. */
    ghost predicate Valid()
      reads this, reservations
    {
      && capacity > 0
      && IsHeap(delayed) && DistinctSequences(delayed) && Numbered(State())
      && Accounted(State(), capacity, |Unused()|)
      && (forall r :: r in reservations ==> r.queue == this)
    }

    constructor (capacity: nat)
      requires capacity > 0
      ensures Valid() && this.capacity == capacity && reservations == {}
      ensures State() == QueueState(0, 0, [], {}, false)
    {
      this.capacity := capacity;
      pending, nextSeq, ready, delayed, closed := 0, 0, [], [], false;
      reservations := {};
    }

    /** A queue needs a positive capacity. */
    static method New(capacity: int) returns (queue: MemoryQueue?)
      ensures queue != null <==> capacity > 0
      ensures queue != null ==>
                fresh(queue) && queue.Valid() && queue.capacity == capacity
                    && queue.State() == QueueState(0, 0, [], {}, false)
    {
      if capacity <= 0 {
        return null;
      }
      queue := new MemoryQueue(capacity);
    }

    method ReturnCapacity()
      modifies this`pending
      ensures State() == ReturnSlot(old(State()))
      ensures Numbered(old(State())) ==> Numbered(State())
    {
      pending := if pending > 0 then pending - 1 else pending;
    }

    /** Claims one slot for a later commit. */
    method Reserve() returns (reservation: QueueReservation?, outcome: ReserveOutcome)
      requires Valid()
      modifies this`pending, this`reservations
      ensures Valid() && (State(), outcome) == ReserveSlot(old(State()), capacity)
      ensures reservation != null <==> outcome == SlotReserved
      ensures reservation != null ==> fresh(reservation) && reservation.queue == this && !reservation.used
      ensures reservations == old(reservations) + (if reservation == null then {} else {reservation})
    {
      hide IsHeap, DistinctSequences, Items, Unused, Accounted, Numbered;
      ReserveKeepsAccount(State(), capacity, |Unused()|);
      ghost var before := State();
      reservation := null;
      if closed {
        return null, ReserveClosed;
      }
      if pending >= capacity {
        return null, ReserveFull;
      }
      reservation := Issue();
      pending := pending + 1;
      assert Numbered(State()) by { CountKeepsNumbers(before, pending); }
      outcome := SlotReserved;
    }

    method Issue() returns (reservation: QueueReservation)
      modifies this`reservations
      ensures fresh(reservation) && reservation.queue == this && !reservation.used
      ensures reservations == old(reservations) + {reservation}
      ensures Unused() == old(Unused()) + {reservation} && |Unused()| == old(|Unused()|) + 1
    {
      reservation := new QueueReservation(this);
      reservations := reservations + {reservation};
      assert Unused() == old(Unused()) + {reservation};
    }

    /** Moves due tasks from the heap to the ready list. */
    method MoveReadyLocked(now: int)
      requires IsHeap(delayed) && DistinctSequences(delayed)
      modifies this`ready, this`delayed
      ensures IsHeap(delayed) && DistinctSequences(delayed)
      ensures State() == MoveReady(old(State()), now)
      ensures forall i :: 0 <= i < |delayed| ==> delayed[i].readyAt > now
    {
      hide IsHeap, DistinctSequences, IsFirst;
      ghost var before := State();
      while |delayed| > 0
        invariant IsHeap(delayed) && DistinctSequences(delayed)
        invariant MoveReady(State(), now) == MoveReady(before, now)
        invariant pending == old(pending) && nextSeq == old(nextSeq) && closed == old(closed)
        decreases |delayed|
      {
        var item := delayed[0];
        RootIsFirst(delayed);
        if item.readyAt > now {
          NothingDue(State(), item, now);
          LaterThanRoot(delayed, now);
          return;
        }
        MoveFirst(State(), item, now);
        ghost var h := delayed;
        var rest, _ := HeapPop(delayed);
        PoppedItems(h, rest, item);
        delayed := rest;
        ready := ready + [item];
      }
      NoneDelayed(State(), now);
    }

    /** The locked section of Dequeue: takes the first ready task, if there is one. */
    method TakeLocked(now: int) returns (task: Option<QueueTask>)
      requires Valid()
      modifies this`pending, this`ready, this`delayed
      ensures Valid() && State() == TakeReady(old(State()), now).0
      ensures var taken := TakeReady(old(State()), now).1;
              task == if taken.None? then None else Some(taken.value.task)
      ensures task.None? ==> closed || (ready == [] && forall i :: 0 <= i < |delayed| ==> delayed[i].readyAt > now)
    {
      hide IsHeap, DistinctSequences, MoveReady, Items;
      if closed {
        return None;
      }
      MoveKeepsCount(State(), now);
      MoveKeepsNumbers(State(), now);
      MoveReadyLocked(now);
      if |ready| > 0 {
        var item := ready[0];
        ready := ready[1..];
        pending := pending - 1;
        return Some(item.task);
      }
      task := None;
    }

    /** Appends an immediate task to the ready list and pushes a delayed one onto the heap. */
    method InsertLocked(task: QueueTask, delay: int, now: int)
      requires !closed && IsHeap(delayed) && DistinctSequences(delayed) && Numbered(State())
      modifies this`nextSeq, this`ready, this`delayed
      ensures IsHeap(delayed) && DistinctSequences(delayed)
      ensures State() == CommitSlot(old(State()), task, delay, now)
    {
      hide IsHeap, DistinctSequences;
      var wait := if delay < 0 then 0 else delay;
      nextSeq := nextSeq + 1;
      var item := Item(task.(availableAt := now + wait), now + wait, nextSeq);
      if wait == 0 {
        ready := ready + [item];
      } else {
        var h := delayed;
        var r := HeapPush(h, item);
        InItems(h);
        PushedItems(h, r, item);
        delayed := r;
      }
    }

    method EnqueueDelayed(task: QueueTask, delay: int, now: int) returns (outcome: EnqueueOutcome)
      requires Valid()
      modifies this
      ensures Valid() && (State(), outcome) == EnqueueEffect(old(State()), capacity, task, delay, now)
    {
      var reservation, reserved := Reserve();
      if reserved == ReserveClosed {
        return EnqueueClosed;
      }
      if reserved == ReserveFull {
        return EnqueueFull;
      }
      var committed := reservation.CommitDelayed(task, delay, now);
      outcome := if committed == Committed then Enqueued else EnqueueClosed;
    }

    /** Discards every task that has not started. */
    method Close()
      requires Valid()
      modifies this
      ensures Valid() && State() == CloseQueue(old(State())) && reservations == old(reservations)
    {
      if closed {
        return;
      }
      closed, pending, ready, delayed := true, 0, [], [];
      assert Items(delayed) == {};
    }
  }

  class QueueReservation {
    const queue: MemoryQueue
    var used: bool

    constructor (queue: MemoryQueue)
      ensures this.queue == queue && !used
    {
      this.queue := queue;
      used := false;
    }

    /** Enqueues a task into the reserved slot. */
    method CommitDelayed(task: QueueTask, delay: int, now: int) returns (outcome: CommitOutcome)
      requires queue.Valid() && this in queue.reservations
      modifies this, queue
      ensures queue.Valid() && used && queue.reservations == old(queue.reservations)
      ensures queue.State() == if old(used) then old(queue.State())
              else CommitSlot(old(queue.State()), task, delay, now)
      ensures outcome == if old(used) then SlotAlreadyUsed else if old(queue.closed) then CommitClosed else Committed
    {
      hide IsHeap, DistinctSequences, Items, Accounted, CommitSlot;
      if used {
        return SlotAlreadyUsed;
      }
      ghost var before := queue.State();
      SlotIsCounted();
      CommitKeepsAccount(before, queue.capacity, |queue.Unused()|, task, delay, now);
      Spend();
      if queue.closed {
        queue.ReturnCapacity();
        ClosedCommit(before, task, delay, now);
        return CommitClosed;
      }
      queue.InsertLocked(task, delay, now);
      outcome := Committed;
    }

    /** Gives the reserved slot back. */
    method Release()
      requires queue.Valid() && this in queue.reservations
      modifies this, queue`pending
      ensures queue.Valid() && used
      ensures queue.State() == if old(used) then old(queue.State()) else ReturnSlot(old(queue.State()))
    {
      hide IsHeap, DistinctSequences, Items, Accounted, Numbered;
      if used {
        return;
      }
      SlotIsCounted();
      ReturnKeepsAccount(queue.State(), queue.capacity, |queue.Unused()|);
      Spend();
      queue.ReturnCapacity();
    }

    method Spend()
      requires queue.Valid() && this in queue.reservations && !used
      modifies this
      ensures used && queue.Unused() == old(queue.Unused()) - {this} && |queue.Unused()| == old(|queue.Unused()|) - 1
    {
      assert this in queue.Unused();
      used := true;
      assert queue.Unused() == old(queue.Unused()) - {this};
    }

    lemma SlotIsCounted()
      requires this in queue.reservations && !used
      ensures this in queue.Unused() && |queue.Unused()| > 0
    {
      assert this in queue.Unused();
    }
  }

  lemma ClosedCommit(q: QueueState, task: QueueTask, delay: int, now: int)
    requires q.closed
    ensures CommitSlot(q, task, delay, now) == ReturnSlot(q)
  {
  }

  lemma CountKeepsNumbers(q: QueueState, pending: int)
    requires Numbered(q)
    ensures Numbered(q.(pending := pending))
  {
  }

  function EnqueueEffect(q: QueueState, capacity: nat, task: QueueTask, delay: int, now: int)
    : (QueueState, EnqueueOutcome)
  {
    var (reserved, outcome) := ReserveSlot(q, capacity);
    match outcome
    case ReserveClosed => (q, EnqueueClosed)
    case ReserveFull => (q, EnqueueFull)
    case SlotReserved => (CommitSlot(reserved, task, delay, now), Enqueued)
  }

  lemma InItems(h: seq<Item>)
    ensures forall x :: x in h <==> x in Items(h)
  {
  }

  lemma NothingDue(q: QueueState, first: Item, now: int)
    requires IsFirst(first, q.delayed) && first.readyAt > now
    ensures MoveReady(q, now) == q
  {
  }

  lemma NoneDelayed(q: QueueState, now: int)
    requires q.delayed == {}
    ensures MoveReady(q, now) == q
  {
  }

  lemma {:induction false} MoveKeepsNumbers(q: QueueState, now: int)
    requires Numbered(q)
    ensures Numbered(MoveReady(q, now))
    decreases |q.delayed|
  {
    if m :| IsFirst(m, q.delayed) && m.readyAt <= now {
      MoveFirst(q, m, now);
      MoveKeepsNumbers(q.(ready := q.ready + [m], delayed := q.delayed - {m}), now);
    }
  }
}
