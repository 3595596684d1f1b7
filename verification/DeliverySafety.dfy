/**
 What every delivery step keeps, and what follows over whole runs: one place per
 message, no call after acceptance, gapless attempts on distinct channels, and a
 bound on the work a message can cause.
 */
module DeliverySafety {
  import opened Wrappers
  import opened Domain
  import opened WorkerTask
  import opened Delivery
  import Q = DelayQueue

  // ---------- the queue's items ----------

  lemma {:induction false} MoveKeepsItems(q: Q.QueueState, now: int)
    requires QueueDistinct(q)
    ensures QueueItems(Q.MoveReady(q, now)) == QueueItems(q) && QueueDistinct(Q.MoveReady(q, now))
    decreases |q.delayed|
  {
    if m :| Q.IsFirst(m, q.delayed) && m.readyAt <= now {
      Q.MoveFirst(q, m, now);
      MoveOneKeepsItems(q, m);
      MoveKeepsItems(q.(ready := q.ready + [m], delayed := q.delayed - {m}), now);
    }
  }

  lemma MoveOneKeepsItems(q: Q.QueueState, m: Q.Item)
    requires QueueDistinct(q) && m in q.delayed
    ensures var next := q.(ready := q.ready + [m], delayed := q.delayed - {m});
            QueueItems(next) == QueueItems(q) && QueueDistinct(next)
  {
    assert Q.Items(q.ready + [m]) == Q.Items(q.ready) + {m};
  }

  lemma TakeRemovesOne(q: Q.QueueState, now: int)
    requires QueueDistinct(q)
    ensures var (after, taken) := Q.TakeReady(q, now);
            && QueueDistinct(after) && after.closed == q.closed
            && (taken.None? ==> QueueItems(after) == QueueItems(q))
            && (taken.Some? ==> taken.value in QueueItems(q) && QueueItems(after) == QueueItems(q) - {taken.value})
  {
    hide QueueItems, QueueDistinct;
    MoveKeepsItems(q, now);
    Q.MoveKeepsCount(q, now);
    var moved := Q.MoveReady(q, now);
    if moved.ready != [] {
      DropFirstReady(moved);
    }
  }

  lemma DropFirstReady(q: Q.QueueState)
    requires QueueDistinct(q) && q.ready != []
    ensures var after := q.(ready := q.ready[1..], pending := q.pending - 1);
            QueueDistinct(after) && q.ready[0] in QueueItems(q) && QueueItems(after) == QueueItems(q) - {q.ready[0]}
  {
    var x := q.ready[0];
    assert q.ready == [x] + q.ready[1..];
    assert Q.Items(q.ready) == {x} + Q.Items(q.ready[1..]);
    assert x !in q.ready[1..];
    assert x !in q.delayed;
  }

  lemma CommitAddsOne(q: Q.QueueState, task: QueueTask, delay: int, now: int)
    requires QueueDistinct(q) && !q.closed
    ensures var item := Q.NewItem(q, task, delay, now);
            var after := Q.CommitSlot(q, task, delay, now);
            QueueDistinct(after) && !after.closed && item !in QueueItems(q)
                && QueueItems(after) == QueueItems(q) + {item}
  {
    var item := Q.NewItem(q, task, delay, now);
    assert Q.Items(q.ready + [item]) == Q.Items(q.ready) + {item};
  }

  lemma SlotsKeepItems(q: Q.QueueState, capacity: nat)
    requires QueueDistinct(q)
    ensures var r := Q.ReserveSlot(q, capacity).0;
            QueueItems(r) == QueueItems(q) && QueueDistinct(r) && r.closed == q.closed
    ensures var r := Q.ReturnSlot(q); QueueItems(r) == QueueItems(q) && QueueDistinct(r) && r.closed == q.closed
  {
  }

  // ---------- tokens ----------

  function HandToken(w: nat, h: Hand): set<Token> {
    if h == Idle then {} else {InHand(w, h)}
  }

  lemma InTokens(items: set<Q.Item>, hands: seq<Hand>, t: Token)
    ensures t in TokensOf(items, hands) <==>
            if t.Queued? then t.item in items else t.worker < |hands| && hands[t.worker] == t.hand
  {
  }

  lemma HandChanges(items: set<Q.Item>, hands: seq<Hand>, w: nat, h: Hand)
    requires w < |hands|
    ensures TokensOf(items, hands[w := h]) == TokensOf(items, hands) - HandToken(w, hands[w]) + HandToken(w, h)
    ensures HandToken(w, hands[w]) <= TokensOf(items, hands)
  {
    hide TokensOf;
    forall t
      ensures t in TokensOf(items, hands[w := h]) <==>
              t in TokensOf(items, hands) - HandToken(w, hands[w]) + HandToken(w, h)
      ensures t in HandToken(w, hands[w]) ==> t in TokensOf(items, hands)
    {
      InTokens(items, hands, t);
      InTokens(items, hands[w := h], t);
    }
  }

  lemma ItemChanges(items: set<Q.Item>, hands: seq<Hand>, x: Q.Item)
    ensures TokensOf(items - {x}, hands) == TokensOf(items, hands) - {Queued(x)}
    ensures TokensOf(items + {x}, hands) == TokensOf(items, hands) + {Queued(x)}
    ensures x in items <==> Queued(x) in TokensOf(items, hands)
  {
  }

  // ---------- moving one token ----------

  /** The step adds at most one try, of this message and not accepted. */
  predicate TriesGrow(before: seq<Try>, after: seq<Try>, id: string) {
    after == before || (|after| == |before| + 1 && after[..|before|] == before && after[|before|].messageId == id)
  }

  /** A step that concerns one message leaves every other token as it was. */
  lemma OthersUntouched(p: Params, s: State, t: State, id: string, token: Token)
    requires TokenInv(p, s, token) && Id(TaskOf(token)) != id
    requires t.accepted == s.accepted && TriesGrow(s.tries, t.tries, id) && t.work == Worked(s, id)
    requires forall k :: k != id ==> (k in t.ended <==> k in s.ended)
    ensures TokenInv(p, t, token)
  {
    hide StepsAt, InBounds;
    var task := TaskOf(token);
    assert forall i :: 0 <= i < |s.tries| ==> t.tries[i] == s.tries[i];
    if task.attemptNo > 1 {
      TriedLater(s.tries, t.tries, Id(task), task.attemptNo - 1);
    }
  }

  lemma TriedLater(before: seq<Try>, after: seq<Try>, id: string, attemptNo: int)
    requires |before| <= |after| && after[..|before|] == before && Tried(before, |before|, id, attemptNo)
    ensures Tried(after, |after|, id, attemptNo)
  {
    var i :| 0 <= i < |before| && before[i].messageId == id && before[i].attemptNo == attemptNo;
    assert after[i] == after[..|before|][i];
  }

  /** The parts of the invariant that do not speak of tokens. */
  ghost predicate Frame(p: Params, s: State) {
    && p.policy.maxAttempts > 0
    && QueueDistinct(s.queue)
    && (forall id :: id in s.accepted ==> Routed(s.accepted[id]) && s.accepted[id].messageId == id)
    && TriesInv(p, s)
    && EndedInv(p, s)
  }

  lemma TokenMoved(p: Params, s: State, t: State, a: Token, b: Token)
    requires Inv(p, s) && Frame(p, t) && a in Tokens(s) && Tokens(t) == Tokens(s) - {a} + {b}
    requires Id(TaskOf(b)) == Id(TaskOf(a)) && TokenInv(p, t, b)
    requires t.accepted == s.accepted && t.ended == s.ended && t.queue.closed == s.queue.closed
    requires TriesGrow(s.tries, t.tries, Id(TaskOf(a))) && t.work == Worked(s, Id(TaskOf(a)))
    ensures Inv(p, t)
  {
    hide Tokens, TokenInv, TriesInv, EndedInv, QueueDistinct, TriesGrow, Routed;
    var id := Id(TaskOf(a));
    forall u | u in Tokens(t)
      ensures TokenInv(p, t, u)
    {
      if u != b {
        OthersUntouched(p, s, t, id, u);
      }
    }
    forall k | !t.queue.closed && k in t.accepted && k !in t.ended
      ensures HasToken(t, k)
    {
      assert HasToken(s, k);
      var u :| u in Tokens(s) && Id(TaskOf(u)) == k;
      assert u == a || u in Tokens(t);
      assert b in Tokens(t);
    }
  }

  lemma TokenEnded(p: Params, s: State, t: State, a: Token)
    requires Inv(p, s) && Frame(p, t) && a in Tokens(s) && Tokens(t) == Tokens(s) - {a}
    requires t.accepted == s.accepted && t.queue.closed == s.queue.closed
    requires Id(TaskOf(a)) in t.ended && t.ended == s.ended[Id(TaskOf(a)) := t.ended[Id(TaskOf(a))]]
    requires TriesGrow(s.tries, t.tries, Id(TaskOf(a))) && t.work == Worked(s, Id(TaskOf(a)))
    ensures Inv(p, t)
  {
    hide Tokens, TokenInv, TriesInv, EndedInv, QueueDistinct, TriesGrow, Routed;
    var id := Id(TaskOf(a));
    forall u | u in Tokens(t)
      ensures TokenInv(p, t, u)
    {
      OthersUntouched(p, s, t, id, u);
    }
    forall k | !t.queue.closed && k in t.accepted && k !in t.ended
      ensures HasToken(t, k)
    {
      assert HasToken(s, k);
      var u :| u in Tokens(s) && Id(TaskOf(u)) == k;
      assert u in Tokens(t);
    }
  }

  // ---------- every action keeps the invariant ----------

  lemma SameItems(p: Params, s: State, queue: Q.QueueState)
    requires Inv(p, s) && QueueDistinct(queue) && QueueItems(queue) == QueueItems(s.queue)
             && queue.closed == s.queue.closed
    ensures Inv(p, s.(queue := queue))
  {
    hide TokensOf, QueueItems, QueueDistinct, Routed;
    var t := s.(queue := queue);
    assert Tokens(t) == Tokens(s);
    assert forall u :: TokenInv(p, s, u) ==> TokenInv(p, t, u);
    forall k | !queue.closed && k in t.accepted && k !in t.ended
      ensures HasToken(t, k)
    {
      assert HasToken(s, k);
    }
  }

  /** The token in a worker's hand. */
  lemma HandIsToken(s: State, w: nat)
    requires w < |s.hands| && s.hands[w] != Idle
    ensures InHand(w, s.hands[w]) in Tokens(s)
  {
    InTokens(QueueItems(s.queue), s.hands, InHand(w, s.hands[w]));
  }

  /** Work done for a message that has not ended is no concern of the ended ones. */
  lemma WorkKeepsFrame(p: Params, s: State, queue: Q.QueueState, hands: seq<Hand>, id: string)
    requires Inv(p, s) && QueueDistinct(queue) && id !in s.ended
    ensures Frame(p, s.(queue := queue, hands := hands, work := Worked(s, id)))
  {
    hide TokensOf, QueueItems, QueueDistinct, TokenInv, Routed;
  }

  /** A message that ends without acceptance, after a bounded number of steps. */
  lemma FailureKeepsFrame(p: Params, s: State, queue: Q.QueueState, hands: seq<Hand>, id: string)
    requires Inv(p, s) && QueueDistinct(queue) && id !in s.ended && id in s.accepted
    requires id in s.work && s.work[id] < 4 * p.policy.maxAttempts
    ensures Frame(p, s.(queue := queue, hands := hands, work := Worked(s, id), ended := s.ended[id := EndedFailed]))
  {
    hide TokensOf, QueueItems, QueueDistinct, TokenInv, Routed, InBounds, Tried, Ascending;
    var ended := s.ended[id := EndedFailed];
    forall i | 0 <= i < |s.tries|
      ensures TryInv(p, s.accepted, ended, s.tries, i)
    {
      assert TryInv(p, s.accepted, s.ended, s.tries, i);
    }
  }

  lemma TakeKeepsInv(p: Params, s: State, w: nat)
    requires Inv(p, s) && w < |s.hands| && s.hands[w] == Idle
    ensures Inv(p, TakeStep(s, w))
  {
    TakeRemovesOne(s.queue, s.clock);
    hide Q.TakeReady, QueueItems, QueueDistinct, TokensOf;
    var (queue, taken) := Q.TakeReady(s.queue, s.clock);
    if taken.None? {
      SameItems(p, s, queue);
    } else {
      var x := taken.value;
      var t := TakeStep(s, w);
      var a, b := Queued(x), InHand(w, Running(x.task, s.clock));
      var items := QueueItems(s.queue);
      ItemChanges(items, s.hands, x);
      HandChanges(items - {x}, s.hands, w, Running(x.task, s.clock));
      assert Tokens(t) == Tokens(s) - {a} + {b};
      TakenTokenInv(p, s, t, x, w);
      WorkKeepsFrame(p, s, queue, t.hands, Id(x.task));
      TokenMoved(p, s, t, a, b);
    }
  }

  lemma TakenTokenInv(p: Params, s: State, t: State, x: Q.Item, w: nat)
    requires TokenInv(p, s, Queued(x))
    requires t.accepted == s.accepted && t.ended == s.ended && t.tries == s.tries && t.work == Worked(s, Id(x.task))
    ensures TokenInv(p, t, InHand(w, Running(x.task, s.clock)))
  {
  }

  lemma ReserveRetryKeepsInv(p: Params, s: State, w: nat)
    requires Inv(p, s) && w < |s.hands| && s.hands[w].Scheduling?
    ensures Inv(p, ReserveRetryStep(p, s, w))
  {
    SlotsKeepItems(s.queue, p.capacity);
    HandIsToken(s, w);
    hide QueueItems, QueueDistinct, TokensOf, TokenInv;
    var Scheduling(task, delay) := s.hands[w];
    var (queue, outcome) := Q.ReserveSlot(s.queue, p.capacity);
    var t := ReserveRetryStep(p, s, w);
    var a := InHand(w, s.hands[w]);
    SchedulingTokenInv(p, s, w);
    HandChanges(QueueItems(s.queue), s.hands, w, t.hands[w]);
    if outcome == Q.SlotReserved {
      var b := InHand(w, HasSlot(task, delay));
      SlottedTokenInv(p, s, t, w);
      WorkKeepsFrame(p, s, queue, t.hands, Id(task));
      TokenMoved(p, s, t, a, b);
    } else {
      FailureKeepsFrame(p, s, queue, t.hands, Id(task));
      TokenEnded(p, s, t, a);
    }
  }

  lemma SchedulingTokenInv(p: Params, s: State, w: nat)
    requires w < |s.hands| && (s.hands[w].Scheduling? || s.hands[w].HasSlot?) && TokenInv(p, s, InHand(w, s.hands[w]))
    ensures var id := Id(s.hands[w].task);
            id in s.accepted && id !in s.ended && id in s.work && s.work[id] < 4 * p.policy.maxAttempts
  {
  }

  lemma SlottedTokenInv(p: Params, s: State, t: State, w: nat)
    requires w < |s.hands| && s.hands[w].Scheduling? && TokenInv(p, s, InHand(w, s.hands[w]))
    requires t.accepted == s.accepted && t.ended == s.ended && t.tries == s.tries
             && t.work == Worked(s, Id(s.hands[w].task))
    ensures TokenInv(p, t, InHand(w, HasSlot(s.hands[w].task, s.hands[w].delay)))
  {
  }

  lemma CommitRetryKeepsInv(p: Params, s: State, w: nat)
    requires Inv(p, s) && w < |s.hands| && s.hands[w].HasSlot?
    ensures Inv(p, CommitRetryStep(s, w))
  {
    HandIsToken(s, w);
    var HasSlot(task, delay) := s.hands[w];
    if s.queue.closed {
      SlotsKeepItems(s.queue, p.capacity);
    } else {
      CommitAddsOne(s.queue, task, delay, s.clock);
    }
    hide QueueItems, QueueDistinct, TokensOf, TokenInv;
    var queue := Q.CommitSlot(s.queue, task, delay, s.clock);
    var t := CommitRetryStep(s, w);
    var a := InHand(w, s.hands[w]);
    SchedulingTokenInv(p, s, w);
    HandChanges(QueueItems(s.queue), s.hands, w, Idle);
    if s.queue.closed {
      FailureKeepsFrame(p, s, queue, t.hands, Id(task));
      TokenEnded(p, s, t, a);
    } else {
      var item := Q.NewItem(s.queue, task, delay, s.clock);
      ItemChanges(QueueItems(s.queue), t.hands, item);
      RequeuedTokenInv(p, s, t, w, item);
      WorkKeepsFrame(p, s, queue, t.hands, Id(task));
      TokenMoved(p, s, t, a, Queued(item));
    }
  }

  lemma RequeuedTokenInv(p: Params, s: State, t: State, w: nat, item: Q.Item)
    requires w < |s.hands| && s.hands[w].HasSlot? && TokenInv(p, s, InHand(w, s.hands[w]))
    requires item.task.message == s.hands[w].task.message && item.task.attemptNo == s.hands[w].task.attemptNo
    requires t.accepted == s.accepted && t.ended == s.ended && t.tries == s.tries
             && t.work == Worked(s, Id(s.hands[w].task))
    ensures TokenInv(p, t, Queued(item))
  {
  }

  // ---------- finishing an attempt ----------

  lemma RoutedAttempt(policy: RetryPolicy, message: Message, n: int)
    requires Routed(message) && policy.maxAttempts > 0
    ensures InBounds(policy, message, n) <==> ChannelForAttempt(message, n, policy.maxAttempts).Some?
    ensures InBounds(policy, message, n) ==>
              ChannelForAttempt(message, n, policy.maxAttempts) == Some(message.providerChannels[n - 1])
  {
  }

  lemma VerdictOfToken(p: Params, s: State, task: QueueTask, runtime: Option<ChannelRuntime>, reply: Option<SendResult>)
    requires p.policy.maxAttempts > 0 && InBounds(p.policy, task.message, task.attemptNo) && Routed(task.message)
    ensures var verdict := Decide(p.policy, task, runtime, reply);
            && !verdict.Unroutable?
            && WithAttemptNo(task) == task
            && verdict.channel == task.message.providerChannels[task.attemptNo - 1]
            && (verdict.Sent? ==> Usable(verdict.channel, runtime))
            && (verdict.Retry? ==>
                InBounds(p.policy, task.message, task.attemptNo + 1)
                    && Successor(task) == task.(attemptNo := task.attemptNo + 1))
  {
    RoutedAttempt(p.policy, task.message, task.attemptNo);
    RoutedAttempt(p.policy, task.message, task.attemptNo + 1);
    hide Routed, ChannelForAttempt, NormalizedFailure, HasMetadata;
  }

  lemma AddedTryKeepsTries(p: Params, s: State, t: State, task: QueueTask, x: Try)
    requires TriesInv(p, s) && t.tries == s.tries + [x] && t.accepted == s.accepted
    requires x.messageId == Id(task) && x.attemptNo == task.attemptNo && Id(task) in s.accepted
             && task.message == s.accepted[Id(task)]
    requires InBounds(p.policy, task.message, task.attemptNo)
             && x.channel == task.message.providerChannels[task.attemptNo - 1]
    requires x.accepted ==> x.called && Id(task) in t.ended && t.ended[Id(task)] == EndedSent
    requires task.attemptNo > 1 ==> Tried(s.tries, |s.tries|, Id(task), task.attemptNo - 1)
    requires forall i :: 0 <= i < |s.tries| && s.tries[i].messageId == Id(task) ==>
             s.tries[i].attemptNo < task.attemptNo && !s.tries[i].accepted
    requires forall k :: k in s.ended && k != Id(task) ==> k in t.ended && t.ended[k] == s.ended[k]
    ensures TriesInv(p, t)
  {
    hide InBounds, Ascending;
    assert Ascending(t.tries) by { AscendingLonger(s.tries, x); }
    forall i | 0 <= i < |t.tries|
      ensures TryInv(p, t.accepted, t.ended, t.tries, i)
    {
      if i < |s.tries| {
        assert TryInv(p, s.accepted, s.ended, s.tries, i);
        OldTryInv(p, s, t, Id(task), i);
      } else if task.attemptNo > 1 {
        TriedStill(s.tries, t.tries, i, Id(task), task.attemptNo - 1);
      }
    }
  }

  lemma AscendingLonger(tries: seq<Try>, x: Try)
    requires Ascending(tries)
    requires forall i :: 0 <= i < |tries| && tries[i].messageId == x.messageId ==>
             tries[i].attemptNo < x.attemptNo && !tries[i].accepted
    ensures Ascending(tries + [x])
  {
  }

  lemma TriedStill(tries: seq<Try>, longer: seq<Try>, before: nat, id: string, attemptNo: int)
    requires before <= |tries| <= |longer| && longer[..|tries|] == tries && Tried(tries, before, id, attemptNo)
    ensures Tried(longer, before, id, attemptNo)
  {
    var j :| 0 <= j < before && tries[j].messageId == id && tries[j].attemptNo == attemptNo;
    assert longer[j] == longer[..|tries|][j];
  }

  lemma OldTryInv(p: Params, s: State, t: State, id: string, i: nat)
    requires i < |s.tries| < |t.tries| && t.tries[..|s.tries|] == s.tries && TryInv(p, s.accepted, s.ended, s.tries, i)
             && t.accepted == s.accepted
    requires forall k :: k in s.ended && k != id ==> k in t.ended && t.ended[k] == s.ended[k]
    requires s.tries[i].messageId == id ==> !s.tries[i].accepted
    ensures TryInv(p, t.accepted, t.ended, t.tries, i)
  {
    hide InBounds;
    var y := s.tries[i];
    assert t.tries[i] == t.tries[..|s.tries|][i];
    if y.attemptNo > 1 {
      TriedStill(s.tries, t.tries, i, y.messageId, y.attemptNo - 1);
    }
  }

  lemma FinishedTokenInv(p: Params, s: State, t: State, w: nat, x: Try, delay: int)
    requires w < |s.hands| && s.hands[w].Running? && TokenInv(p, s, InHand(w, s.hands[w]))
    requires var task := s.hands[w].task;
             && InBounds(p.policy, task.message, task.attemptNo + 1)
             && x.messageId == Id(task) && x.attemptNo == task.attemptNo && !x.accepted
    requires t.accepted == s.accepted && t.ended == s.ended && t.tries == s.tries + [x]
             && t.work == Worked(s, Id(s.hands[w].task))
    ensures TokenInv(p, t, InHand(w, Scheduling(s.hands[w].task.(attemptNo := s.hands[w].task.attemptNo + 1), delay)))
  {
    var task := s.hands[w].task;
    var n := |s.tries|;
    assert t.tries[n] == x;
    assert Tried(t.tries, n + 1, Id(task), task.attemptNo);
    assert forall i :: 0 <= i < n ==> t.tries[i] == s.tries[i];
  }

  lemma EndingKeepsEnded(p: Params, s: State, t: State, id: string, ending: Ending, x: Try)
    requires EndedInv(p, s) && id in s.accepted && id !in s.ended && id in s.work
             && s.work[id] < 4 * p.policy.maxAttempts
    requires t.accepted == s.accepted && t.ended == s.ended[id := ending] && t.tries == s.tries + [x]
             && t.work == Worked(s, id)
    requires ending == EndedSent ==> x.messageId == id && x.accepted
    ensures EndedInv(p, t)
  {
    forall k | k in t.ended && t.ended[k] == EndedSent
      ensures exists i :: 0 <= i < |t.tries| && t.tries[i].messageId == k && t.tries[i].accepted
    {
      if k == id {
        assert t.tries[|s.tries|] == x;
      } else {
        var i :| 0 <= i < |s.tries| && s.tries[i].messageId == k && s.tries[i].accepted;
        assert t.tries[i] == s.tries[i];
      }
    }
  }

  lemma RetryKeepsEnded(p: Params, s: State, t: State, id: string, x: Try)
    requires EndedInv(p, s) && id !in s.ended
    requires t.accepted == s.accepted && t.ended == s.ended && t.tries == s.tries + [x] && t.work == Worked(s, id)
    ensures EndedInv(p, t)
  {
    forall k | k in t.ended && t.ended[k] == EndedSent
      ensures exists i :: 0 <= i < |t.tries| && t.tries[i].messageId == k && t.tries[i].accepted
    {
      var i :| 0 <= i < |s.tries| && s.tries[i].messageId == k && s.tries[i].accepted;
      assert t.tries[i] == s.tries[i];
    }
  }

  lemma RunningTokenInv(p: Params, s: State, w: nat)
    requires w < |s.hands| && s.hands[w].Running? && TokenInv(p, s, InHand(w, s.hands[w]))
    ensures var task := s.hands[w].task;
            && Id(task) in s.accepted && task.message == s.accepted[Id(task)] && Id(task) !in s.ended
            && InBounds(p.policy, task.message, task.attemptNo)
            && Id(task) in s.work && s.work[Id(task)] < 4 * p.policy.maxAttempts
            && (task.attemptNo > 1 ==> Tried(s.tries, |s.tries|, Id(task), task.attemptNo - 1))
            && (forall i :: 0 <= i < |s.tries| && s.tries[i].messageId == Id(task) ==>
                s.tries[i].attemptNo < task.attemptNo && !s.tries[i].accepted)
  {
  }

  lemma RetryingFinishKeepsInv(p: Params, s: State, w: nat, runtime: Option<ChannelRuntime>, reply: Option<SendResult>)
    requires Inv(p, s) && w < |s.hands| && s.hands[w].Running?
             && Decide(p.policy, s.hands[w].task, runtime, reply).Retry?
    ensures Inv(p, FinishStep(p, s, w, runtime, reply))
  {
    HandIsToken(s, w);
    RunningTokenInv(p, s, w);
    var task := s.hands[w].task;
    VerdictOfToken(p, s, task, runtime, reply);
    hide QueueItems, QueueDistinct, TokensOf, TokenInv, Decide, TriesInv, EndedInv, InBounds, Usable, Answer, Tried,
         Routed, Worked, OneToken, HasToken;
    var verdict := Decide(p.policy, task, runtime, reply);
    var t := FinishStep(p, s, w, runtime, reply);
    var a := InHand(w, s.hands[w]);
    var x := TryOf(p, task, s.hands[w].takenAt, s.clock, runtime, reply);
    AddedTryKeepsTries(p, s, t, task, x);
    HandChanges(QueueItems(s.queue), s.hands, w, t.hands[w]);
    assert TriesGrow(s.tries, t.tries, Id(task));
    FinishedTokenInv(p, s, t, w, x, verdict.delay);
    RetryKeepsEnded(p, s, t, Id(task), x);
    TokenMoved(p, s, t, a, InHand(w, Scheduling(Successor(task), verdict.delay)));
  }

  lemma EndingFinishKeepsInv(p: Params, s: State, w: nat, runtime: Option<ChannelRuntime>, reply: Option<SendResult>)
    requires Inv(p, s) && w < |s.hands| && s.hands[w].Running?
             && !Decide(p.policy, s.hands[w].task, runtime, reply).Retry?
    ensures Inv(p, FinishStep(p, s, w, runtime, reply))
  {
    HandIsToken(s, w);
    RunningTokenInv(p, s, w);
    var task := s.hands[w].task;
    VerdictOfToken(p, s, task, runtime, reply);
    hide QueueItems, QueueDistinct, TokensOf, TokenInv, Decide, TriesInv, EndedInv, InBounds, Usable, Answer, Tried,
         Routed, Worked, OneToken, HasToken;
    var verdict := Decide(p.policy, task, runtime, reply);
    var t := FinishStep(p, s, w, runtime, reply);
    var a := InHand(w, s.hands[w]);
    var x := TryOf(p, task, s.hands[w].takenAt, s.clock, runtime, reply);
    AddedTryKeepsTries(p, s, t, task, x);
    HandChanges(QueueItems(s.queue), s.hands, w, t.hands[w]);
    assert TriesGrow(s.tries, t.tries, Id(task));
    EndingKeepsEnded(p, s, t, Id(task), if verdict.Sent? then EndedSent else EndedFailed, x);
    TokenEnded(p, s, t, a);
  }

  lemma FinishKeepsInv(p: Params, s: State, w: nat, runtime: Option<ChannelRuntime>, reply: Option<SendResult>)
    requires Inv(p, s) && w < |s.hands| && s.hands[w].Running?
    ensures Inv(p, FinishStep(p, s, w, runtime, reply))
  {
    hide Inv, Decide, FinishStep;
    if Decide(p.policy, s.hands[w].task, runtime, reply).Retry? {
      RetryingFinishKeepsInv(p, s, w, runtime, reply);
    } else {
      EndingFinishKeepsInv(p, s, w, runtime, reply);
    }
  }

  // ---------- submitting and closing ----------

  lemma SubmitKeepsInv(p: Params, s: State, message: Message)
    requires Inv(p, s)
    ensures Inv(p, SubmitStep(p, s, message))
  {
    var (queue, outcome) := Q.EnqueueEffect(s.queue, p.capacity, QueueTask(message, 1, 0), 0, s.clock);
    var t := SubmitStep(p, s, message);
    if t != s {
      SlotsKeepItems(s.queue, p.capacity);
      var reserved := Q.ReserveSlot(s.queue, p.capacity).0;
      CommitAddsOne(reserved, QueueTask(message, 1, 0), 0, s.clock);
      var item := Q.NewItem(reserved, QueueTask(message, 1, 0), 0, s.clock);
      hide QueueItems, QueueDistinct, TokensOf, Q.CommitSlot, Q.ReserveSlot;
      ItemChanges(QueueItems(s.queue), s.hands, item);
      NewMessageKeepsInv(p, s, t, message, item);
    }
  }

  lemma NewMessageKeepsInv(p: Params, s: State, t: State, message: Message, item: Q.Item)
    requires Inv(p, s) && message.messageId !in s.accepted && Routed(message)
    requires item.task.message == message && item.task.attemptNo == 1
    requires QueueDistinct(t.queue) && Tokens(t) == Tokens(s) + {Queued(item)} && t.queue.closed == s.queue.closed
    requires t.accepted == s.accepted[message.messageId := message] && t.work == s.work[message.messageId := 0]
    requires t.ended == s.ended && t.tries == s.tries
    ensures Inv(p, t)
  {
    hide Tokens, QueueDistinct, Routed, TokenInv, TriesInv, EndedInv;
    NewMessageFrame(p, s, t, message);
    NewTokenInv(p, s, t, message, item);
    forall u | u in Tokens(s)
      ensures TokenInv(p, t, u) && Id(TaskOf(u)) != message.messageId
    {
      OlderTokenInv(p, s, t, message, u);
    }
    forall k | !t.queue.closed && k in t.accepted && k !in t.ended
      ensures HasToken(t, k)
    {
      if k == message.messageId {
        assert Queued(item) in Tokens(t);
      } else {
        assert HasToken(s, k);
        var u :| u in Tokens(s) && Id(TaskOf(u)) == k;
        assert u in Tokens(t);
      }
    }
  }

  lemma NewMessageFrame(p: Params, s: State, t: State, message: Message)
    requires TriesInv(p, s) && EndedInv(p, s) && message.messageId !in s.accepted
    requires t.accepted == s.accepted[message.messageId := message] && t.work == s.work[message.messageId := 0]
    requires t.ended == s.ended && t.tries == s.tries
    ensures TriesInv(p, t) && EndedInv(p, t)
  {
    hide InBounds, Ascending, Tried;
    forall i | 0 <= i < |t.tries|
      ensures TryInv(p, t.accepted, t.ended, t.tries, i)
    {
      assert TryInv(p, s.accepted, s.ended, s.tries, i);
    }
  }

  lemma OlderTokenInv(p: Params, s: State, t: State, message: Message, u: Token)
    requires TokenInv(p, s, u) && message.messageId !in s.accepted
    requires t.accepted == s.accepted[message.messageId := message] && t.work == s.work[message.messageId := 0]
    requires t.ended == s.ended && t.tries == s.tries
    ensures TokenInv(p, t, u) && Id(TaskOf(u)) != message.messageId
  {
  }

  lemma NewTokenInv(p: Params, s: State, t: State, message: Message, item: Q.Item)
    requires TriesInv(p, s) && EndedInv(p, s) && message.messageId !in s.accepted && Routed(message)
             && p.policy.maxAttempts > 0
    requires item.task.message == message && item.task.attemptNo == 1
    requires t.accepted == s.accepted[message.messageId := message] && t.work == s.work[message.messageId := 0]
    requires t.ended == s.ended && t.tries == s.tries
    ensures TokenInv(p, t, Queued(item))
  {
    FirstAttemptInBounds(p, message);
    hide Routed, InBounds, Ascending;
    forall i | 0 <= i < |s.tries|
      ensures s.tries[i].messageId in s.accepted
    {
      assert TryInv(p, s.accepted, s.ended, s.tries, i);
    }
  }

  lemma FirstAttemptInBounds(p: Params, message: Message)
    requires p.policy.maxAttempts > 0 && Routed(message)
    ensures InBounds(p.policy, message, 1)
  {
  }

  lemma CloseKeepsInv(p: Params, s: State)
    requires Inv(p, s)
    ensures Inv(p, s.(queue := Q.CloseQueue(s.queue)))
  {
    var t := s.(queue := Q.CloseQueue(s.queue));
    assert QueueItems(t.queue) <= QueueItems(s.queue);
    assert Tokens(t) <= Tokens(s);
    assert QueueDistinct(t.queue);
    hide TokensOf, QueueItems, QueueDistinct, Routed;
    assert forall u :: TokenInv(p, s, u) ==> TokenInv(p, t, u);
  }

  /** No step of any worker breaks the invariant. */
  lemma ActionKeepsInv(p: Params, s: State, a: Action)
    requires Inv(p, s)
    ensures Inv(p, Apply(p, s, a))
  {
    match a
    case Tick(now) =>
      TimeKeepsInv(p, s, Apply(p, s, a).clock);
    case Submit(message) =>
      SubmitKeepsInv(p, s, message);
    case OthersReserve =>
      SlotsKeepItems(s.queue, p.capacity);
      SameItems(p, s, Q.ReserveSlot(s.queue, p.capacity).0);
    case OthersReturn =>
      SlotsKeepItems(s.queue, p.capacity);
      SameItems(p, s, Q.ReturnSlot(s.queue));
    case Take(w) =>
      if w < |s.hands| && s.hands[w] == Idle { TakeKeepsInv(p, s, w); }
    case Finish(w, runtime, reply) =>
      if w < |s.hands| && s.hands[w].Running? { FinishKeepsInv(p, s, w, runtime, reply); }
    case ReserveRetry(w) =>
      if w < |s.hands| && s.hands[w].Scheduling? { ReserveRetryKeepsInv(p, s, w); }
    case CommitRetry(w) =>
      if w < |s.hands| && s.hands[w].HasSlot? { CommitRetryKeepsInv(p, s, w); }
    case Close =>
      CloseKeepsInv(p, s);
  }

  lemma TimeKeepsInv(p: Params, s: State, now: int)
    requires Inv(p, s)
    ensures Inv(p, s.(clock := now))
  {
    var t := s.(clock := now);
    hide TokensOf, QueueItems, QueueDistinct, Routed;
    assert Tokens(t) == Tokens(s);
    assert forall u :: TokenInv(p, s, u) ==> TokenInv(p, t, u);
    forall k | !t.queue.closed && k in t.accepted && k !in t.ended
      ensures HasToken(t, k)
    {
      assert HasToken(s, k);
    }
  }

  lemma StartIsInv(p: Params, clock: int, workers: nat)
    requires p.policy.maxAttempts > 0
    ensures Inv(p, Start(clock, workers))
  {
    assert QueueItems(Start(clock, workers).queue) == {};
    assert Tokens(Start(clock, workers)) == {};
  }

  lemma {:induction false} RunKeepsInv(p: Params, clock: int, workers: nat, actions: seq<Action>)
    requires p.policy.maxAttempts > 0
    ensures Inv(p, Run(p, clock, workers, actions))
  {
    hide Inv, Apply;
    if actions == [] {
      StartIsInv(p, clock, workers);
    } else {
      RunKeepsInv(p, clock, workers, actions[..|actions| - 1]);
      ActionKeepsInv(p, Run(p, clock, workers, actions[..|actions| - 1]), actions[|actions| - 1]);
    }
  }

  // ---------- what holds over every run ----------

  /**
   Until the queue closes, every accepted message is in exactly one place: it has ended, or
   one token of the ready list, the heap and the workers' hands is its own.
   */
  lemma EveryMessageInOnePlace(p: Params, clock: int, workers: nat, actions: seq<Action>, id: string)
    requires p.policy.maxAttempts > 0
    requires var s := Run(p, clock, workers, actions); !s.queue.closed && id in s.accepted
    ensures var s := Run(p, clock, workers, actions);
            && (id in s.ended <==> !HasToken(s, id))
            && (forall t, u :: t in Tokens(s) && u in Tokens(s) && Id(TaskOf(t)) == id && Id(TaskOf(u)) == id ==>
                t == u)
    ensures var s := Run(p, clock, workers, actions);
            forall x, y :: x in s.queue.ready && y in s.queue.delayed ==>
                x.task.message.messageId != y.task.message.messageId
  {
    hide Run, TriesInv, EndedInv, Routed, StepsAt, InBounds, Tried;
    RunKeepsInv(p, clock, workers, actions);
    var s := Run(p, clock, workers, actions);
    forall x, y | x in s.queue.ready && y in s.queue.delayed
      ensures x.task.message.messageId != y.task.message.messageId
    {
      InTokens(QueueItems(s.queue), s.hands, Queued(x));
      InTokens(QueueItems(s.queue), s.hands, Queued(y));
      assert x in QueueItems(s.queue) && y in QueueItems(s.queue);
      assert Queued(x) in Tokens(s) && Queued(y) in Tokens(s);
    }
  }

  /**
   Over any run, whatever the providers answer: the attempts of a message are numbered
   1, 2, 3, ... without gaps and stay within the attempt limit and the channel count; attempt n
   uses the n-th channel, another each time; and no attempt follows an accepted one.
   */
  lemma AttemptsAreSequential(p: Params, clock: int, workers: nat, actions: seq<Action>)
    requires p.policy.maxAttempts > 0
    ensures var s := Run(p, clock, workers, actions);
            && (forall i :: 0 <= i < |s.tries| ==>
                  var t := s.tries[i];
                  && t.messageId in s.accepted
                  && 1 <= t.attemptNo <= p.policy.maxAttempts
                      && t.attemptNo <= |s.accepted[t.messageId].providerChannels|
                  && t.channel == s.accepted[t.messageId].providerChannels[t.attemptNo - 1]
                  && (t.attemptNo > 1 ==> Tried(s.tries, i, t.messageId, t.attemptNo - 1)))
            && (forall i, j :: 0 <= i < j < |s.tries| && s.tries[i].messageId == s.tries[j].messageId ==>
                  && s.tries[i].attemptNo < s.tries[j].attemptNo
                  && s.tries[i].channel != s.tries[j].channel
                  && !s.tries[i].accepted)
  {
    hide Run, TokensOf, TokenInv, EndedInv, Tried;
    RunKeepsInv(p, clock, workers, actions);
    var s := Run(p, clock, workers, actions);
    forall i | 0 <= i < |s.tries|
      ensures s.tries[i].messageId in s.accepted
              && InBounds(p.policy, s.accepted[s.tries[i].messageId], s.tries[i].attemptNo)
      ensures s.tries[i].channel == s.accepted[s.tries[i].messageId].providerChannels[s.tries[i].attemptNo - 1]
      ensures s.tries[i].attemptNo > 1 ==> Tried(s.tries, i, s.tries[i].messageId, s.tries[i].attemptNo - 1)
    {
      assert TryInv(p, s.accepted, s.ended, s.tries, i);
    }
  }

  /** A message ends as sent exactly when a provider that was called accepted it. */
  lemma SentMeansAccepted(p: Params, clock: int, workers: nat, actions: seq<Action>, id: string)
    requires p.policy.maxAttempts > 0
    ensures var s := Run(p, clock, workers, actions);
            id in s.ended && s.ended[id] == EndedSent <==>
            exists i :: 0 <= i < |s.tries| && s.tries[i].messageId == id && s.tries[i].accepted && s.tries[i].called
  {
    hide Run, TokensOf, TokenInv, Tried, Ascending, InBounds;
    RunKeepsInv(p, clock, workers, actions);
    var s := Run(p, clock, workers, actions);
    if i :| 0 <= i < |s.tries| && s.tries[i].messageId == id && s.tries[i].accepted {
      assert TryInv(p, s.accepted, s.ended, s.tries, i);
    }
  }

  /** A message causes at most four delivery steps per allowed attempt. */
  lemma WorkIsBounded(p: Params, clock: int, workers: nat, actions: seq<Action>, id: string)
    requires p.policy.maxAttempts > 0
    requires var s := Run(p, clock, workers, actions); id in s.accepted && (id in s.ended || HasToken(s, id))
    ensures var s := Run(p, clock, workers, actions); id in s.work && s.work[id] <= 4 * p.policy.maxAttempts
  {
    hide Run, TokensOf, TriesInv, Tried, Routed;
    RunKeepsInv(p, clock, workers, actions);
    var s := Run(p, clock, workers, actions);
    if id !in s.ended {
      var t :| t in Tokens(s) && Id(TaskOf(t)) == id;
      assert TokenInv(p, s, t);
    }
  }
}
