/**
 What a commit puts on the queue, in every interleaving: the logged message with its
 first attempt, due at once, behind everything that was ready.
 */
module FirstAttempts {
  import opened Wrappers
  import opened Domain
  import opened Admission
  import opened Expiry
  import Safety = AdmissionSafety
  import I = Idempotency
  import Q = DelayQueue
  import R = RateLimiter

  /** The step from s to t queues the message of this request for its first attempt and records the commit. */
  ghost predicate QueuesFirstAttempt(s: State, t: State, id: nat) {
    && id in s.clients && s.clients[id].stage.Logged? && !s.queue.closed
    && var Client(request, stage) := s.clients[id];
       var message := request.draft.(messageId := stage.messageId, status := StatusQueued);
       && message in s.log && t.log == s.log
       && t.queue == s.queue.(nextSeq := s.queue.nextSeq + 1,
                              ready := s.queue.ready
                                       + [Q.Item(QueueTask(message, 1, s.clock), s.clock, s.queue.nextSeq + 1)])
       && t.history == s.history + [CommitEvent(request.key, stage.messageId)]
       && t.clients == s.clients[id := Client(request, Committed(stage.at, stage.messageId))]
       && t.cache == s.cache && t.counters == s.counters
  }

  /** The step from s to t queues nothing; the request will log its failure. */
  ghost predicate QueuesNothing(s: State, t: State, id: nat) {
    && id in s.clients && s.clients[id].stage.Logged? && s.queue.closed
    && var Client(request, stage) := s.clients[id];
       && t.queue.ready == s.queue.ready && t.queue.delayed == s.queue.delayed
       && t.history == s.history && t.log == s.log
       && t.clients == s.clients[id := Client(request, Refused(stage.at, stage.messageId))]
  }

  lemma CommitAction(p: Params, s: State, id: nat)
    requires id in s.clients && s.clients[id].stage.Logged?
    requires Queued(s.clients[id].request, s.clients[id].stage.messageId) in s.log
    ensures var t := Apply(p, s, Commit(id));
            if s.queue.closed then QueuesNothing(s, t, id) else QueuesFirstAttempt(s, t, id)
  {
  }

  /** In every run, the commit of a logged request queues its first attempt, unless the queue is closed. */
  lemma CommitQueuesFirstAttempt(p: Params, clock: int, actions: seq<Action>, k: nat, id: nat)
    requires k < |actions| && actions[k] == Commit(id)
    requires id in At(p, clock, actions, k).clients && At(p, clock, actions, k).clients[id].stage.Logged?
    ensures var s, t := At(p, clock, actions, k), At(p, clock, actions, k + 1);
            if s.queue.closed then QueuesNothing(s, t, id) else QueuesFirstAttempt(s, t, id)
  {
    hide Run, Apply, QueuesFirstAttempt, QueuesNothing, Queued;
    Advance(p, clock, actions, k);
    Safety.RunLogsBeforeCommit(p, clock, actions[..k]);
    LoggedOf(At(p, clock, actions, k), id);
    CommitAction(p, At(p, clock, actions, k), id);
  }

  lemma LoggedOf(s: State, id: nat)
    requires Safety.LoggedFirst(s) && id in s.clients && s.clients[id].stage.Logged?
    ensures Queued(s.clients[id].request, s.clients[id].stage.messageId) in s.log
  {
    assert Safety.ClientLogged(s.clients[id], s.log);
    hide Queued;
  }

  /** Of all actions only the commit of a logged request records a commit. */
  lemma OnlyCommitCommits(p: Params, s: State, a: Action)
    ensures var t := Apply(p, s, a);
            forall j :: |s.history| <= j < |t.history| && t.history[j].CommitEvent? ==>
              && j == |s.history| && a.Commit? && a.id in s.clients && s.clients[a.id].stage.Logged?
  {
    hide I.ReserveEffect, I.Live, I.CompleteEffect, I.ReleaseEffect, Q.ReserveSlot, Q.CommitSlot, Q.ReturnSlot,
         Q.TakeReady, Q.CloseQueue, R.AllowEffect, R.RollbackEffect, Queued, CommitFailed, Fresh;
  }

  /** Every commit in the history of a run is a step that queued its message's first attempt. */
  lemma {:induction false} CommitsQueueFirstAttempts(p: Params, clock: int, actions: seq<Action>, j: nat)
    returns (k: nat, id: nat)
    requires j < |Run(p, clock, actions).history| && Run(p, clock, actions).history[j].CommitEvent?
    ensures k < |actions| && actions[k] == Commit(id)
    ensures var s, t := At(p, clock, actions, k), At(p, clock, actions, k + 1);
            && QueuesFirstAttempt(s, t, id) && |s.history| == j
            && t.history[j] == Run(p, clock, actions).history[j]
  {
    hide Apply, QueuesFirstAttempt, QueuesNothing;
    if actions != [] {
      var n := |actions| - 1;
      var s := Run(p, clock, actions[..n]);
      OnlyCommitCommits(p, s, actions[n]);
      OnlyReserveDrops(p, s, actions[n]);
      assert actions[..n + 1] == actions;
      if j < |s.history| {
        k, id := CommitsQueueFirstAttempts(p, clock, actions[..n], j);
        assert actions[..n][..k] == actions[..k] && actions[..n][..k + 1] == actions[..k + 1];
      } else {
        k, id := n, actions[n].id;
        CommitQueuesFirstAttempt(p, clock, actions, k, id);
        QueuedOpen(At(p, clock, actions, k), At(p, clock, actions, k + 1), id);
      }
    }
  }

  lemma QueuedOpen(s: State, t: State, id: nat)
    requires if s.queue.closed then QueuesNothing(s, t, id) else QueuesFirstAttempt(s, t, id)
    requires t.history != s.history
    ensures QueuesFirstAttempt(s, t, id)
  {
  }
}
