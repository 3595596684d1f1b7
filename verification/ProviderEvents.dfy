/**
 Webhook events: what one delivery of a provider event does to the logs, the counters and
 the suppression store, and where it can fail.
 */
module ProviderEvents {
  import opened Wrappers
  import opened Domain
  import opened Jsonl
  import opened MessageLog
  import S = Suppression

  /** A decoded event: its identity as logged, and the recipient, which is not logged. */
  datatype ProviderEvent = ProviderEvent(identity: EventIdentity, recipientEmail: string)

  /** The mail library's address rules and the recipient hash, neither of which is modelled. */
  datatype Env = Env(normalize: S.Normalizer, toHash: (string, string) -> string)

  datatype Outcome =
    | LookupFailed | MessageNotFound | NoSentAttempt | WrongRecipient
    | EventNotLogged | NotSuppressed | StatusNotLogged
    | Done(status: MessageStatus)

  function StatusFor(eventType: EventType): MessageStatus {
    match eventType
    case Delivered => StatusDelivered
    case Bounced => StatusBounced
    case Complained => StatusComplained
  }

  function NextStatus(current: MessageStatus, eventType: EventType): Option<MessageStatus> {
    var next := StatusFor(eventType);
    if current == next then None
    else if current == StatusFailed || current == StatusComplained then None
    else if current == StatusBounced then if next == StatusComplained then Some(next) else None
    else if current == StatusDelivered then if next == StatusBounced
        || next == StatusComplained then Some(next) else None
    else Some(next)
  }

  function ReasonFor(eventType: EventType): Option<S.Reason> {
    match eventType
    case Delivered => None
    case Bounced => Some(S.HardBounce)
    case Complained => Some(S.Complaint)
  }

  // ---------- which events are accepted ----------

  /** The last attempt logged under a number. */
  function LatestAttempt(attempts: seq<AttemptRecord>, attemptNo: int): Option<AttemptRecord> {
    if attempts == [] then None
    else if attempts[|attempts| - 1].attemptNo == attemptNo then Some(attempts[|attempts| - 1])
    else LatestAttempt(attempts[..|attempts| - 1], attemptNo)
  }

  /** The event names the route of a sent attempt; an attempt without a provider id accepts any. */
  predicate Fits(attempt: AttemptRecord, e: EventIdentity) {
    && attempt.status == AttemptSent
    && attempt.provider == e.provider && attempt.accountCode == e.accountCode && attempt.channelCode == e.channelCode
    && (attempt.providerMessageId == e.providerMessageId || attempt.providerMessageId == "")
  }

  ghost predicate MatchesSentAttempt(attempts: seq<AttemptRecord>, e: EventIdentity) {
    exists n: int :: LatestAttempt(attempts, n).Some? && Fits(LatestAttempt(attempts, n).value, e)
  }

  predicate RecipientMatches(env: Env, snapshot: MessageRecord, event: ProviderEvent) {
    ReasonFor(event.identity.eventType).Some? ==>
      && env.normalize(event.recipientEmail).Some?
      && snapshot.toHash != ""
      && env.toHash(snapshot.appCode, env.normalize(event.recipientEmail).value) == snapshot.toHash
  }

  // ---------- one delivery ----------

  /** counted is the list of events the statistics were told about. */
  datatype State = State(
    messages: seq<MessageRecord>,
    attempts: seq<AttemptRecord>,
    events: seq<EventIdentity>,
    counted: seq<EventIdentity>,
    suppression: S.Store)

  /** How an append ends: whether the record is written, and how many old records a rotation drops. */
  datatype LogWrite = LogWrite(ok: bool, dropped: nat)

  /** What the surroundings decide during one delivery: a flag or a LogWrite for each operation that can fail. */
  datatype Faults = Faults(findOk: bool, listOk: bool, readOk: bool, event: LogWrite, suppressOk: bool,
                           status: LogWrite, now: int)

  function Written<T>(log: seq<T>, record: T, w: LogWrite): seq<T> {
    (if w.dropped <= |log| then log[w.dropped..] else []) + (if w.ok then [record] else [])
  }

  function LatestOf(s: State, e: EventIdentity): Option<MessageRecord> {
    Latest(s.messages, e.appCode, e.messageId)
  }

  /** The first check that stops a delivery, if any does. */
  ghost function Refusal(env: Env, s: State, event: ProviderEvent, t: Faults): Option<Outcome> {
    var e := event.identity;
    if !t.findOk then Some(LookupFailed)
    else if LatestOf(s, e).None? then Some(MessageNotFound)
    else if !t.listOk then Some(LookupFailed)
    else if !MatchesSentAttempt(AttemptsOf(s.attempts, e.appCode, e.messageId), e) then Some(NoSentAttempt)
    else if !RecipientMatches(env, LatestOf(s, e).value, event) then Some(WrongRecipient)
    else None
  }

  /** Logs and counts the event unless a retained record has its identity. */
  function Record(s: State, e: EventIdentity, t: Faults): (State, bool) {
    if !t.readOk then (s, false)
    else if e in s.events then (s, true)
    else if !t.event.ok then (s.(events := Written(s.events, e, t.event)), false)
    else (s.(events := Written(s.events, e, t.event), counted := s.counted + [e]), true)
  }

  function SuppressionEntry(event: ProviderEvent, reason: S.Reason): S.Entry {
    S.Entry(event.identity.appCode, event.recipientEmail, "", reason)
  }

  ghost function Suppress(env: Env, s: State, event: ProviderEvent, t: Faults): (State, bool) {
    var reason := ReasonFor(event.identity.eventType);
    if reason.None? then (s, true)
    else
      var (store, result) := S.AddEffect(env.normalize, s.suppression, SuppressionEntry(event, reason.value),
                                         t.suppressOk);
      (s.(suppression := store), result == S.Added || result == S.Unchanged)
  }

  /** The record a status change appends: the message again, under its new status and without an error. */
  function StatusRecord(snapshot: MessageRecord, status: MessageStatus, now: int): MessageRecord {
    snapshot.(timestamp := now, status := status, errorCode := NoError)
  }

  function Advance(s: State, snapshot: MessageRecord, eventType: EventType, t: Faults): (State, Outcome) {
    var next := NextStatus(snapshot.status, eventType);
    if next.None? then (s, Done(snapshot.status))
    else (s.(messages := Written(s.messages, StatusRecord(snapshot, next.value, t.now), t.status)),
          if t.status.ok then Done(next.value) else StatusNotLogged)
  }

  /** The effect of an accepted event on the message whose latest record is snapshot. */
  ghost function DeliverChecked(env: Env, s: State, event: ProviderEvent, snapshot: MessageRecord, t: Faults): (State,
      Outcome) {
    var (recorded, recordOk) := Record(s, event.identity, t);
    if !recordOk then (recorded, EventNotLogged) else
      var (suppressed, suppressOk) := Suppress(env, recorded, event, t);
      if !suppressOk then (suppressed, NotSuppressed)
      else Advance(suppressed, snapshot, event.identity.eventType, t)
  }

  /** The effect of delivering an event once. */
  ghost function Deliver(env: Env, s: State, event: ProviderEvent, t: Faults): (State, Outcome) {
    var refusal := Refusal(env, s, event, t);
    if refusal.Some? then (s, refusal.value) else DeliverChecked(env, s, event, LatestOf(s, event.identity).value, t)
  }

  // ---------- a delivery told from the event's type ----------

  /** The key under which the event's recipient is suppressed. */
  function RecipientKey(env: Env, event: ProviderEvent): Option<string> {
    match env.normalize(S.TrimSpace(event.recipientEmail))
    case None => None
    case Some(address) => Some(S.TrimSpace(event.identity.appCode) + "\0" + address)
  }

  /** Only this key may have changed, and it now has this reason. */
  predicate ListsUnder(before: S.Entries, after: S.Entries, key: string, reason: S.Reason) {
    key in after && after[key].reason == reason && after == before[key := after[key]]
  }

  /**
   The suppression list behind a delivery that got past it: a delivered event leaves it alone, a bounce puts
   an absent recipient on it, a complaint an absent or bounced one.
   */
  predicate Suppressing(env: Env, event: ProviderEvent, before: S.Store, after: S.Store) {
    match event.identity.eventType
    case Delivered => after == before
    case Bounced =>
      && RecipientKey(env, event).Some?
      && var key := RecipientKey(env, event).value;
         if key in before.entries then after == before
         else ListsUnder(before.entries, after.entries, key, S.HardBounce)
    case Complained =>
      && RecipientKey(env, event).Some?
      && var key := RecipientKey(env, event).value;
         if key in before.entries && before.entries[key].reason != S.HardBounce then after == before
         else ListsUnder(before.entries, after.entries, key, S.Complaint)
  }

  /** The status that a message of some status has once the event is done; nothing gets past failed. */
  function Settled(current: MessageStatus, eventType: EventType): MessageStatus {
    if current == StatusFailed then StatusFailed
    else if current == StatusComplained || eventType == Complained then StatusComplained
    else if current == StatusBounced || eventType == Bounced then StatusBounced
    else StatusDelivered
  }

  /** The event passes: its message is logged, one of its attempts was sent as the event says, to that recipient. */
  ghost predicate Passes(env: Env, s: State, event: ProviderEvent) {
    var e := event.identity;
    var attempts := AttemptsOf(s.attempts, e.appCode, e.messageId);
    && LatestOf(s, e).Some?
    && (exists i :: 0 <= i < |attempts| && IsLastOfItsNumber(attempts, i) && WasSentAs(attempts[i], e))
    && (e.eventType != Delivered ==>
          && env.normalize(event.recipientEmail).Some?
          && LatestOf(s, e).value.toHash != ""
          && LatestOf(s, e).value.toHash ==
             env.toHash(LatestOf(s, e).value.appCode, env.normalize(event.recipientEmail).value))
  }

  predicate IsLastOfItsNumber(attempts: seq<AttemptRecord>, i: int)
    requires 0 <= i < |attempts|
  {
    forall j :: i < j < |attempts| ==> attempts[j].attemptNo != attempts[i].attemptNo
  }

  predicate WasSentAs(attempt: AttemptRecord, e: EventIdentity) {
    && attempt.status == AttemptSent
    && attempt.provider == e.provider && attempt.accountCode == e.accountCode && attempt.channelCode == e.channelCode
    && (attempt.providerMessageId == "" || attempt.providerMessageId == e.providerMessageId)
  }

  /** What one delivery does, without its tables: acceptance, suppression and status by event type. */
  ghost predicate Effect(env: Env, s: State, event: ProviderEvent, t: Faults, after: State, outcome: Outcome) {
    && (outcome.EventNotLogged? || outcome.NotSuppressed? || outcome.StatusNotLogged? || outcome.Done? <==>
        t.findOk && t.listOk && Passes(env, s, event))
    && (if outcome.StatusNotLogged? || outcome.Done? then Suppressing(env, event, s.suppression, after.suppression)
        else after.suppression == s.suppression)
    && (outcome.Done? ==>
          && LatestOf(s, event.identity).Some?
          && var snapshot := LatestOf(s, event.identity).value;
             && outcome.status == Settled(snapshot.status, event.identity.eventType)
             && (if outcome.status == snapshot.status then after.messages == s.messages
                 else after.messages != []
                      && after.messages[|after.messages| - 1] ==
                         snapshot.(timestamp := t.now, status := outcome.status, errorCode := NoError)))
    && (outcome.Done? ==> event.identity in after.events || event.identity in s.events)
  }

  lemma {:induction false} LatestAttemptIsLast(attempts: seq<AttemptRecord>, n: int)
    ensures var r := LatestAttempt(attempts, n);
            && (r.None? <==> forall i :: 0 <= i < |attempts| ==> attempts[i].attemptNo != n)
            && (r.Some? ==> exists i :: 0 <= i < |attempts| && attempts[i] == r.value && attempts[i].attemptNo == n
                                        && IsLastOfItsNumber(attempts, i))
            && (forall i :: 0 <= i < |attempts| && attempts[i].attemptNo == n && IsLastOfItsNumber(attempts, i) ==>
                  r == Some(attempts[i]))
  {
    if attempts != [] {
      var k := |attempts| - 1;
      var rest := attempts[..k];
      if attempts[k].attemptNo == n {
        assert IsLastOfItsNumber(attempts, k);
        assert forall i :: 0 <= i < k && attempts[i].attemptNo == n ==> !IsLastOfItsNumber(attempts, i);
      } else {
        LatestAttemptIsLast(rest, n);
        assert forall i :: 0 <= i < k && attempts[i].attemptNo == n ==>
            (IsLastOfItsNumber(attempts, i) <==> IsLastOfItsNumber(rest, i));
      }
    }
  }

  /** A sent attempt fits the event exactly when the last attempt of some number was sent as the event says. */
  lemma MatchIsSentAs(attempts: seq<AttemptRecord>, e: EventIdentity)
    ensures MatchesSentAttempt(attempts, e) <==>
            exists i :: 0 <= i < |attempts| && IsLastOfItsNumber(attempts, i) && WasSentAs(attempts[i], e)
  {
    hide LatestAttempt;
    if MatchesSentAttempt(attempts, e) {
      var n: int :| LatestAttempt(attempts, n).Some? && Fits(LatestAttempt(attempts, n).value, e);
      LatestAttemptIsLast(attempts, n);
    }
    if i :| 0 <= i < |attempts| && IsLastOfItsNumber(attempts, i) && WasSentAs(attempts[i], e) {
      LatestAttemptIsLast(attempts, attempts[i].attemptNo);
    }
  }

  lemma RefusedUnlessPasses(env: Env, s: State, event: ProviderEvent, t: Faults)
    ensures Refusal(env, s, event, t).None? <==> t.findOk && t.listOk && Passes(env, s, event)
    ensures Refusal(env, s, event, t).Some? ==>
              var o := Refusal(env, s, event, t).value;
              !(o.EventNotLogged? || o.NotSuppressed? || o.StatusNotLogged? || o.Done?)
  {
    MatchIsSentAs(AttemptsOf(s.attempts, event.identity.appCode, event.identity.messageId), event.identity);
    hide MatchesSentAttempt, LatestOf, IsLastOfItsNumber, WasSentAs;
  }

  lemma SuppressIsByType(env: Env, s: State, event: ProviderEvent, t: Faults)
    ensures var (after, ok) := Suppress(env, s, event, t);
            && after == s.(suppression := after.suppression)
            && (if ok then Suppressing(env, event, s.suppression, after.suppression)
                else after.suppression == s.suppression)
  {
    hide S.TrimSpace, S.Persisted, IsIdentifier;
    TrimmedEmpty();
  }

  lemma TrimmedEmpty()
    ensures S.TrimSpace("") == ""
  {
  }

  lemma SettledIsNext(current: MessageStatus, eventType: EventType)
    ensures NextStatus(current, eventType) ==
            if Settled(current, eventType) == current then None else Some(Settled(current, eventType))
  {
  }

  lemma RecordKeeps(s: State, e: EventIdentity, t: Faults)
    ensures var (recorded, ok) := Record(s, e, t);
            && recorded.messages == s.messages && recorded.suppression == s.suppression
            && (ok ==> e in recorded.events)
  {
  }

  /** One delivery, whatever fails: acceptance, suppression and status follow from the event's type. */
  lemma DeliverHasEffect(env: Env, s: State, event: ProviderEvent, t: Faults)
    ensures var (after, outcome) := Deliver(env, s, event, t); Effect(env, s, event, t, after, outcome)
  {
    RefusedUnlessPasses(env, s, event, t);
    PassingIsLogged(env, s, event);
    hide Refusal, Passes, Suppressing, Suppress, Settled, NextStatus, Record, LatestOf, Written, Advance;
    if Refusal(env, s, event, t).None? {
      var snapshot := LatestOf(s, event.identity).value;
      var recorded := Record(s, event.identity, t).0;
      var suppressed := Suppress(env, recorded, event, t).0;
      RecordKeeps(s, event.identity, t);
      SuppressIsByType(env, recorded, event, t);
      AdvanceSettles(suppressed, snapshot, event.identity.eventType, t);
    }
  }

  lemma PassingIsLogged(env: Env, s: State, event: ProviderEvent)
    ensures Passes(env, s, event) ==> LatestOf(s, event.identity).Some?
  {
  }

  lemma AdvanceSettles(s: State, snapshot: MessageRecord, eventType: EventType, t: Faults)
    ensures var (after, outcome) := Advance(s, snapshot, eventType, t);
            && after == s.(messages := after.messages)
            && (outcome.Done? || outcome.StatusNotLogged?)
            && (outcome.Done? ==>
                  && outcome.status == Settled(snapshot.status, eventType)
                  && (if outcome.status == snapshot.status then after.messages == s.messages
                      else after.messages != []
                           && after.messages[|after.messages| - 1] ==
                              snapshot.(timestamp := t.now, status := outcome.status, errorCode := NoError)))
  {
    SettledIsNext(snapshot.status, eventType);
    hide NextStatus, Settled;
  }

  // ---------- the runtime that performs it ----------

  method LatestAttemptsByNumber(attempts: seq<AttemptRecord>) returns (latest: map<int, AttemptRecord>)
    ensures forall n :: n in latest <==> LatestAttempt(attempts, n).Some?
    ensures forall n :: n in latest ==> Some(latest[n]) == LatestAttempt(attempts, n)
  {
    latest := map[];
    var i := 0;
    while i < |attempts|
      invariant 0 <= i <= |attempts|
      invariant forall n :: n in latest <==> LatestAttempt(attempts[..i], n).Some?
      invariant forall n :: n in latest ==> Some(latest[n]) == LatestAttempt(attempts[..i], n)
    {
      assert attempts[..i + 1][..i] == attempts[..i];
      latest := latest[attempts[i].attemptNo := attempts[i]];
      i := i + 1;
    }
    assert attempts[..i] == attempts;
  }

  /** The attempts are visited in an arbitrary order. */
  method HasSentAttempt(attempts: seq<AttemptRecord>, e: EventIdentity) returns (found: bool)
    ensures found <==> MatchesSentAttempt(attempts, e)
  {
    var latest := LatestAttemptsByNumber(attempts);
    var keys := latest.Keys;
    while exists n :: n in keys
      invariant keys <= latest.Keys
      invariant forall n :: n in latest && n !in keys ==> !Fits(latest[n], e)
      decreases |keys|
    {
      var n :| n in keys;
      keys := keys - {n};
      var attempt := latest[n];
      if attempt.status != AttemptSent {
        continue;
      }
      if attempt.provider == e.provider && attempt.accountCode == e.accountCode
          && attempt.channelCode == e.channelCode {
        if attempt.providerMessageId == e.providerMessageId {
          assert LatestAttempt(attempts, n).Some?;
          return true;
        }
        if attempt.providerMessageId == "" {
          assert LatestAttempt(attempts, n).Some?;
          return true;
        }
      }
    }
    found := false;
  }

  /** What one delivery meets: how far each file operation gets, record lengths, and the clock. */
  datatype Surroundings = Surroundings(
    findReadable: nat, listReadable: nat, eventReadable: nat,
    eventLength: nat, eventSteps: nat, persistOk: bool, statusLength: nat, statusSteps: nat, now: int)

  class Runtime {
    const env: Env
    const log: MessageLog
    const suppressed: S.SuppressionStore
    /** The events reported to the statistics. */
    var counted: seq<EventIdentity>

    ghost predicate Valid()
      reads this, log.messages, log.attempts, log.events, suppressed
    {
      log.Valid() && suppressed.Valid() && suppressed.normalize == env.normalize
    }

    ghost function Now(): State
      reads this, log.messages, log.attempts, log.events, suppressed
    {
      State(log.Messages(), log.Attempts(), log.Events(), counted, suppressed.State())
    }

    constructor (env: Env, log: MessageLog, suppressed: S.SuppressionStore)
      ensures this.env == env && this.log == log && this.suppressed == suppressed && counted == []
    {
      this.env, this.log, this.suppressed, counted := env, log, suppressed, [];
    }

    /** The event log is enabled, open, readable and writable. */
    ghost predicate EventsWork(io: Surroundings)
      reads log.events
    {
      && log.eventsEnabled && log.events.isOpen
      && log.events.maxBackups + 1 <= io.eventReadable && log.events.maxBackups + 4 <= io.eventSteps
    }

    /** Nothing stands in the way of a file operation of this delivery. */
    ghost predicate Unhindered(io: Surroundings)
      reads log.messages, log.events
    {
      && EventsWork(io)
      && log.messages.maxBackups + 1 <= io.findReadable && log.attempts.maxBackups + 1 <= io.listReadable
      && log.messages.isOpen && log.messages.maxBackups + 4 <= io.statusSteps
    }

    method AppendStatus(snapshot: MessageRecord, status: MessageStatus, io: Surroundings)
      returns (ok: bool, ghost w: LogWrite)
      requires Valid()
      modifies log.messages
      ensures Valid() && ok == w.ok
      ensures Now() == old(Now()).(messages := Written(old(log.Messages()), StatusRecord(snapshot, status, io.now), w))
      ensures old(log.messages.Fits(io.statusLength)) ==> w.dropped == 0
      ensures log.messages.maxBackups + 4 <= io.statusSteps && old(log.messages.isOpen) ==> ok
    {
      hide JsonlWriter.Valid, JsonlWriter.Retained, Records, S.Agrees;
      ghost var before := log.Messages();
      ok := log.AppendMessage(snapshot.(timestamp := io.now, status := status, errorCode := NoError), io.statusLength,
                              io.statusSteps);
      w := WriteOf(before, log.Messages(), StatusRecord(snapshot, status, io.now), ok);
    }

    method RecordOnce(e: EventIdentity, io: Surroundings) returns (ok: bool, ghost readOk: bool, ghost w: LogWrite)
      requires Valid()
      modifies this`counted, log.events
      ensures Valid()
      ensures forall t: Faults :: t.readOk == readOk && t.event == w ==> (Now(), ok) == Record(old(Now()), e, t)
      ensures old(log.events.Fits(io.eventLength)) ==> w.dropped == 0
      ensures ok ==> readOk && w.ok
      ensures old(EventsWork(io)) ==> ok
    {
      hide JsonlWriter.Valid, JsonlWriter.Retained, Records, S.Agrees;
      ghost var before := log.Events();
      readOk, w := true, LogWrite(true, 0);
      var appended := log.AppendProviderEventOnce(e, io.eventLength, io.eventReadable, io.eventSteps);
      if appended.IoError? {
        readOk := e !in before;
        w := WriteOf(before, log.Events(), e, false);
        return false, readOk, w;
      }
      ok := true;
      if appended.value {
        w := WriteOf(before, log.Events(), e, true);
        counted := counted + [e];
      }
    }

    method ApplySuppression(event: ProviderEvent, io: Surroundings) returns (ok: bool)
      requires Valid()
      modifies suppressed`entries, suppressed`file
      ensures Valid()
      ensures forall t: Faults :: t.suppressOk == io.persistOk ==> (Now(), ok) == Suppress(env, old(Now()), event, t)
    {
      hide JsonlWriter.Valid, JsonlWriter.Retained, Records, S.Agrees, S.AddEffect;
      var reason := ReasonFor(event.identity.eventType);
      if reason.None? {
        return true;
      }
      var result := suppressed.Add(SuppressionEntry(event, reason.value), io.persistOk);
      ok := result == S.Added || result == S.Unchanged;
    }

    /** A refused delivery, or the message's latest record. */
    method Check(event: ProviderEvent, io: Surroundings)
      returns (refusal: Option<Outcome>, snapshot: Option<MessageRecord>, ghost findOk: bool, ghost listOk: bool)
      requires Valid()
      ensures forall t: Faults :: t.findOk == findOk && t.listOk == listOk ==> refusal == Refusal(env, Now(), event, t)
      ensures log.messages.maxBackups + 1 <= io.findReadable ==> findOk
      ensures log.attempts.maxBackups + 1 <= io.listReadable ==> listOk
      ensures refusal.None? ==> snapshot.Some? && snapshot == LatestOf(Now(), event.identity)
    {
      hide JsonlWriter.Valid, JsonlWriter.Retained, Records, S.Agrees, RecipientMatches;
      findOk, listOk, snapshot := true, true, None;
      var e := event.identity;
      var found := log.FindLatestMessage(e.appCode, e.messageId, io.findReadable);
      if found.IoError? {
        findOk := false;
        return Some(LookupFailed), None, findOk, listOk;
      }
      snapshot := found.value;
      if snapshot.None? {
        return Some(MessageNotFound), None, findOk, listOk;
      }
      var attempts := log.ListAttempts(e.appCode, e.messageId, io.listReadable);
      if attempts.IoError? {
        listOk := false;
        return Some(LookupFailed), None, findOk, listOk;
      }
      var fits := HasSentAttempt(attempts.value, e);
      if !fits {
        return Some(NoSentAttempt), None, findOk, listOk;
      }
      if !RecipientMatches(env, snapshot.value, event) {
        return Some(WrongRecipient), None, findOk, listOk;
      }
      refusal := None;
    }

    /** Delivers one event; t names the faults that the run met. */
    method ApplyProviderEvent(event: ProviderEvent, io: Surroundings) returns (outcome: Outcome, ghost t: Faults)
      requires Valid()
      modifies this`counted, log.events, log.messages, suppressed`entries, suppressed`file
      ensures Valid()
      ensures (Now(), outcome) == Deliver(env, old(Now()), event, t)
      ensures Effect(env, old(Now()), event, t, Now(), outcome)
      ensures t.suppressOk == io.persistOk && t.now == io.now
      ensures old(Unhindered(io)) ==> t.findOk && t.listOk && t.readOk && t.event.ok && t.status.ok
      ensures old(log.events.Fits(io.eventLength)) ==> t.event.dropped == 0
      ensures old(log.messages.Fits(io.statusLength)) ==> t.status.dropped == 0
    {
      hide JsonlWriter.Valid, JsonlWriter.Retained, JsonlWriter.Fits, Records, S.Agrees, Refusal, Record, Suppress,
           Written, MessageLog.Valid, Effect;
      t := Faults(true, true, true, LogWrite(true, 0), io.persistOk, LogWrite(true, 0), io.now);
      var refusal, snapshot, findOk, listOk := Check(event, io);
      t := t.(findOk := findOk, listOk := listOk);
      if refusal.Some? {
        DeliverHasEffect(env, Now(), event, t);
        return refusal.value, t;
      }
      outcome, t := ApplyChecked(event, snapshot.value, io, t);
      DeliverHasEffect(env, old(Now()), event, t);
    }

    /** A delivery that passed its checks. */
    method ApplyChecked(event: ProviderEvent, snapshot: MessageRecord, io: Surroundings, ghost t0: Faults)
      returns (outcome: Outcome, ghost t: Faults)
      requires Valid() && LatestOf(Now(), event.identity) == Some(snapshot)
      requires t0.suppressOk == io.persistOk && t0.now == io.now
      modifies this`counted, log.events, log.messages, suppressed`entries, suppressed`file
      ensures Valid()
      ensures t == t0.(readOk := t.readOk, event := t.event, status := t.status)
      ensures (Now(), outcome) == DeliverChecked(env, old(Now()), event, snapshot, t)
      ensures old(EventsWork(io)) ==> t.readOk && t.event.ok
      ensures log.messages.maxBackups + 4 <= io.statusSteps && old(log.messages.isOpen) ==> t.status.ok
      ensures old(log.events.Fits(io.eventLength)) ==> t.event.dropped == 0
      ensures old(log.messages.Fits(io.statusLength)) ==> t.status.dropped == 0
    {
      hide JsonlWriter.Valid, JsonlWriter.Retained, JsonlWriter.Fits, Records, S.Agrees, Record, Suppress, Written,
           MessageLog.Valid, LatestOf;
      t := t0.(status := LogWrite(true, 0));
      var recorded, readOk, eventWrite := RecordOnce(event.identity, io);
      t := t.(readOk := readOk, event := eventWrite);
      if !recorded {
        return EventNotLogged, t;
      }
      var applied := ApplySuppression(event, io);
      if !applied {
        return NotSuppressed, t;
      }
      var next := NextStatus(snapshot.status, event.identity.eventType);
      if next.None? {
        return Done(snapshot.status), t;
      }
      var written, statusWrite := AppendStatus(snapshot, next.value, io);
      t := t.(status := statusWrite);
      outcome := if written then Done(next.value) else StatusNotLogged;
    }
  }

  /** The LogWrite that explains how a log changed. */
  ghost function WriteOf<T(!new)>(before: seq<T>, after: seq<T>, record: T, ok: bool): (w: LogWrite)
    requires ok ==> exists kept :: IsSuffix(kept, before) && after == kept + [record]
    requires !ok ==> IsSuffix(after, before)
    ensures w.ok == ok && after == Written(before, record, w)
    ensures |after| == |before| + (if ok then 1 else 0) ==> w.dropped == 0
  {
    if ok then
      var kept :| IsSuffix(kept, before) && after == kept + [record];
      LogWrite(true, |before| - |kept|)
    else
      LogWrite(false, |before| - |after|)
  }

  lemma RecordAndSuppressKeepMessages(env: Env, s: State, recorded: State, event: ProviderEvent, t: Faults)
    requires recorded == Record(s, event.identity, t).0
    ensures recorded.messages == s.messages && Suppress(env, recorded, event, t).0.messages == s.messages
  {
  }
}
