/**
 Convergence of webhook deliveries: whatever the order, the repeats and the failures, once
 every event that got into the stores has been redelivered to completion the message status
 and the suppression reasons are those of one failure-free pass.
 */
module EventConvergence {
  import opened Wrappers
  import opened Domain
  import opened Jsonl
  import opened MessageLog
  import opened ProviderEvents
  import S = Suppression

  datatype Delivery = Delivery(event: ProviderEvent, faults: Faults)

  ghost function After(env: Env, s: State, d: Delivery): State {
    Deliver(env, s, d.event, d.faults).0
  }

  ghost function OutcomeOf(env: Env, s: State, d: Delivery): Outcome {
    Deliver(env, s, d.event, d.faults).1
  }

  ghost function Run(env: Env, s: State, run: seq<Delivery>): State
    decreases |run|
  {
    if run == [] then s else Run(env, After(env, s, run[0]), run[1..])
  }

  /** The events that some delivery of a run carried to the end. */
  ghost function Completed(env: Env, s: State, run: seq<Delivery>): set<ProviderEvent>
    decreases |run|
  {
    if run == [] then {} else
      (if OutcomeOf(env, s, run[0]).Done? then {run[0].event} else {}) + Completed(env, After(env, s, run[0]), run[1..])
  }

  /** The events that some delivery of a run carried past the suppression store. */
  ghost function Suppressed(env: Env, s: State, run: seq<Delivery>): set<ProviderEvent>
    decreases |run|
  {
    if run == [] then {} else
      var o := OutcomeOf(env, s, run[0]);
      (if o.Done? || o.StatusNotLogged? then {run[0].event} else {}) + Suppressed(env, After(env, s, run[0]), run[1..])
  }

  // ---------- status: a maximum ----------

  /** Queued to sent, then delivered, bounced and complained; failed absorbs everything. */
  function Rank(status: MessageStatus): nat {
    match status
    case StatusDelivered => 1
    case StatusBounced => 2
    case StatusComplained => 3
    case StatusFailed => 4
    case _ => 0
  }

  ghost function StatusOf(s: State, appCode: string, messageId: string): Option<MessageStatus> {
    if Latest(s.messages, appCode, messageId).None? then None
        else Some(Latest(s.messages, appCode, messageId).value.status)
  }

  predicate About(e: EventIdentity, appCode: string, messageId: string) {
    e.appCode == appCode && e.messageId == messageId
  }

  ghost function Types(events: set<ProviderEvent>, appCode: string, messageId: string): set<EventType> {
    set e | e in events && About(e.identity, appCode, messageId) :: e.identity.eventType
  }

  /** final is the highest-ranked among an initial status and the statuses of some event types. */
  predicate IsHighest(initial: MessageStatus, types: set<EventType>, final: MessageStatus) {
    && Rank(initial) <= Rank(final)
    && (forall t :: t in types ==> Rank(StatusFor(t)) <= Rank(final))
    && (final == initial || exists t :: t in types && final == StatusFor(t))
  }

  lemma HighestIsUnique(initial: MessageStatus, types: set<EventType>, a: MessageStatus, b: MessageStatus)
    requires IsHighest(initial, types, a) && IsHighest(initial, types, b)
    ensures a == b
  {
  }

  lemma HighestComposes(a: MessageStatus, first: set<EventType>, b: MessageStatus, rest: set<EventType>,
                        c: MessageStatus)
    requires IsHighest(a, first, b) && IsHighest(b, rest, c)
    ensures IsHighest(a, first + rest, c)
  {
  }

  lemma NextIsHighest(current: MessageStatus, eventType: EventType)
    ensures IsHighest(current, {eventType}, NextStatus(current, eventType).GetOr(current))
    ensures NextStatus(current, eventType).Some? ==> NextStatus(current, eventType).value == StatusFor(eventType)
  {
    assert eventType in {eventType};
  }

  lemma LatestOfWritten(log: seq<MessageRecord>, r: MessageRecord, w: LogWrite, appCode: string, messageId: string)
    ensures var after := Latest(Written(log, r, w), appCode, messageId);
            if w.ok && Is(r, appCode, messageId) then after == Some(r)
            else after.None? || after == Latest(log, appCode, messageId)
  {
    var kept := if w.dropped <= |log| then log[w.dropped..] else [];
    if w.dropped <= |log| {
      assert log == log[..w.dropped] + kept;
      LatestOfSuffix(kept, log, appCode, messageId);
    }
    if w.ok {
      LatestOfConcat(kept, [r], appCode, messageId);
      assert Latest([r], appCode, messageId) == if Is(r, appCode, messageId) then Some(r)
             else Latest([], appCode, messageId) by {
        assert [r][..0] == [];
      }
    } else {
      assert Written(log, r, w) == kept;
    }
  }

  /** One delivery raises a retained message's status to the event's when it completes, and otherwise leaves it. */
  lemma DeliveryIsAJoin(env: Env, s: State, d: Delivery, appCode: string, messageId: string)
    requires StatusOf(After(env, s, d), appCode, messageId).Some?
    ensures StatusOf(s, appCode, messageId).Some?
    ensures var done := OutcomeOf(env, s, d).Done? && About(d.event.identity, appCode, messageId);
            IsHighest(StatusOf(s, appCode, messageId).value, if done then {d.event.identity.eventType} else {},
                      StatusOf(After(env, s, d), appCode, messageId).value)
  {
    hide Record, Suppress, NextStatus, Written, MatchesSentAttempt, RecipientMatches, IsHighest;
    var e := d.event.identity;
    StaysHighest(s, appCode, messageId);
    var (recorded, recordOk) := Record(s, e, d.faults);
    RecordAndSuppressKeepMessages(env, s, recorded, d.event, d.faults);
    if Refusal(env, s, d.event, d.faults).None? && recordOk && Suppress(env, recorded, d.event, d.faults).1 {
      var snapshot := LatestOf(s, e).value;
      NextIsHighest(snapshot.status, e.eventType);
      LatestMatches(s.messages, e.appCode, e.messageId);
      var next := NextStatus(snapshot.status, e.eventType);
      if next.Some? {
        LatestOfWritten(s.messages, StatusRecord(snapshot, next.value, d.faults.now), d.faults.status, appCode,
                        messageId);
      }
    }
  }

  lemma StaysHighest(s: State, appCode: string, messageId: string)
    ensures StatusOf(s, appCode, messageId).Some? ==>
              IsHighest(StatusOf(s, appCode, messageId).value, {}, StatusOf(s, appCode, messageId).value)
  {
  }

  /**
   Over any run the status of a message that is still logged is the maximum of its old status and its
   completed events.
   */
  lemma {:induction false} StatusIsTheHighest(env: Env, s: State, run: seq<Delivery>, appCode: string,
                                              messageId: string)
    requires StatusOf(Run(env, s, run), appCode, messageId).Some?
    ensures StatusOf(s, appCode, messageId).Some?
    ensures IsHighest(StatusOf(s, appCode, messageId).value, Types(Completed(env, s, run), appCode, messageId),
                      StatusOf(Run(env, s, run), appCode, messageId).value)
    decreases |run|
  {
    hide After, OutcomeOf, StatusOf, IsHighest;
    if run == [] {
      StaysHighest(s, appCode, messageId);
      assert Types(Completed(env, s, run), appCode, messageId) == {};
    } else {
      var d, next := run[0], After(env, s, run[0]);
      StatusIsTheHighest(env, next, run[1..], appCode, messageId);
      DeliveryIsAJoin(env, s, d, appCode, messageId);
      var first := if OutcomeOf(env, s, d).Done? && About(d.event.identity, appCode, messageId)
          then {d.event.identity.eventType} else {};
      var rest := Types(Completed(env, next, run[1..]), appCode, messageId);
      HighestComposes(StatusOf(s, appCode, messageId).value, first, StatusOf(next, appCode, messageId).value, rest,
                      StatusOf(Run(env, s, run), appCode, messageId).value);
      assert Types(Completed(env, s, run), appCode, messageId) == first + rest;
    }
  }

  // ---------- suppression: a maximum too ----------

  /** Absent, hard bounce, complaint; a manual entry is never replaced. */
  function ReasonRank(reason: Option<S.Reason>): nat {
    if reason.None? then 0
    else match reason.value
      case HardBounce => 1
      case Complaint => 2
      case _ => 3
  }

  ghost function ReasonOf(s: State, key: string): Option<S.Reason> {
    if key in s.suppression.entries then Some(s.suppression.entries[key].reason) else None
  }

  /** The event suppresses the recipient stored under key. */
  ghost predicate Suppresses(env: Env, event: ProviderEvent, key: string) {
    && ReasonFor(event.identity.eventType).Some?
    && var e := S.Normalized(env.normalize, SuppressionEntry(event, ReasonFor(event.identity.eventType).value));
       e.Some? && S.Key(e.value.appCode, e.value.normalizedEmail) == key
  }

  ghost function ReasonFrom(env: Env, event: ProviderEvent, key: string): set<S.Reason> {
    if Suppresses(env, event, key) then {ReasonFor(event.identity.eventType).value} else {}
  }

  ghost function Reasons(env: Env, events: set<ProviderEvent>, key: string): set<S.Reason> {
    set e, r | e in events && r in ReasonFrom(env, e, key) :: r
  }

  predicate IsGravest(initial: Option<S.Reason>, reasons: set<S.Reason>, final: Option<S.Reason>) {
    && ReasonRank(initial) <= ReasonRank(final)
    && (forall r :: r in reasons ==> ReasonRank(Some(r)) <= ReasonRank(final))
    && (final == initial || (final.Some? && final.value in reasons))
  }

  lemma GravestIsUnique(initial: Option<S.Reason>, reasons: set<S.Reason>, a: Option<S.Reason>, b: Option<S.Reason>)
    requires IsGravest(initial, reasons, a) && IsGravest(initial, reasons, b)
    requires forall r :: r in reasons ==> r == S.HardBounce || r == S.Complaint
    ensures a == b
  {
  }

  lemma GravestComposes(a: Option<S.Reason>, first: set<S.Reason>, b: Option<S.Reason>, rest: set<S.Reason>,
                        c: Option<S.Reason>)
    requires IsGravest(a, first, b) && IsGravest(b, rest, c)
    ensures IsGravest(a, first + rest, c)
  {
  }

  lemma StaysGravest(reason: Option<S.Reason>)
    ensures IsGravest(reason, {}, reason)
  {
  }

  lemma EventReasons(env: Env, events: set<ProviderEvent>, key: string)
    ensures forall r :: r in Reasons(env, events, key) ==> r == S.HardBounce || r == S.Complaint
  {
  }

  lemma SuppressIsAJoin(env: Env, s: State, event: ProviderEvent, t: Faults, key: string)
    ensures var (after, ok) := Suppress(env, s, event, t);
            IsGravest(ReasonOf(s, key), if ok then ReasonFrom(env, event, key) else {}, ReasonOf(after, key))
  {
    hide S.Normalized, S.Key, S.Persisted, S.HasPath;
    var reason := ReasonFor(event.identity.eventType);
    if reason.Some? {
      NormalizedKeepsReason(env, SuppressionEntry(event, reason.value));
    }
  }

  lemma NormalizedKeepsReason(env: Env, entry: S.Entry)
    ensures S.Normalized(env.normalize, entry).Some? ==> S.Normalized(env.normalize, entry).value.reason == entry.reason
  {
    hide IsIdentifier;
  }

  lemma DeliveryIsASuppressionJoin(env: Env, s: State, d: Delivery, key: string)
    ensures var o := OutcomeOf(env, s, d);
            IsGravest(ReasonOf(s, key), if o.Done? || o.StatusNotLogged? then ReasonFrom(env, d.event, key) else {},
                      ReasonOf(After(env, s, d), key))
  {
    hide Suppress, NextStatus, Written, MatchesSentAttempt, RecipientMatches, ReasonFrom;
    var recorded := Record(s, d.event.identity, d.faults).0;
    assert recorded.suppression == s.suppression;
    SuppressIsAJoin(env, recorded, d.event, d.faults, key);
  }

  /** Over any run the reason under a key is the gravest of the old one and those of the events that were applied. */
  lemma {:induction false} ReasonIsTheGravest(env: Env, s: State, run: seq<Delivery>, key: string)
    ensures IsGravest(ReasonOf(s, key), Reasons(env, Suppressed(env, s, run), key), ReasonOf(Run(env, s, run), key))
    decreases |run|
  {
    hide After, OutcomeOf, ReasonOf, IsGravest, ReasonFrom;
    if run == [] {
      assert Reasons(env, Suppressed(env, s, run), key) == {};
      StaysGravest(ReasonOf(s, key));
    } else {
      var d, next := run[0], After(env, s, run[0]);
      ReasonIsTheGravest(env, next, run[1..], key);
      DeliveryIsASuppressionJoin(env, s, d, key);
      var o := OutcomeOf(env, s, d);
      var first := if o.Done? || o.StatusNotLogged? then ReasonFrom(env, d.event, key) else {};
      var rest := Reasons(env, Suppressed(env, next, run[1..]), key);
      GravestComposes(ReasonOf(s, key), first, ReasonOf(next, key), rest, ReasonOf(Run(env, s, run), key));
      assert Reasons(env, Suppressed(env, s, run), key) == first + rest;
    }
  }

  // ---------- both maxima, told by event type ----------

  /** The status over any run, in the event types completed for the message. */
  lemma StatusByType(env: Env, s: State, run: seq<Delivery>, appCode: string, messageId: string)
    requires StatusOf(Run(env, s, run), appCode, messageId).Some?
    ensures StatusOf(s, appCode, messageId).Some?
    ensures var first := StatusOf(s, appCode, messageId).value;
            var types := Types(Completed(env, s, run), appCode, messageId);
            StatusOf(Run(env, s, run), appCode, messageId).value ==
            if first == StatusFailed then StatusFailed
            else if first == StatusComplained || Complained in types then StatusComplained
            else if first == StatusBounced || Bounced in types then StatusBounced
            else if first == StatusDelivered || Delivered in types then StatusDelivered
            else first
  {
    StatusIsTheHighest(env, s, run, appCode, messageId);
    hide Run, Completed, StatusOf, Types;
    var types := Types(Completed(env, s, run), appCode, messageId);
    assert forall t :: t in types ==> t == Delivered || t == Bounced || t == Complained;
  }

  /** The types of the events that got past the suppression store for the recipient under this key. */
  ghost function ListingTypes(env: Env, events: set<ProviderEvent>, key: string): set<EventType> {
    set e | e in events && RecipientKey(env, e) == Some(key) :: e.identity.eventType
  }

  /** The reason a recipient is listed for after events of these types. */
  function Listed(first: Option<S.Reason>, types: set<EventType>): Option<S.Reason> {
    if first != None && first != Some(S.HardBounce) then first
    else if Complained in types then Some(S.Complaint)
    else if Bounced in types then Some(S.HardBounce)
    else first
  }

  lemma DeliveryLists(env: Env, s: State, d: Delivery, key: string)
    ensures var o := OutcomeOf(env, s, d);
            var past := if o.Done? || o.StatusNotLogged? then {d.event} else {};
            ReasonOf(After(env, s, d), key) == Listed(ReasonOf(s, key), ListingTypes(env, past, key))
  {
    DeliverHasEffect(env, s, d.event, d.faults);
    hide Deliver, Passes, Settled, RecipientKey;
    var o := OutcomeOf(env, s, d);
    var past := if o.Done? || o.StatusNotLogged? then {d.event} else {};
    assert ListingTypes(env, past, key) ==
           if past != {} && RecipientKey(env, d.event) == Some(key) then {d.event.identity.eventType} else {};
  }

  /** The reason over any run, in the types of the events applied to the recipient; delivered events list nobody. */
  lemma {:induction false} ReasonByType(env: Env, s: State, run: seq<Delivery>, key: string)
    ensures ReasonOf(Run(env, s, run), key) ==
            Listed(ReasonOf(s, key), ListingTypes(env, Suppressed(env, s, run), key))
    decreases |run|
  {
    hide After, OutcomeOf, ReasonOf, RecipientKey;
    if run == [] {
      assert ListingTypes(env, Suppressed(env, s, run), key) == {};
    } else {
      var d, next := run[0], After(env, s, run[0]);
      ReasonByType(env, next, run[1..], key);
      DeliveryLists(env, s, d, key);
      var o := OutcomeOf(env, s, d);
      var past := if o.Done? || o.StatusNotLogged? then {d.event} else {};
      assert ListingTypes(env, Suppressed(env, s, run), key) ==
             ListingTypes(env, past, key) + ListingTypes(env, Suppressed(env, next, run[1..]), key);
    }
  }

  // ---------- convergence ----------

  /** Every event that was applied was also, at least once, carried to the end. */
  ghost predicate Redelivered(env: Env, s: State, run: seq<Delivery>) {
    Suppressed(env, s, run) <= Completed(env, s, run)
  }

  lemma {:induction false} CompletedAreSuppressed(env: Env, s: State, run: seq<Delivery>)
    ensures Completed(env, s, run) <= Suppressed(env, s, run)
    decreases |run|
  {
    hide After, OutcomeOf;
    if run != [] {
      CompletedAreSuppressed(env, After(env, s, run[0]), run[1..]);
    }
  }

  /**
   Two runs that complete the same events, each redelivering what failed half-way, end alike: every
   message logged at the end of both has the same status, and every recipient the same suppression.
   */
  lemma RunsConverge(env: Env, s: State, a: seq<Delivery>, b: seq<Delivery>, appCode: string, messageId: string,
                     key: string)
    requires Redelivered(env, s, a) && Redelivered(env, s, b)
    requires Completed(env, s, a) == Completed(env, s, b)
    ensures StatusOf(Run(env, s, a), appCode, messageId).Some? && StatusOf(Run(env, s, b), appCode, messageId).Some? ==>
              StatusOf(Run(env, s, a), appCode, messageId) == StatusOf(Run(env, s, b), appCode, messageId)
    ensures ReasonOf(Run(env, s, a), key) == ReasonOf(Run(env, s, b), key)
  {
    hide Run, Completed, Suppressed, StatusOf, ReasonOf, IsHighest, IsGravest, Suppresses;
    if StatusOf(Run(env, s, a), appCode, messageId).Some? && StatusOf(Run(env, s, b), appCode, messageId).Some? {
      StatusIsTheHighest(env, s, a, appCode, messageId);
      StatusIsTheHighest(env, s, b, appCode, messageId);
      HighestIsUnique(StatusOf(s, appCode, messageId).value, Types(Completed(env, s, a), appCode, messageId),
                      StatusOf(Run(env, s, a), appCode, messageId).value,
                          StatusOf(Run(env, s, b), appCode, messageId).value);
    }
    CompletedAreSuppressed(env, s, a);
    CompletedAreSuppressed(env, s, b);
    assert Suppressed(env, s, a) == Suppressed(env, s, b);
    ReasonIsTheGravest(env, s, a, key);
    ReasonIsTheGravest(env, s, b, key);
    EventReasons(env, Suppressed(env, s, a), key);
    GravestIsUnique(ReasonOf(s, key), Reasons(env, Suppressed(env, s, a), key), ReasonOf(Run(env, s, a), key),
                    ReasonOf(Run(env, s, b), key));
  }

  // ---------- the failure-free pass ----------

  predicate NoFault(t: Faults) {
    t.findOk && t.listOk && t.readOk && t.suppressOk && t.event == LogWrite(true, 0) && t.status == LogWrite(true, 0)
  }

  /** The event is about a logged message, fits a sent attempt of it, and names its recipient. */
  ghost predicate Acceptable(env: Env, s: State, event: ProviderEvent) {
    && LatestOf(s, event.identity).Some?
    && MatchesSentAttempt(AttemptsOf(s.attempts, event.identity.appCode, event.identity.messageId), event.identity)
    && RecipientMatches(env, LatestOf(s, event.identity).value, event)
    && IsIdentifier(event.identity.appCode) && S.Trimmed(event.recipientEmail)
  }

  lemma AcceptableEntry(env: Env, event: ProviderEvent, reason: S.Reason)
    requires IsIdentifier(event.identity.appCode) && S.Trimmed(event.recipientEmail)
    requires ReasonFor(event.identity.eventType) == Some(reason)
    requires env.normalize(event.recipientEmail).Some?
    ensures S.Normalized(env.normalize, SuppressionEntry(event, reason)).Some?
  {
    hide IsIdentifier;
    S.IdentifierIsTrimmed(event.identity.appCode);
  }

  lemma CleanDeliveryCompletes(env: Env, s: State, d: Delivery)
    requires Acceptable(env, s, d.event) && NoFault(d.faults)
    ensures OutcomeOf(env, s, d).Done?
  {
    hide NextStatus, Written, MatchesSentAttempt, IsIdentifier, S.Trimmed, S.Normalized, S.Persisted, S.Key, S.HasPath;
    var reason := ReasonFor(d.event.identity.eventType);
    if reason.Some? {
      AcceptableEntry(env, d.event, reason.value);
    }
  }

  /** A failure-free delivery takes away no other event's acceptability. */
  lemma CleanDeliveryKeepsAcceptable(env: Env, s: State, d: Delivery, other: ProviderEvent)
    requires Acceptable(env, s, d.event) && Acceptable(env, s, other) && NoFault(d.faults)
    ensures Acceptable(env, After(env, s, d), other)
  {
    hide NextStatus, Suppress, MatchesSentAttempt, IsIdentifier, S.Trimmed, Latest, AttemptsOf, IsSuffix;
    var e, t := d.event.identity, d.faults;
    var (recorded, recordOk) := Record(s, e, t);
    RecordAndSuppressKeepMessages(env, s, recorded, d.event, t);
    SuppressKeepsAttempts(env, recorded, d.event, t);
    var snapshot := LatestOf(s, e).value;
    var next := NextStatus(snapshot.status, e.eventType);
    if next.Some? {
      LatestMatches(s.messages, e.appCode, e.messageId);
      LatestOfAppended(s.messages, StatusRecord(snapshot, next.value, t.now), other.identity.appCode,
                       other.identity.messageId);
    }
  }

  lemma SuppressKeepsAttempts(env: Env, s: State, event: ProviderEvent, t: Faults)
    ensures Suppress(env, s, event, t).0.attempts == s.attempts
  {
  }

  lemma LatestOfAppended(log: seq<MessageRecord>, r: MessageRecord, appCode: string, messageId: string)
    ensures Latest(Written(log, r, LogWrite(true, 0)), appCode, messageId)
            == if Is(r, appCode, messageId) then Some(r) else Latest(log, appCode, messageId)
  {
    assert Written(log, r, LogWrite(true, 0)) == log + [r];
    assert (log + [r])[..|log|] == log;
  }

  ghost predicate IsCleanPass(env: Env, s: State, pass: seq<Delivery>) {
    forall d :: d in pass ==> NoFault(d.faults) && Acceptable(env, s, d.event)
  }

  ghost function EventsOf(run: seq<Delivery>): set<ProviderEvent> {
    set d | d in run :: d.event
  }

  lemma {:induction false} CleanPassCompletes(env: Env, s: State, pass: seq<Delivery>)
    requires IsCleanPass(env, s, pass)
    ensures Completed(env, s, pass) == EventsOf(pass) == Suppressed(env, s, pass)
    decreases |pass|
  {
    hide After, OutcomeOf, Acceptable;
    if pass != [] {
      var d, next := pass[0], After(env, s, pass[0]);
      assert d in pass;
      CleanDeliveryCompletes(env, s, d);
      forall x | x in pass[1..]
        ensures NoFault(x.faults) && Acceptable(env, next, x.event)
      {
        assert x in pass;
        CleanDeliveryKeepsAcceptable(env, s, d, x.event);
      }
      CleanPassCompletes(env, next, pass[1..]);
      assert pass == [d] + pass[1..];
      assert EventsOf(pass) == {d.event} + EventsOf(pass[1..]);
    }
  }

  // ---------- every run has such a pass ----------

  /** What decoding an event guarantees: a valid application code and a trimmed address. */
  predicate Decoded(event: ProviderEvent) {
    IsIdentifier(event.identity.appCode) && S.Trimmed(event.recipientEmail)
  }

  /**
   Going back over one delivery: a message still logged was logged before, for the same recipient, and the
   attempts are the same.
   */
  lemma DeliveryAddsNoMessage(env: Env, s: State, d: Delivery, e: EventIdentity)
    ensures After(env, s, d).attempts == s.attempts
    ensures LatestOf(After(env, s, d), e).Some? ==>
              && LatestOf(s, e).Some?
              && LatestOf(After(env, s, d), e).value.toHash == LatestOf(s, e).value.toHash
              && LatestOf(After(env, s, d), e).value.appCode == LatestOf(s, e).value.appCode
  {
    hide Latest, NextStatus, Suppress, Written, MatchesSentAttempt, RecipientMatches, AttemptsOf;
    var own, t := d.event.identity, d.faults;
    var (recorded, recordOk) := Record(s, own, t);
    RecordAndSuppressKeepMessages(env, s, recorded, d.event, t);
    SuppressKeepsAttempts(env, recorded, d.event, t);
    if LatestOf(s, own).Some? {
      var snapshot := LatestOf(s, own).value;
      LatestMatches(s.messages, own.appCode, own.messageId);
      var next := NextStatus(snapshot.status, own.eventType);
      if next.Some? {
        LatestOfWritten(s.messages, StatusRecord(snapshot, next.value, t.now), t.status, e.appCode, e.messageId);
      }
    }
  }

  /** An event acceptable after a delivery was acceptable before it. */
  lemma WasAcceptable(env: Env, s: State, d: Delivery, event: ProviderEvent)
    requires Acceptable(env, After(env, s, d), event)
    ensures Acceptable(env, s, event)
  {
    hide After, LatestOf, MatchesSentAttempt, IsIdentifier, S.Trimmed, AttemptsOf;
    DeliveryAddsNoMessage(env, s, d, event.identity);
  }

  lemma DoneWasAcceptable(env: Env, s: State, d: Delivery)
    requires OutcomeOf(env, s, d).Done? && Decoded(d.event)
    ensures Acceptable(env, s, d.event)
  {
    hide MatchesSentAttempt, RecipientMatches, IsIdentifier, S.Trimmed, NextStatus, Written, S.AddEffect;
  }

  /** Every event a run completed was acceptable when the run began. */
  lemma {:induction false} CompletedWereAcceptable(env: Env, s: State, run: seq<Delivery>, event: ProviderEvent)
    requires forall d :: d in run ==> Decoded(d.event)
    requires event in Completed(env, s, run)
    ensures Acceptable(env, s, event)
    decreases |run|
  {
    hide After, OutcomeOf, Acceptable, Decoded;
    var d := run[0];
    assert d in run && forall x :: x in run[1..] ==> x in run;
    if event == d.event && OutcomeOf(env, s, d).Done? {
      DoneWasAcceptable(env, s, d);
    } else {
      CompletedWereAcceptable(env, After(env, s, d), run[1..], event);
      WasAcceptable(env, s, d, event);
    }
  }

  /** A failure-free delivery of an event. */
  function Clean(event: ProviderEvent, now: int): Delivery {
    Delivery(event, Faults(true, true, true, LogWrite(true, 0), true, LogWrite(true, 0), now))
  }

  /** Any set of acceptable events has a failure-free pass. */
  lemma {:induction false} PassExists(env: Env, s: State, events: set<ProviderEvent>, now: int)
    returns (pass: seq<Delivery>)
    requires forall e :: e in events ==> Acceptable(env, s, e)
    ensures IsCleanPass(env, s, pass) && EventsOf(pass) == events && |pass| == |events|
  {
    hide Acceptable;
    pass := [];
    if events != {} {
      var e :| e in events;
      var rest := PassExists(env, s, events - {e}, now);
      pass := [Clean(e, now)] + rest;
      assert EventsOf(pass) == {e} + EventsOf(rest);
    }
  }

  /** A failure-free pass keeps every logged message logged. */
  lemma {:induction false} CleanPassKeepsLogged(env: Env, s: State, pass: seq<Delivery>, appCode: string,
                                                messageId: string)
    requires IsCleanPass(env, s, pass) && StatusOf(s, appCode, messageId).Some?
    ensures StatusOf(Run(env, s, pass), appCode, messageId).Some?
    decreases |pass|
  {
    hide After, Acceptable, StatusOf;
    if pass != [] {
      var d := pass[0];
      assert d in pass;
      CleanDeliveryKeepsLogged(env, s, d, appCode, messageId);
      forall x | x in pass[1..]
        ensures NoFault(x.faults) && Acceptable(env, After(env, s, d), x.event)
      {
        assert x in pass;
        CleanDeliveryKeepsAcceptable(env, s, d, x.event);
      }
      CleanPassKeepsLogged(env, After(env, s, d), pass[1..], appCode, messageId);
    }
  }

  lemma CleanDeliveryKeepsLogged(env: Env, s: State, d: Delivery, appCode: string, messageId: string)
    requires NoFault(d.faults) && StatusOf(s, appCode, messageId).Some?
    ensures StatusOf(After(env, s, d), appCode, messageId).Some?
  {
    hide Latest, NextStatus, Suppress, Written, MatchesSentAttempt, RecipientMatches;
    var own, t := d.event.identity, d.faults;
    var (recorded, recordOk) := Record(s, own, t);
    RecordAndSuppressKeepMessages(env, s, recorded, d.event, t);
    if LatestOf(s, own).Some? {
      var snapshot := LatestOf(s, own).value;
      var next := NextStatus(snapshot.status, own.eventType);
      if next.Some? {
        LatestOfAppended(s.messages, StatusRecord(snapshot, next.value, t.now), appCode, messageId);
      }
    }
  }

  /**
   The main result. Take any run of decoded events, with duplicates, in any order, failing half-way and
   redelivered. Then there is one failure-free pass that delivers each completed event once, and it ends
   like the run: with the same status for every message the run left in the log, and the same
   suppression for every recipient.
   */
  lemma RunEndsAsCleanPass(env: Env, s: State, run: seq<Delivery>, now: int) returns (pass: seq<Delivery>)
    requires Redelivered(env, s, run) && forall d :: d in run ==> Decoded(d.event)
    ensures IsCleanPass(env, s, pass)
    ensures EventsOf(pass) == Completed(env, s, run) && |pass| == |Completed(env, s, run)|
    ensures forall appCode, messageId :: StatusOf(Run(env, s, run), appCode, messageId).Some? ==>
              StatusOf(Run(env, s, pass), appCode, messageId) == StatusOf(Run(env, s, run), appCode, messageId)
    ensures forall key :: ReasonOf(Run(env, s, pass), key) == ReasonOf(Run(env, s, run), key)
  {
    hide Run, Completed, Suppressed, StatusOf, ReasonOf, EventsOf, IsCleanPass, Acceptable, Decoded, IsHighest;
    forall e | e in Completed(env, s, run)
      ensures Acceptable(env, s, e)
    {
      CompletedWereAcceptable(env, s, run, e);
    }
    pass := PassExists(env, s, Completed(env, s, run), now);
    CleanPassCompletes(env, s, pass);
    forall appCode, messageId | StatusOf(Run(env, s, run), appCode, messageId).Some?
      ensures StatusOf(Run(env, s, pass), appCode, messageId) == StatusOf(Run(env, s, run), appCode, messageId)
    {
      StatusIsTheHighest(env, s, run, appCode, messageId);
      CleanPassKeepsLogged(env, s, pass, appCode, messageId);
      RunsConverge(env, s, run, pass, appCode, messageId, "");
    }
    forall key
      ensures ReasonOf(Run(env, s, pass), key) == ReasonOf(Run(env, s, run), key)
    {
      RunsConverge(env, s, run, pass, "", "", key);
    }
  }

  // ---------- each event once ----------

  /** The retained events are the latest of those counted, and no two of them are the same event. */
  ghost predicate OnceInv(s: State) {
    IsSuffix(s.events, s.counted) && forall i, j :: 0 <= i < j < |s.events| ==> s.events[i] != s.events[j]
  }

  lemma WrittenKeepsOnce(events: seq<EventIdentity>, counted: seq<EventIdentity>, e: EventIdentity, w: LogWrite)
    requires IsSuffix(events, counted) && forall i, j :: 0 <= i < j < |events| ==> events[i] != events[j]
    requires e !in events
    ensures var after := Written(events, e, w);
            && IsSuffix(after, if w.ok then counted + [e] else counted)
            && forall i, j :: 0 <= i < j < |after| ==> after[i] != after[j]
  {
    var kept := if w.dropped <= |events| then events[w.dropped..] else [];
    assert IsSuffix(kept, events);
    SuffixOfSuffix(kept, events, counted);
    SuffixGrows(kept, counted, e);
  }

  lemma DeliveryKeepsOnce(env: Env, s: State, d: Delivery)
    requires OnceInv(s)
    ensures OnceInv(After(env, s, d))
  {
    hide Written, IsSuffix, Refusal, S.AddEffect, NextStatus;
    var e := d.event.identity;
    if e !in s.events {
      WrittenKeepsOnce(s.events, s.counted, e, d.faults.event);
    }
  }

  lemma {:induction false} RunKeepsOnce(env: Env, s: State, run: seq<Delivery>)
    requires OnceInv(s)
    ensures OnceInv(Run(env, s, run))
    decreases |run|
  {
    hide OnceInv, After;
    if run != [] {
      DeliveryKeepsOnce(env, s, run[0]);
      RunKeepsOnce(env, After(env, s, run[0]), run[1..]);
    }
  }

  /** An event counted twice had its first record rotated out: it is not among the retained ones. */
  lemma CountedAgainOnlyAfterRotation(env: Env, s: State, run: seq<Delivery>, i: nat, j: nat)
    requires OnceInv(s)
    requires var end := Run(env, s, run); i < j < |end.counted| && end.counted[i] == end.counted[j]
    ensures var end := Run(env, s, run); i < |end.counted| - |end.events|
  {
    hide Run;
    RunKeepsOnce(env, s, run);
    var end := Run(env, s, run);
    var start := |end.counted| - |end.events|;
    assert forall k :: start <= k < |end.counted| ==>
           end.counted[k] == end.counted[start..][k - start] == end.events[k - start];
  }

  /** A completed event has been counted. */
  lemma CompletionCounts(env: Env, s: State, d: Delivery)
    requires OnceInv(s) && OutcomeOf(env, s, d).Done?
    ensures d.event.identity in After(env, s, d).counted
  {
    hide MatchesSentAttempt, RecipientMatches, S.AddEffect, NextStatus, Written;
    var e := d.event.identity;
    if e in s.events {
      var i :| 0 <= i < |s.events| && s.events[i] == e;
      assert s.counted[|s.counted| - |s.events|..][i] == e;
      assert s.counted[|s.counted| - |s.events| + i] == e && e in s.counted;
    }
  }
}
