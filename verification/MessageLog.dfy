/**
 The audit log: message, attempt and provider event records in three rotating files, and
 the queries over what the files still hold.
 */
module MessageLog {
  import opened Wrappers
  import opened Domain
  import opened TextOrder
  import opened Jsonl

  datatype MessageRecord = MessageRecord(
    timestamp: int,
    messageId: string,
    appCode: string,
    sceneCode: string,
    toHash: string,
    status: MessageStatus,
    errorCode: ErrorCode)

  datatype AttemptRecord = AttemptRecord(
    messageId: string,
    appCode: string,
    attemptNo: int,
    provider: Provider,
    accountCode: string,
    channelCode: string,
    status: AttemptStatus,
    providerMessageId: string)

  datatype EventType = Delivered | Bounced | Complained

  /** The eight fields that make two provider events the same event. */
  datatype EventIdentity = EventIdentity(
    messageId: string,
    appCode: string,
    provider: Provider,
    accountCode: string,
    channelCode: string,
    providerMessageId: string,
    eventType: EventType,
    occurredAt: string)

  /** A query fails when one of the files it reads cannot be opened. */
  datatype Result<+T> = Ok(value: T) | IoError

  function Records<T>(lines: seq<Line<T>>): (r: seq<T>)
    ensures |r| == |lines|
  {
    seq(|lines|, i requires 0 <= i < |lines| => lines[i].record)
  }

  predicate Is(r: MessageRecord, appCode: string, messageId: string) {
    r.appCode == appCode && r.messageId == messageId
  }

  /** The last record of a message. */
  function Latest(records: seq<MessageRecord>, appCode: string, messageId: string): Option<MessageRecord> {
    if records == [] then None
    else if Is(records[|records| - 1], appCode, messageId) then Some(records[|records| - 1])
    else Latest(records[..|records| - 1], appCode, messageId)
  }

  /** Latest is what its name says: the matching record after which none matches. */
  lemma {:induction false} LatestIsLast(records: seq<MessageRecord>, appCode: string, messageId: string)
    ensures Latest(records, appCode, messageId).None? <==>
            forall i :: 0 <= i < |records| ==> !Is(records[i], appCode, messageId)
    ensures Latest(records, appCode, messageId).Some? ==>
              exists i :: 0 <= i < |records| && records[i] == Latest(records, appCode, messageId).value
                  && Is(records[i], appCode, messageId)
                          && forall j :: i < j < |records| ==> !Is(records[j], appCode, messageId)
  {
    if records != [] {
      var n := |records| - 1;
      if !Is(records[n], appCode, messageId) {
        LatestIsLast(records[..n], appCode, messageId);
        assert forall i :: 0 <= i < n ==> records[..n][i] == records[i];
        if Latest(records[..n], appCode, messageId).Some? {
          var i :| 0 <= i < n && records[..n][i] == Latest(records[..n], appCode, messageId).value
              && Is(records[..n][i], appCode, messageId)
                   && forall j :: i < j < n ==> !Is(records[..n][j], appCode, messageId);
          assert records[i] == Latest(records, appCode, messageId).value;
        }
      }
    }
  }

  lemma {:induction false} LatestOfConcat(a: seq<MessageRecord>, b: seq<MessageRecord>, appCode: string,
                                          messageId: string)
    ensures Latest(a + b, appCode, messageId)
            == if Latest(b, appCode, messageId).Some? then Latest(b, appCode, messageId)
                else Latest(a, appCode, messageId)
  {
    if b == [] {
      assert a + b == a;
    } else {
      var n := |b| - 1;
      assert (a + b)[..|a + b| - 1] == a + b[..n];
      LatestOfConcat(a, b[..n], appCode, messageId);
    }
  }

  /** Losing old records never changes a latest record that is still there. */
  lemma LatestOfSuffix(s: seq<MessageRecord>, whole: seq<MessageRecord>, appCode: string, messageId: string)
    requires IsSuffix(s, whole)
    ensures Latest(s, appCode, messageId).Some? ==> Latest(s, appCode, messageId) == Latest(whole, appCode, messageId)
    ensures Latest(whole, appCode, messageId).None? ==> Latest(s, appCode, messageId).None?
  {
    var front := whole[..|whole| - |s|];
    assert whole == front + s;
    LatestOfConcat(front, s, appCode, messageId);
  }

  // ---------- the order of message lists ----------

  datatype Filter = Filter(limit: int, status: Option<MessageStatus>, sceneCode: string)

  predicate Matches(filter: Filter, r: MessageRecord) {
    && (filter.status.None? || r.status == filter.status.value)
    && (filter.sceneCode == "" || r.sceneCode == filter.sceneCode)
  }

  /** Newer first; records of one instant by descending message id. */
  predicate Before(a: MessageRecord, b: MessageRecord) {
    a.timestamp > b.timestamp || (a.timestamp == b.timestamp && Less(b.messageId, a.messageId))
  }

  ghost predicate InOrder(s: seq<MessageRecord>) {
    forall i, j :: 0 <= i < j < |s| ==> Before(s[i], s[j])
  }

  /** The latest records of an application's messages that pass the filter. */
  ghost function Selected(records: seq<MessageRecord>, appCode: string, filter: Filter): set<MessageRecord> {
    set r | r in records && Latest(records, appCode, r.messageId) == Some(r) && Matches(filter, r)
  }

  ghost predicate Holds(s: seq<MessageRecord>, all: set<MessageRecord>) {
    forall r :: r in s <==> r in all
  }

  /** s is the ordered listing of a set, cut at a positive limit. */
  ghost predicate IsListing(s: seq<MessageRecord>, all: set<MessageRecord>, limit: int) {
    exists full :: InOrder(full) && Holds(full, all) && s == Cut(full, limit)
  }

  function Cut<T>(s: seq<T>, limit: int): seq<T> {
    if 0 < limit < |s| then s[..limit] else s
  }

  lemma BeforeIsStrict(a: MessageRecord, b: MessageRecord)
    requires Before(a, b)
    ensures a != b && !Before(b, a)
  {
    if a.timestamp == b.timestamp {
      LessIsAsymmetric(b.messageId, a.messageId);
    }
  }

  lemma BeforeIsTransitive(a: MessageRecord, b: MessageRecord, c: MessageRecord)
    requires Before(a, b) && Before(b, c)
    ensures Before(a, c)
  {
    if a.timestamp == b.timestamp == c.timestamp {
      LessIsTransitive(c.messageId, b.messageId, a.messageId);
    }
  }

  lemma BeforeIsTotal(a: MessageRecord, b: MessageRecord)
    requires a.messageId != b.messageId
    ensures Before(a, b) || Before(b, a)
  {
    LessIsTotal(a.messageId, b.messageId);
  }

  lemma {:induction false} OrderedHoldingIsUnique(a: seq<MessageRecord>, b: seq<MessageRecord>, all: set<MessageRecord>)
    requires InOrder(a) && InOrder(b) && Holds(a, all) && Holds(b, all)
    ensures a == b
    decreases |a|
  {
    hide Before;
    assert a != [] ==> a[0] in all;
    assert b != [] ==> b[0] in all;
    if a != [] && b != [] {
      SameFirst(a, b, all);
      RestHolds(a, all);
      RestHolds(b, all);
      OrderedHoldingIsUnique(a[1..], b[1..], all - {a[0]});
      assert a == [a[0]] + a[1..] && b == [b[0]] + b[1..];
    }
  }

  lemma SameFirst(a: seq<MessageRecord>, b: seq<MessageRecord>, all: set<MessageRecord>)
    requires InOrder(a) && InOrder(b) && Holds(a, all) && Holds(b, all) && a != [] && b != []
    ensures a[0] == b[0]
  {
    hide Before;
    assert a[0] in b && b[0] in a;
    var i :| 0 <= i < |b| && b[i] == a[0];
    var j :| 0 <= j < |a| && a[j] == b[0];
    if i > 0 && j > 0 {
      BeforeIsStrict(a[0], a[j]);
    }
  }

  lemma RestHolds(a: seq<MessageRecord>, all: set<MessageRecord>)
    requires InOrder(a) && Holds(a, all) && a != []
    ensures InOrder(a[1..]) && Holds(a[1..], all - {a[0]})
  {
    hide Before;
    assert a == [a[0]] + a[1..];
    assert forall k :: k in a <==> k == a[0] || k in a[1..];
    forall i | 0 < i < |a|
      ensures a[i] != a[0]
    {
      BeforeIsStrict(a[0], a[i]);
    }
  }

  /** A listing depends on nothing but the records: neither on map order nor on the sorting method. */
  lemma ListingIsUnique(s: seq<MessageRecord>, t: seq<MessageRecord>, all: set<MessageRecord>, limit: int)
    requires IsListing(s, all, limit) && IsListing(t, all, limit)
    ensures s == t
  {
    hide InOrder, Holds;
    var a :| InOrder(a) && Holds(a, all) && s == Cut(a, limit);
    var b :| InOrder(b) && Holds(b, all) && t == Cut(b, limit);
    OrderedHoldingIsUnique(a, b, all);
  }

  /** The filter's status and scene, where it names them. */
  predicate Wanted(filter: Filter, r: MessageRecord) {
    match filter.status
    case None => filter.sceneCode in ["", r.sceneCode]
    case Some(status) => r.status == status && filter.sceneCode in ["", r.sceneCode]
  }

  /** No later record of the log is about the same message. */
  ghost predicate IsCurrent(records: seq<MessageRecord>, i: nat)
    requires i < |records|
  {
    forall j :: i < j < |records| ==>
                  records[j].appCode != records[i].appCode || records[j].messageId != records[i].messageId
  }

  /**
   A listing in plain terms: newest first, and within one instant by descending id; the application's
   current records that the filter wants, and of those the first ones when the limit cuts.
   */
  ghost predicate ListsCurrent(s: seq<MessageRecord>, records: seq<MessageRecord>, appCode: string, filter: Filter) {
    && (forall i, j :: 0 <= i < j < |s| ==>
          || s[i].timestamp > s[j].timestamp
          || (s[i].timestamp == s[j].timestamp && Less(s[j].messageId, s[i].messageId)))
    && (forall r :: r in s ==>
          && r.appCode == appCode && Wanted(filter, r)
          && exists i :: 0 <= i < |records| && records[i] == r && IsCurrent(records, i))
    && (filter.limit > 0 ==> |s| <= filter.limit)
    && (forall i :: 0 <= i < |records| && records[i].appCode == appCode && IsCurrent(records, i)
                    && Wanted(filter, records[i]) && records[i] !in s ==>
          && 0 < filter.limit == |s|
          && forall x :: x in s ==>
               || x.timestamp > records[i].timestamp
               || (x.timestamp == records[i].timestamp && Less(records[i].messageId, x.messageId)))
  }

  lemma CurrentIsLatest(records: seq<MessageRecord>, i: nat, appCode: string)
    requires i < |records| && records[i].appCode == appCode && IsCurrent(records, i)
    ensures Latest(records, appCode, records[i].messageId) == Some(records[i])
  {
    LatestIsLast(records, appCode, records[i].messageId);
    hide Latest;
  }

  lemma LatestIsCurrent(records: seq<MessageRecord>, r: MessageRecord, appCode: string) returns (i: nat)
    requires Latest(records, appCode, r.messageId) == Some(r)
    ensures i < |records| && records[i] == r && r.appCode == appCode && IsCurrent(records, i)
  {
    LatestIsLast(records, appCode, r.messageId);
    hide Latest;
    i :| && 0 <= i < |records| && records[i] == r && Is(r, appCode, r.messageId)
         && forall j :: i < j < |records| ==> !Is(records[j], appCode, r.messageId);
  }

  /** A cut of the ordered set of selected records is a listing in plain terms. */
  lemma ListingLists(s: seq<MessageRecord>, records: seq<MessageRecord>, appCode: string, filter: Filter)
    requires IsListing(s, Selected(records, appCode, filter), filter.limit)
    ensures ListsCurrent(s, records, appCode, filter)
  {
    hide Latest, Less;
    var all := Selected(records, appCode, filter);
    var full :| InOrder(full) && Holds(full, all) && s == Cut(full, filter.limit);
    forall r | r in s
      ensures r.appCode == appCode && Wanted(filter, r)
      ensures exists i :: 0 <= i < |records| && records[i] == r && IsCurrent(records, i)
    {
      assert r in full && r in all;
      var i := LatestIsCurrent(records, r, appCode);
    }
    forall i | 0 <= i < |records| && records[i].appCode == appCode && IsCurrent(records, i)
               && Wanted(filter, records[i]) && records[i] !in s
      ensures 0 < filter.limit == |s| && forall x :: x in s ==> Before(x, records[i])
    {
      CurrentIsLatest(records, i, appCode);
      assert records[i] in all && records[i] in full;
      var k :| 0 <= k < |full| && full[k] == records[i];
      assert k >= |s| by {
        assert forall m :: 0 <= m < |s| ==> full[m] == s[m] && s[m] in s;
      }
    }
  }

  method InsertRecord(s: seq<MessageRecord>, r: MessageRecord) returns (grown: seq<MessageRecord>)
    requires InOrder(s) && forall x :: x in s ==> x.messageId != r.messageId
    ensures InOrder(grown) && forall x :: x in grown <==> x in s || x == r
  {
    hide Before;
    var i := |s|;
    while i > 0 && Before(r, s[i - 1])
      invariant 0 <= i <= |s|
      invariant forall j :: i <= j < |s| ==> Before(r, s[j])
    {
      i := i - 1;
    }
    forall j | 0 <= j < i
      ensures Before(s[j], r)
    {
      assert s[i - 1] in s;
      BeforeIsTotal(s[i - 1], r);
      if j < i - 1 {
        BeforeIsTransitive(s[j], s[i - 1], r);
      }
    }
    grown := s[..i] + [r] + s[i..];
    assert s == s[..i] + s[i..];
  }

  /** The latest record of every message of an application, under the message id. */
  ghost predicate HoldsLatest(latest: map<string, MessageRecord>, records: seq<MessageRecord>, appCode: string) {
    forall id :: (id in latest <==> Latest(records, appCode, id).Some?)
        && (id in latest ==> Some(latest[id]) == Latest(records, appCode, id))
  }

  lemma HoldsLatestGrows(latest: map<string, MessageRecord>, records: seq<MessageRecord>, appCode: string,
                         r: MessageRecord)
    requires HoldsLatest(latest, records, appCode)
    ensures HoldsLatest(if r.appCode == appCode then latest[r.messageId := r] else latest, records + [r], appCode)
  {
    assert (records + [r])[..|records|] == records;
  }

  lemma {:induction false} LatestMatches(records: seq<MessageRecord>, appCode: string, messageId: string)
    requires Latest(records, appCode, messageId).Some?
    ensures var r := Latest(records, appCode, messageId).value; r in records && Is(r, appCode, messageId)
  {
    var n := |records| - 1;
    assert records == records[..n] + [records[n]];
    if !Is(records[n], appCode, messageId) {
      LatestMatches(records[..n], appCode, messageId);
    }
  }

  // ---------- queries ----------

  method CollectLatestInPath(lines: seq<Line<MessageRecord>>, appCode: string, latest: map<string, MessageRecord>,
                             ghost before: seq<MessageRecord>)
    returns (collected: map<string, MessageRecord>)
    requires HoldsLatest(latest, before, appCode)
    ensures HoldsLatest(collected, before + Records(lines), appCode)
  {
    hide HoldsLatest;
    collected := latest;
    var i := 0;
    assert before + Records(lines[..0]) == before;
    while i < |lines|
      invariant 0 <= i <= |lines|
      invariant HoldsLatest(collected, before + Records(lines[..i]), appCode)
    {
      var snapshot := lines[i].record;
      HoldsLatestGrows(collected, before + Records(lines[..i]), appCode, snapshot);
      assert before + Records(lines[..i]) + [snapshot] == before + Records(lines[..i + 1]);
      if snapshot.appCode == appCode {
        collected := collected[snapshot.messageId := snapshot];
      }
      i := i + 1;
    }
    assert lines[..i] == lines;
  }

  method FindLatestInPath(lines: seq<Line<MessageRecord>>, appCode: string, messageId: string)
    returns (latest: Option<MessageRecord>)
    ensures latest == Latest(Records(lines), appCode, messageId)
  {
    latest := None;
    var i := 0;
    while i < |lines|
      invariant 0 <= i <= |lines|
      invariant latest == Latest(Records(lines[..i]), appCode, messageId)
    {
      assert Records(lines[..i + 1])[..i] == Records(lines[..i]);
      if Is(lines[i].record, appCode, messageId) {
        latest := Some(lines[i].record);
      }
      i := i + 1;
    }
    assert lines[..i] == lines;
  }

  method EventExistsInPath(lines: seq<Line<EventIdentity>>, target: EventIdentity) returns (found: bool)
    ensures found <==> target in Records(lines)
  {
    var i := 0;
    while i < |lines|
      invariant 0 <= i <= |lines|
      invariant forall j :: 0 <= j < i ==> lines[j].record != target
    {
      if lines[i].record == target {
        assert Records(lines)[i] == target;
        return true;
      }
      i := i + 1;
    }
    found := false;
  }

  method ListAttemptsInPath(lines: seq<Line<AttemptRecord>>, appCode: string, messageId: string)
    returns (attempts: seq<AttemptRecord>)
    ensures attempts == AttemptsOf(Records(lines), appCode, messageId)
  {
    attempts := [];
    var i := 0;
    while i < |lines|
      invariant 0 <= i <= |lines|
      invariant attempts == AttemptsOf(Records(lines[..i]), appCode, messageId)
    {
      assert Records(lines[..i + 1])[..i] == Records(lines[..i]);
      if lines[i].record.appCode == appCode && lines[i].record.messageId == messageId {
        attempts := attempts + [lines[i].record];
      }
      i := i + 1;
    }
    assert lines[..i] == lines;
  }

  /** The attempts of one message in log order. */
  function AttemptsOf(records: seq<AttemptRecord>, appCode: string, messageId: string): seq<AttemptRecord> {
    if records == [] then [] else
      var before, last := AttemptsOf(records[..|records| - 1], appCode, messageId), records[|records| - 1];
      if last.appCode == appCode && last.messageId == messageId then before + [last] else before
  }

  /** The attempts of a message are its records in the log, all of them and in log order. */
  lemma {:induction false} AttemptsOfAreItsOwn(records: seq<AttemptRecord>, appCode: string, messageId: string)
    returns (places: seq<nat>)
    ensures var own := AttemptsOf(records, appCode, messageId);
            && |places| == |own|
            && (forall k :: 0 <= k < |own| ==> places[k] < |records| && own[k] == records[places[k]])
            && (forall k, l :: 0 <= k < l < |own| ==> places[k] < places[l])
            && (forall i :: 0 <= i < |records| ==>
                  (i in places <==> records[i].appCode == appCode && records[i].messageId == messageId))
  {
    places := [];
    if records != [] {
      var n := |records| - 1;
      places := AttemptsOfAreItsOwn(records[..n], appCode, messageId);
      assert records == records[..n] + [records[n]];
      assert forall i :: i in places ==> i < n;
      if records[n].appCode == appCode && records[n].messageId == messageId {
        places := places + [n];
      }
    }
  }

  lemma {:induction false} AttemptsOfConcat(a: seq<AttemptRecord>, b: seq<AttemptRecord>, appCode: string,
                                            messageId: string)
    ensures AttemptsOf(a + b, appCode, messageId) == AttemptsOf(a, appCode, messageId) + AttemptsOf(b, appCode,
            messageId)
  {
    if b == [] {
      assert a + b == a;
    } else {
      var n := |b| - 1;
      assert (a + b)[..|a + b| - 1] == a + b[..n];
      AttemptsOfConcat(a, b[..n], appCode, messageId);
    }
  }

  lemma RecordsOfConcat<T>(a: seq<Line<T>>, b: seq<Line<T>>)
    ensures Records(a + b) == Records(a) + Records(b)
  {
  }

  /** Reading one more backup, the next newer one, extends what was read by its records. */
  lemma KeptFrom<T>(backups: seq<Option<File<T>>>, i: nat)
    requires i < |backups|
    ensures Records(Kept(backups[i..])) == Records(Kept(backups[i + 1..])) + Records(Lines(backups[i]))
  {
    assert backups[i..][1..] == backups[i + 1..];
    RecordsOfConcat(Kept(backups[i + 1..]), Lines(backups[i]));
  }

  class MessageLog {
    const messages: JsonlWriter<MessageRecord>
    const attempts: JsonlWriter<AttemptRecord>
    const events: JsonlWriter<EventIdentity>
    const eventsEnabled: bool

    ghost predicate Valid()
      reads messages, attempts, events
    {
      messages.Valid() && attempts.Valid() && events.Valid()
    }

    ghost function Messages(): seq<MessageRecord>
      reads messages
    {
      Records(messages.Retained())
    }

    ghost function Attempts(): seq<AttemptRecord>
      reads attempts
    {
      Records(attempts.Retained())
    }

    ghost function Events(): seq<EventIdentity>
      reads events
    {
      Records(events.Retained())
    }

    constructor (messages: JsonlWriter<MessageRecord>, attempts: JsonlWriter<AttemptRecord>,
                 events: JsonlWriter<EventIdentity>, eventsEnabled: bool)
      ensures this.messages == messages && this.attempts == attempts && this.events == events
              && this.eventsEnabled == eventsEnabled
    {
      this.messages, this.attempts, this.events, this.eventsEnabled := messages, attempts, events, eventsEnabled;
    }

    /** readable counts the existing files that can be opened before one cannot. */
    method FindLatestMessage(appCode: string, messageId: string, readable: nat)
      returns (result: Result<Option<MessageRecord>>)
      requires Valid()
      ensures result.Ok? ==> result.value == Latest(Messages(), appCode, messageId)
      ensures messages.maxBackups + 1 <= readable ==> result.Ok?
    {
      assert |messages.backups| == messages.maxBackups;
      hide Records, Latest, JsonlWriter.Valid;
      var latest: Option<MessageRecord> := None;
      var index := messages.maxBackups;
      assert messages.backups[index..] == [];
      NothingIsRead();
      while index >= 1
        invariant 0 <= index <= messages.maxBackups
        invariant latest == Latest(Records(Kept(messages.backups[index..])), appCode, messageId)
      {
        var path := messages.backups[index - 1];
        KeptFrom(messages.backups, index - 1);
        LatestOfConcat(Records(Kept(messages.backups[index..])), Records(Lines(path)), appCode, messageId);
        if messages.maxBackups - index >= readable && path.Some? {
          return IoError;
        }
        var found := FindLatestInPath(Lines(path), appCode, messageId);
        if found.Some? {
          latest := found;
        }
        index := index - 1;
      }
      assert messages.backups[index..] == messages.backups;
      if messages.maxBackups >= readable && messages.current.Some? {
        return IoError;
      }
      var found := FindLatestInPath(Lines(messages.current), appCode, messageId);
      if found.Some? {
        latest := found;
      }
      RecordsOfConcat(Kept(messages.backups), Lines(messages.current));
      LatestOfConcat(Records(Kept(messages.backups)), Records(Lines(messages.current)), appCode, messageId);
      result := Ok(latest);
    }

    method CollectLatest(appCode: string, readable: nat) returns (result: Result<map<string, MessageRecord>>)
      requires Valid()
      ensures result.Ok? ==> HoldsLatest(result.value, Messages(), appCode)
      ensures messages.maxBackups + 1 <= readable ==> result.Ok?
    {
      assert |messages.backups| == messages.maxBackups;
      hide Records, HoldsLatest, JsonlWriter.Valid;
      var latest: map<string, MessageRecord> := map[];
      var index := messages.maxBackups;
      assert messages.backups[index..] == [];
      NothingIsHeld(appCode);
      while index >= 1
        invariant 0 <= index <= messages.maxBackups
        invariant HoldsLatest(latest, Records(Kept(messages.backups[index..])), appCode)
      {
        var path := messages.backups[index - 1];
        KeptFrom(messages.backups, index - 1);
        if messages.maxBackups - index >= readable && path.Some? {
          return IoError;
        }
        latest := CollectLatestInPath(Lines(path), appCode, latest, Records(Kept(messages.backups[index..])));
        index := index - 1;
      }
      assert messages.backups[index..] == messages.backups;
      if messages.maxBackups >= readable && messages.current.Some? {
        return IoError;
      }
      latest := CollectLatestInPath(Lines(messages.current), appCode, latest, Records(Kept(messages.backups)));
      RecordsOfConcat(Kept(messages.backups), Lines(messages.current));
      result := Ok(latest);
    }

    /** The collected map is walked in an arbitrary order; the sort makes the list independent of it. */
    method ListLatestMessages(appCode: string, filter: Filter, readable: nat)
      returns (result: Result<seq<MessageRecord>>)
      requires Valid()
      ensures result.Ok? ==> IsListing(result.value, Selected(Messages(), appCode, filter), filter.limit)
      ensures result.Ok? ==> ListsCurrent(result.value, Messages(), appCode, filter)
      ensures messages.maxBackups + 1 <= readable ==> result.Ok?
    {
      hide Records, Latest, HoldsLatest, InOrder, JsonlWriter.Valid, ListsCurrent;
      var collected := CollectLatest(appCode, readable);
      if collected.IoError? {
        return IoError;
      }
      var latest := collected.value;
      var listed: seq<MessageRecord> := [];
      EmptyIsInOrder();
      KeysAreIds(latest, Messages(), appCode);
      var keys := latest.Keys;
      while keys != {}
        invariant keys <= latest.Keys && InOrder(listed)
        invariant forall r :: r in listed <==>
                  r.messageId in latest.Keys - keys && latest[r.messageId] == r && Matches(filter, r)
        decreases |keys|
      {
        var key :| key in keys;
        keys := keys - {key};
        if Matches(filter, latest[key]) {
          listed := InsertRecord(listed, latest[key]);
        }
      }
      SelectedIsCollected(latest, Messages(), appCode, filter);
      assert Holds(listed, Selected(Messages(), appCode, filter));
      result := Ok(if filter.limit > 0 && |listed| > filter.limit then listed[..filter.limit] else listed);
      assert result.value == Cut(listed, filter.limit);
      ListingLists(result.value, Messages(), appCode, filter);
    }

    method AppendMessage(record: MessageRecord, length: nat, steps: nat) returns (ok: bool)
      requires Valid()
      modifies messages
      ensures Valid()
      ensures ok ==> Messages() == Records(old(messages.KeptByAppend(length))) + [record]
      ensures ok ==> exists kept :: IsSuffix(kept, old(Messages())) && Messages() == kept + [record]
      ensures !ok ==> IsSuffix(Messages(), old(Messages()))
      ensures !ok && old(messages.Fits(length)) ==> Messages() == old(Messages())
      ensures messages.maxBackups + 4 <= steps && old(messages.isOpen) ==> ok
    {
      hide JsonlWriter.Valid, JsonlWriter.Retained, JsonlWriter.KeptByAppend, Records, IsSuffix;
      ghost var before, kept := messages.Retained(), messages.KeptByAppend(length);
      KeptByAppendIsSuffix(messages, length);
      if messages.Fits(length) {
        FittingKeepsAll(messages, length);
      }
      ok := messages.AppendLine(Line(record, length), steps);
      if ok {
        RecordsOfSuffix(kept, before);
        RecordsOfAppended(kept, record, length);
      } else {
        RecordsOfSuffix(messages.Retained(), before);
      }
    }

    method HasEvent(target: EventIdentity, readable: nat) returns (result: Result<bool>)
      requires Valid()
      ensures result.Ok? ==> (result.value <==> target in Events())
      ensures events.maxBackups + 1 <= readable ==> result.Ok?
    {
      assert |events.backups| == events.maxBackups;
      hide Records, JsonlWriter.Valid;
      RecordsOfConcat(Kept(events.backups), Lines(events.current));
      var index := events.maxBackups;
      assert events.backups[index..] == [];
      NoEventIsRead();
      while index >= 1
        invariant 0 <= index <= events.maxBackups
        invariant target !in Records(Kept(events.backups[index..]))
      {
        var path := events.backups[index - 1];
        KeptFrom(events.backups, index - 1);
        if events.maxBackups - index >= readable && path.Some? {
          return IoError;
        }
        var found := EventExistsInPath(Lines(path), target);
        if found {
          OlderStay(events.backups, index - 1, target);
          return Ok(true);
        }
        index := index - 1;
      }
      assert events.backups[index..] == events.backups;
      if events.maxBackups >= readable && events.current.Some? {
        return IoError;
      }
      var found := EventExistsInPath(Lines(events.current), target);
      result := Ok(found);
    }

    method AppendEvent(event: EventIdentity, length: nat, steps: nat) returns (ok: bool)
      requires Valid()
      modifies events
      ensures Valid()
      ensures ok ==> Events() == Records(old(events.KeptByAppend(length))) + [event]
      ensures ok ==> exists kept :: IsSuffix(kept, old(Events())) && Events() == kept + [event]
      ensures !ok ==> IsSuffix(Events(), old(Events()))
      ensures !ok && old(events.Fits(length)) ==> Events() == old(Events())
      ensures events.maxBackups + 4 <= steps && old(events.isOpen) ==> ok
    {
      hide JsonlWriter.Valid, JsonlWriter.Retained, JsonlWriter.KeptByAppend, Records, IsSuffix;
      ghost var before, kept := events.Retained(), events.KeptByAppend(length);
      KeptByAppendIsSuffix(events, length);
      if events.Fits(length) {
        FittingKeepsAll(events, length);
      }
      ok := events.AppendLine(Line(event, length), steps);
      if ok {
        RecordsOfSuffix(kept, before);
        RecordsOfAppended(kept, event, length);
      } else {
        RecordsOfSuffix(events.Retained(), before);
      }
    }

    /** The event is appended exactly when no retained record has its identity. */
    method AppendProviderEventOnce(event: EventIdentity, length: nat, readable: nat, steps: nat)
      returns (result: Result<bool>)
      requires Valid()
      modifies events
      ensures Valid()
      ensures result == Ok(false) ==> event in old(Events()) && Events() == old(Events())
      ensures result == Ok(true) ==> event !in old(Events())
                                     && exists kept :: IsSuffix(kept, old(Events())) && Events() == kept + [event]
      ensures result.IoError? ==>
              IsSuffix(Events(), old(Events())) && (event in old(Events()) ==> Events() == old(Events()))
      ensures old(events.Fits(length)) ==> Events() == old(Events()) + if result == Ok(true) then [event] else []
      ensures eventsEnabled && events.maxBackups + 1 <= readable && events.maxBackups + 4 <= steps ==>
                old(events.isOpen) ==> result.Ok?
    {
      hide JsonlWriter.Valid, JsonlWriter.Retained, Records, IsSuffix;
      WholeIsSuffix(Events());
      if !eventsEnabled {
        return IoError;
      }
      var found := HasEvent(event, readable);
      if found.IoError? {
        return IoError;
      }
      if found.value {
        return Ok(false);
      }
      var ok := AppendEvent(event, length, steps);
      result := if ok then Ok(true) else IoError;
    }

    method ListAttempts(appCode: string, messageId: string, readable: nat) returns (result: Result<seq<AttemptRecord>>)
      requires Valid()
      ensures result.Ok? ==> result.value == AttemptsOf(Attempts(), appCode, messageId)
      ensures attempts.maxBackups + 1 <= readable ==> result.Ok?
    {
      assert |attempts.backups| == attempts.maxBackups;
      hide Records, JsonlWriter.Valid;
      var listed: seq<AttemptRecord> := [];
      var index := attempts.maxBackups;
      assert attempts.backups[index..] == [];
      NoAttemptIsRead();
      while index >= 1
        invariant 0 <= index <= attempts.maxBackups
        invariant listed == AttemptsOf(Records(Kept(attempts.backups[index..])), appCode, messageId)
      {
        var path := attempts.backups[index - 1];
        KeptFrom(attempts.backups, index - 1);
        AttemptsOfConcat(Records(Kept(attempts.backups[index..])), Records(Lines(path)), appCode, messageId);
        if attempts.maxBackups - index >= readable && path.Some? {
          return IoError;
        }
        var batch := ListAttemptsInPath(Lines(path), appCode, messageId);
        listed := listed + batch;
        index := index - 1;
      }
      assert attempts.backups[index..] == attempts.backups;
      if attempts.maxBackups >= readable && attempts.current.Some? {
        return IoError;
      }
      var batch := ListAttemptsInPath(Lines(attempts.current), appCode, messageId);
      RecordsOfConcat(Kept(attempts.backups), Lines(attempts.current));
      AttemptsOfConcat(Records(Kept(attempts.backups)), Records(Lines(attempts.current)), appCode, messageId);
      result := Ok(listed + batch);
    }
  }

  lemma NothingIsRead()
    ensures forall appCode, messageId :: Latest(Records<MessageRecord>(Kept([])), appCode, messageId) == None
  {
  }

  lemma NothingIsHeld(appCode: string)
    ensures HoldsLatest(map[], Records<MessageRecord>(Kept([])), appCode)
  {
  }

  lemma NoEventIsRead()
    ensures Records<EventIdentity>(Kept([])) == []
  {
  }

  lemma NoAttemptIsRead()
    ensures Records<AttemptRecord>(Kept([])) == []
  {
  }

  lemma EmptyIsInOrder()
    ensures InOrder([])
  {
  }

  lemma {:induction false} OlderStay(backups: seq<Option<File<EventIdentity>>>, i: nat, target: EventIdentity)
    requires i < |backups| && target in Records(Lines(backups[i]))
    ensures target in Records(Kept(backups))
  {
    KeptFrom(backups, 0);
    assert backups[0..] == backups;
    if i > 0 {
      OlderStay(backups[1..], i - 1, target);
    }
  }

  lemma RecordsOfAppended<T>(lines: seq<Line<T>>, record: T, length: nat)
    ensures Records(lines + [Line(record, length)]) == Records(lines) + [record]
  {
  }

  lemma FittingKeepsAll<T>(writer: JsonlWriter<T>, length: nat)
    requires writer.Valid() && writer.Fits(length)
    ensures writer.KeptByAppend(length) == writer.Retained()
  {
  }

  lemma RecordsOfSuffix<T>(a: seq<Line<T>>, b: seq<Line<T>>)
    requires IsSuffix(a, b)
    ensures IsSuffix(Records(a), Records(b))
  {
    var front := b[..|b| - |a|];
    assert b == front + a;
    RecordsOfConcat(front, a);
  }

  lemma KeptByAppendIsSuffix<T>(writer: JsonlWriter<T>, length: nat)
    requires writer.Valid()
    ensures IsSuffix(writer.KeptByAppend(length), writer.Retained())
  {
    WholeIsSuffix(writer.Retained());
    KeptRemovesOldest(writer.backups);
    var n := writer.maxBackups - 1;
    assert writer.Retained() == Lines(writer.backups[n]) + (Kept(writer.backups[..n]) + Lines(writer.current));
  }

  lemma KeysAreIds(latest: map<string, MessageRecord>, records: seq<MessageRecord>, appCode: string)
    requires HoldsLatest(latest, records, appCode)
    ensures forall id :: id in latest ==> latest[id].messageId == id
  {
    forall id | id in latest
      ensures latest[id].messageId == id
    {
      LatestMatches(records, appCode, id);
    }
  }

  lemma SelectedIsCollected(latest: map<string, MessageRecord>, records: seq<MessageRecord>, appCode: string,
                            filter: Filter)
    requires HoldsLatest(latest, records, appCode)
    ensures forall r :: r in Selected(records, appCode, filter) <==>
            r.messageId in latest && latest[r.messageId] == r && Matches(filter, r)
  {
    forall r
      ensures r in Selected(records, appCode, filter) <==>
              r.messageId in latest && latest[r.messageId] == r && Matches(filter, r)
    {
      if r.messageId in latest {
        LatestMatches(records, appCode, r.messageId);
      }
    }
  }
}
