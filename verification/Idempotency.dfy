/**
 The idempotency cache: a bounded map with expiry, pending entries that are never
 dropped, and eviction of the oldest queued entry.

 The functions give each operation's effect on the map as a value. They do not
 mention iteration order; the class is proved to compute them whatever order its
 loops visit the map in.
 */
module Idempotency {
  import opened TextOrder

  datatype Status = Pending | Queued

  datatype Key = Key(app: string, scene: string, hash: string)

  datatype Entry = Entry(messageId: string, fingerprint: string, status: Status, createdAt: int)

  type Entries = map<Key, Entry>

  predicate KeyLess(l: Key, r: Key) {
    if l.app != r.app then Less(l.app, r.app)
    else if l.scene != r.scene then Less(l.scene, r.scene)
    else Less(l.hash, r.hash)
  }

  /** Eviction order: creation time, then key. */
  predicate Older(l: Key, le: Entry, r: Key, re: Entry) {
    le.createdAt < re.createdAt || (le.createdAt == re.createdAt && KeyLess(l, r))
  }

  predicate Expired(e: Entry, now: int, ttl: nat) {
    e.status.Queued? && e.createdAt <= now - ttl
  }

  function Live(entries: Entries, now: int, ttl: nat): (live: Entries)
    ensures live.Keys <= entries.Keys
    ensures |live| <= |entries|
  {
    var live := map k | k in entries && !Expired(entries[k], now, ttl) :: entries[k];
    SubsetSize(live.Keys, entries.Keys);
    live
  }

  lemma {:induction false} SubsetSize<T>(a: set<T>, b: set<T>)
    requires a <= b
    ensures |a| <= |b| && (|a| == |b| ==> a == b)
  {
    if a != {} {
      var x :| x in a;
      SubsetSize(a - {x}, b - {x});
    }
  }

  // ---------- the oldest queued entry ----------

  ghost predicate HasQueued(entries: Entries) {
    exists k :: k in entries && entries[k].status.Queued?
  }

  ghost predicate IsOldestQueued(k: Key, entries: Entries) {
    && k in entries && entries[k].status.Queued?
    && forall j :: j in entries && entries[j].status.Queued? && j != k ==> Older(k, entries[k], j, entries[j])
  }

  lemma OlderIsStrictOrder(a: Key, x: Entry, b: Key, y: Entry, c: Key, z: Entry)
    ensures Older(a, x, b, y) ==> !Older(b, y, a, x)
    ensures a != b ==> Older(a, x, b, y) || Older(b, y, a, x)
    ensures Older(a, x, b, y) && Older(b, y, c, z) ==> Older(a, x, c, z)
  {
    KeyOrder(a.app, b.app, c.app);
    KeyOrder(a.scene, b.scene, c.scene);
    KeyOrder(a.hash, b.hash, c.hash);
  }

  lemma KeyOrder(a: string, b: string, c: string)
    ensures Less(a, b) ==> a != b && !Less(b, a)
    ensures a != b ==> Less(a, b) || Less(b, a)
    ensures Less(a, b) && Less(b, c) ==> Less(a, c) && a != c
  {
    LessIsTotal(a, b);
    if Less(a, b) {
      LessIsAsymmetric(a, b);
      if Less(b, c) {
        LessIsTransitive(a, b, c);
        LessIsAsymmetric(a, c);
      }
    }
  }

  lemma OldestIsUnique(a: Key, b: Key, entries: Entries)
    requires IsOldestQueued(a, entries) && IsOldestQueued(b, entries)
    ensures a == b
  {
    OlderIsStrictOrder(a, entries[a], b, entries[b], a, entries[a]);
  }

  lemma {:induction false} OldestExists(entries: Entries)
    requires HasQueued(entries)
    ensures exists k :: IsOldestQueued(k, entries)
    decreases |entries|
  {
    var k :| k in entries && entries[k].status.Queued?;
    var rest := entries - {k};
    if HasQueued(rest) {
      OldestExists(rest);
      var m :| IsOldestQueued(m, rest);
      OlderIsStrictOrder(k, entries[k], m, entries[m], k, entries[k]);
      if Older(k, entries[k], m, entries[m]) {
        forall j | j in entries && entries[j].status.Queued? && j != k
          ensures Older(k, entries[k], j, entries[j])
        {
          OlderIsStrictOrder(k, entries[k], m, entries[m], j, entries[j]);
          assert j in rest;
        }
        assert IsOldestQueued(k, entries);
      } else {
        forall j | j in entries && entries[j].status.Queued? && j != m
          ensures Older(m, entries[m], j, entries[j])
        {
          assert j == k || j in rest;
        }
        assert IsOldestQueued(m, entries);
      }
    } else {
      assert forall j :: j in entries && j != k ==> j in rest;
      assert IsOldestQueued(k, entries);
    }
  }

  ghost function OldestQueued(entries: Entries): (k: Key)
    requires HasQueued(entries)
    ensures IsOldestQueued(k, entries)
  {
    OldestExists(entries);
    var k :| IsOldestQueued(k, entries);
    k
  }

  /** Drops the oldest queued entry until the map fits or only pending entries are left. */
  ghost function Shrink(entries: Entries, limit: nat): Entries
    decreases |entries|
  {
    if |entries| > limit && HasQueued(entries) then Shrink(entries - {OldestQueued(entries)}, limit) else entries
  }

  // ---------- the operations as functions ----------

  datatype Outcome = Reserved | Replayed(messageId: string) | Conflict | Full | Evicted

  ghost function ReserveEffect(entries: Entries, limit: nat, ttl: nat, key: Key, fingerprint: string,
                               now: int): (Entries, Outcome)
  {
    var live := Live(entries, now, ttl);
    if key in live then
      var replays := live[key].fingerprint == fingerprint && live[key].status.Queued?;
      (live, if replays then Replayed(live[key].messageId) else Conflict)
    else
      var grown := Shrink(live[key := Entry("", fingerprint, Pending, now)], limit);
      if |grown| > limit then (grown - {key}, Full)
      else (grown, if key in grown then Reserved else Evicted)
  }

  datatype MarkOutcome = Marked | NoMessageId | MarkConflict | AlreadyQueued | MarkFull | MarkEvicted

  /** Why an existing entry refuses a new queued message id, if it does. */
  function Refusal(e: Entry, fingerprint: string, messageId: string): MarkOutcome {
    if e.fingerprint != fingerprint || e.status.Pending? then MarkConflict
    else if e.messageId != "" && e.messageId != messageId then AlreadyQueued
    else Marked
  }

  ghost function MarkQueuedEffect(entries: Entries, limit: nat, ttl: nat, key: Key, fingerprint: string,
                                  messageId: string, now: int)
    : (Entries, MarkOutcome)
  {
    if messageId == "" then (entries, NoMessageId) else
      var live := Live(entries, now, ttl);
      if key in live && Refusal(live[key], fingerprint, messageId) != Marked then
        (live, Refusal(live[key], fingerprint, messageId))
      else
        var grown := Shrink(live[key := Entry(messageId, fingerprint, Queued, now)], limit);
        if |grown| > limit then (if key in live then grown[key := live[key]] else grown - {key}, MarkFull)
        else if key !in grown then (if key in live then grown[key := live[key]] else grown, MarkEvicted)
        else (grown, Marked)
  }

  predicate IsPending(entries: Entries, key: Key) {
    key in entries && entries[key].status.Pending?
  }

  function CompleteEffect(entries: Entries, key: Key, messageId: string, now: int): Entries {
    if IsPending(entries, key)
    then entries[key := entries[key].(messageId := messageId, status := Queued, createdAt := now)]
    else entries
  }

  function ReleaseEffect(entries: Entries, key: Key): Entries {
    if IsPending(entries, key) then entries - {key} else entries
  }

  // ---------- what the operations keep ----------

  /** Eviction only removes entries, and never a pending one. */
  lemma {:induction false} ShrinkKeepsPending(entries: Entries, limit: nat)
    ensures var s := Shrink(entries, limit);
            && |s| <= |entries|
            && (forall k :: k in s ==> k in entries && s[k] == entries[k])
            && (forall k :: IsPending(entries, k) ==> k in s)
    decreases |entries|
  {
    if |entries| > limit && HasQueued(entries) {
      ShrinkKeepsPending(entries - {OldestQueued(entries)}, limit);
    }
  }

  /** One entry too many costs exactly the oldest queued entry, if there is one. */
  lemma ShrinkByOne(entries: Entries, limit: nat)
    requires |entries| <= limit + 1
    ensures |entries| <= limit ==> Shrink(entries, limit) == entries
    ensures |entries| == limit + 1 && HasQueued(entries) ==>
              Shrink(entries, limit) == entries - {OldestQueued(entries)} && |Shrink(entries, limit)| == limit
    ensures |entries| == limit + 1 && !HasQueued(entries) ==> Shrink(entries, limit) == entries
  {
    if |entries| == limit + 1 && HasQueued(entries) {
      var k := OldestQueued(entries);
      assert (entries - {k}).Keys == entries.Keys - {k};
      assert |entries.Keys| == |entries| && |(entries - {k}).Keys| == |entries - {k}|;
    }
  }

  /** The effect of inserting one entry: all of it, minus at most the oldest queued entry. */
  ghost predicate InsertsOne(live: Entries, result: Entries, limit: nat, key: Key, entry: Entry) {
    if |live[key := entry]| <= limit then result == live[key := entry]
    else exists o :: o != key && IsOldestQueued(o, live[key := entry]) && result == (live - {o})[key := entry]
  }

  lemma InsertOne(live: Entries, limit: nat, key: Key, entry: Entry)
    requires |live| <= limit
    ensures var s := Shrink(live[key := entry], limit);
            && (|s| > limit ==> key !in live && s == live[key := entry] && !HasQueued(s) && |live| == limit)
            && (|s| <= limit && key !in s ==> s == live && key !in live)
            && (|s| <= limit && key in s ==> InsertsOne(live, s, limit, key, entry))
  {
    var grown := live[key := entry];
    assert grown.Keys == live.Keys + {key};
    assert |grown.Keys| == |grown| && |live.Keys| == |live|;
    ShrinkByOne(grown, limit);
    if |grown| > limit && HasQueued(grown) {
      var o := OldestQueued(grown);
      if o == key {
        assert grown - {o} == live;
      } else {
        assert grown - {o} == (live - {o})[key := entry];
      }
    }
  }

  /** Reserve is all or nothing relative to the map after expiry; the three refusals are exactly characterised. */
  lemma ReserveIsAllOrNothing(entries: Entries, limit: nat, ttl: nat, key: Key, fingerprint: string, now: int)
    requires |entries| <= limit
    ensures var live := Live(entries, now, ttl);
            var (after, outcome) := ReserveEffect(entries, limit, ttl, key, fingerprint, now);
            && |after| <= limit
            && outcome != Evicted
            && (outcome != Reserved ==> after == live)
            && (outcome == Reserved ==>
                key !in live && InsertsOne(live, after, limit, key, Entry("", fingerprint, Pending, now)))
            && (outcome == Full <==> key !in live && |live| == limit && !HasQueued(live))
            && (outcome.Replayed? <==> key in live && live[key].status.Queued? && live[key].fingerprint == fingerprint)
            && (outcome.Replayed? ==> outcome.messageId == live[key].messageId)
  {
    hide Live, InsertsOne;
    var live := Live(entries, now, ttl);
    if key !in live {
      InsertPending(live, limit, key, fingerprint, now);
    }
  }

  lemma InsertPending(live: Entries, limit: nat, key: Key, fingerprint: string, now: int)
    requires |live| <= limit && key !in live
    ensures var entry := Entry("", fingerprint, Pending, now);
            var s := Shrink(live[key := entry], limit);
            && key in s
            && (|s| <= limit ==> InsertsOne(live, s, limit, key, entry))
            && (|s| > limit ==> s - {key} == live)
            && (|s| > limit <==> |live| == limit && !HasQueued(live))
  {
    hide Shrink, IsOldestQueued, InsertsOne, HasQueued;
    var entry := Entry("", fingerprint, Pending, now);
    var grown := live[key := entry];
    GrownByPending(live, key, entry);
    InsertOne(live, limit, key, entry);
    ShrinkKeepsPending(grown, limit);
    ShrinkByOne(grown, limit);
  }

  lemma GrownByPending(live: Entries, key: Key, entry: Entry)
    requires key !in live && entry.status.Pending?
    ensures var grown := live[key := entry];
            && |grown| == |live| + 1 && grown - {key} == live && IsPending(grown, key)
            && (HasQueued(grown) <==> HasQueued(live))
  {
    var grown := live[key := entry];
    assert grown.Keys == live.Keys + {key} && |grown.Keys| == |grown| && |live.Keys| == |live|;
    assert grown - {key} == live;
    assert forall k :: k in live ==> k in grown && grown[k] == live[k];
  }

  lemma InsertedEntries(live: Entries, after: Entries, limit: nat, key: Key, entry: Entry)
    requires key !in live && InsertsOne(live, after, limit, key, entry)
    ensures forall k :: k in after && k != key ==> k in live && after[k] == live[k]
    ensures forall k :: k in live && k !in after ==> live[k].status.Queued?
    ensures key in after && after[key] == entry && |live.Keys - after.Keys| <= 1
  {
    var grown := live[key := entry];
    if |grown| > limit {
      var o :| o != key && IsOldestQueued(o, grown) && after == (live - {o})[key := entry];
      assert live.Keys - after.Keys == {o};
    } else {
      assert live.Keys - after.Keys == {};
    }
  }

  /** What Reserve drops was queued; what it keeps it does not change; it evicts at most one entry. */
  lemma ReserveKeepsTheRest(entries: Entries, limit: nat, ttl: nat, key: Key, fingerprint: string, now: int)
    requires |entries| <= limit
    ensures var live := Live(entries, now, ttl);
            var (after, outcome) := ReserveEffect(entries, limit, ttl, key, fingerprint, now);
            && (forall k :: k in entries && k !in live ==> entries[k].status.Queued?)
            && (forall k :: k in live ==> k in entries && live[k] == entries[k])
            && (forall k :: k in live && k !in after ==> live[k].status.Queued?)
            && (forall k :: k in after && (k != key || outcome != Reserved) ==> k in live && after[k] == live[k])
            && (outcome == Reserved ==>
                key !in live && key in after && after[key] == Entry("", fingerprint, Pending, now))
            && |live.Keys - after.Keys| <= 1
  {
    hide ReserveEffect, InsertsOne, HasQueued;
    ReserveIsAllOrNothing(entries, limit, ttl, key, fingerprint, now);
    var live := Live(entries, now, ttl);
    var (after, outcome) := ReserveEffect(entries, limit, ttl, key, fingerprint, now);
    if outcome == Reserved {
      InsertedEntries(live, after, limit, key, Entry("", fingerprint, Pending, now));
    } else {
      assert live.Keys - after.Keys == {};
    }
  }

  /** MarkQueued is all or nothing too, and with the size bound it never answers that the cache is full. */
  lemma MarkQueuedIsAllOrNothing(entries: Entries, limit: nat, ttl: nat, key: Key, fingerprint: string,
                                 messageId: string, now: int)
    requires |entries| <= limit
    ensures var live := Live(entries, now, ttl);
            var (after, outcome) := MarkQueuedEffect(entries, limit, ttl, key, fingerprint, messageId, now);
            && |after| <= limit
            && outcome != MarkFull
            && (outcome == NoMessageId ==> after == entries)
            && (outcome != NoMessageId && outcome != Marked ==> after == live)
            && (outcome == Marked ==> InsertsOne(live, after, limit, key, Entry(messageId, fingerprint, Queued, now)))
  {
    var live := Live(entries, now, ttl);
    var entry := Entry(messageId, fingerprint, Queued, now);
    InsertOne(live, limit, key, entry);
    ShrinkSize(live, limit, key, entry);
  }

  lemma ShrinkSize(live: Entries, limit: nat, key: Key, entry: Entry)
    requires |live| <= limit && entry.status.Queued?
    ensures |Shrink(live[key := entry], limit)| <= limit
  {
    var grown := live[key := entry];
    assert grown.Keys == live.Keys + {key} && |grown.Keys| == |grown| && |live.Keys| == |live|;
    assert grown[key].status.Queued?;
    ShrinkByOne(grown, limit);
  }

  // ---------- in plain arithmetic on the creation time ----------

  /** An entry leaves by expiry exactly when it is queued and its lifetime is over. */
  lemma ExpiryIsDue(entries: Entries, now: int, ttl: nat)
    ensures var live := Live(entries, now, ttl);
            && (forall k :: k in entries && k !in live <==>
                            k in entries && entries[k].status == Queued && entries[k].createdAt + ttl <= now)
            && (forall k :: k in live ==> k in entries && live[k] == entries[k])
  {
  }

  /** The oldest queued entry: none was created before it, and of those created with it its key is the least. */
  lemma OldestIsLeast(k: Key, entries: Entries)
    requires IsOldestQueued(k, entries)
    ensures k in entries && entries[k].status == Queued
    ensures forall j :: j in entries && entries[j].status == Queued ==> entries[k].createdAt <= entries[j].createdAt
    ensures forall j :: j in entries && entries[j].status == Queued && j != k
                        && entries[j].createdAt == entries[k].createdAt ==>
                          if j.app != k.app then Less(k.app, j.app)
                          else if j.scene != k.scene then Less(k.scene, j.scene)
                          else Less(k.hash, j.hash)
  {
    hide Less;
  }

  /** The entry is queued and its lifetime has not ended. */
  predicate StandsQueued(e: Entry, now: int, ttl: nat) {
    e.status == Queued && now < e.createdAt + ttl
  }

  /** No queued entry whose lifetime has not ended was created before this one. */
  ghost predicate NoneOlder(entries: Entries, k: Key, now: int, ttl: nat)
    requires k in entries
  {
    forall j :: j in entries && StandsQueued(entries[j], now, ttl) ==> entries[k].createdAt <= entries[j].createdAt
  }

  ghost predicate AllPending(entries: Entries) {
    forall k :: k in entries ==> entries[k].status == Pending
  }

  /** The answer of a reservation, decided by the entry under its key alone unless the cache is full of pending ones. */
  lemma ReserveAnswers(entries: Entries, limit: nat, ttl: nat, key: Key, fingerprint: string, now: int)
    requires |entries| <= limit
    ensures var outcome := ReserveEffect(entries, limit, ttl, key, fingerprint, now).1;
            if key in entries && entries[key].status == Pending then outcome == Conflict
            else if key in entries && now < entries[key].createdAt + ttl then
              outcome == if entries[key].fingerprint == fingerprint then Replayed(entries[key].messageId)
                         else Conflict
            else
              outcome == if |entries| == limit && AllPending(entries) then Full else Reserved
  {
    ReserveIsAllOrNothing(entries, limit, ttl, key, fingerprint, now);
    ExpiryIsDue(entries, now, ttl);
    FullOfPending(entries, limit, ttl, now);
    hide Live, InsertsOne, HasQueued, Shrink;
  }

  /** Only a cache whose entries are all pending is full after expiry with nothing to evict. */
  lemma FullOfPending(entries: Entries, limit: nat, ttl: nat, now: int)
    requires |entries| <= limit
    ensures var live := Live(entries, now, ttl);
            |live| == limit && !HasQueued(live) <==>
            |entries| == limit && forall k :: k in entries ==> entries[k].status == Pending
  {
    var live := Live(entries, now, ttl);
    SubsetSize(live.Keys, entries.Keys);
    assert |live.Keys| == |live| && |entries.Keys| == |entries|;
    if forall k :: k in entries ==> entries[k].status == Pending {
      assert live.Keys == entries.Keys;
    }
  }

  /** What a reservation leaves: its own entry, and all others but the due ones and at most one, the oldest queued. */
  lemma ReserveLeaves(entries: Entries, limit: nat, ttl: nat, key: Key, fingerprint: string, now: int)
    requires |entries| <= limit
    ensures var (after, outcome) := ReserveEffect(entries, limit, ttl, key, fingerprint, now);
            && (outcome == Reserved ==> key in after && after[key] == Entry("", fingerprint, Pending, now))
            && (forall k :: k in after && (k != key || outcome != Reserved) ==> k in entries && after[k] == entries[k])
            && (forall k :: k in entries && k !in after ==> entries[k].status == Queued)
            && (outcome != Reserved ==>
                  forall k :: k in entries && k !in after ==> entries[k].createdAt + ttl <= now)
            && (forall k :: k in after && (k != key || outcome != Reserved) ==>
                  after[k].status == Pending || now < after[k].createdAt + ttl)
            && (forall k :: k in entries && k !in after && now < entries[k].createdAt + ttl ==>
                  NoneOlder(entries, k, now, ttl))
  {
    hide ReserveEffect, InsertsOne, HasQueued, IsOldestQueued, Live;
    var live := Live(entries, now, ttl);
    var (after, outcome) := ReserveEffect(entries, limit, ttl, key, fingerprint, now);
    ReserveKeepsTheRest(entries, limit, ttl, key, fingerprint, now);
    ReserveIsAllOrNothing(entries, limit, ttl, key, fingerprint, now);
    ExpiryIsDue(entries, now, ttl);
    if outcome == Reserved {
      EvictedIsOldest(live, after, limit, key, Entry("", fingerprint, Pending, now));
    }
  }

  lemma EvictedIsOldest(live: Entries, after: Entries, limit: nat, key: Key, entry: Entry)
    requires key !in live && entry.status.Pending? && InsertsOne(live, after, limit, key, entry)
    ensures forall k, j :: k in live && k !in after && j in live && live[j].status == Queued ==>
                             live[k].createdAt <= live[j].createdAt
  {
    var grown := live[key := entry];
    if |grown| > limit {
      var o :| o != key && IsOldestQueued(o, grown) && after == (live - {o})[key := entry];
      OldestIsLeast(o, grown);
      assert forall k :: k in live ==> k in grown && grown[k] == live[k];
    }
  }

  /** Why a message id is not stored, in terms of the entry under its key. */
  lemma MarkAnswers(entries: Entries, limit: nat, ttl: nat, key: Key, fingerprint: string, messageId: string, now: int)
    requires |entries| <= limit
    ensures var (after, outcome) := MarkQueuedEffect(entries, limit, ttl, key, fingerprint, messageId, now);
            if messageId == "" then outcome == NoMessageId
            else if key in entries && entries[key].status == Pending then outcome == MarkConflict
            else if key in entries && now < entries[key].createdAt + ttl && entries[key].fingerprint != fingerprint then
              outcome == MarkConflict
            else if key in entries && now < entries[key].createdAt + ttl && entries[key].messageId != ""
                    && entries[key].messageId != messageId then
              outcome == AlreadyQueued
            else
              || outcome == MarkEvicted
              || (outcome == Marked && key in after && after[key] == Entry(messageId, fingerprint, Queued, now))
  {
    ExpiryIsDue(entries, now, ttl);
    MarkQueuedIsAllOrNothing(entries, limit, ttl, key, fingerprint, messageId, now);
    hide Live, HasQueued, Shrink, IsOldestQueued;
  }

  // ---------- agreement with an unbounded map, over whole runs ----------

  datatype Op =
    | ReserveOp(key: Key, fingerprint: string, now: int)
    | MarkOp(key: Key, fingerprint: string, messageId: string, now: int)
    | CheckOp(now: int)
    | CompleteOp(key: Key, messageId: string, now: int)
    | ReleaseOp(key: Key)

  ghost function Apply(entries: Entries, limit: nat, ttl: nat, op: Op): Entries {
    match op
    case ReserveOp(key, fingerprint, now) => ReserveEffect(entries, limit, ttl, key, fingerprint, now).0
    case MarkOp(key, fingerprint, messageId, now) => MarkQueuedEffect(entries, limit, ttl, key, fingerprint, messageId,
                                                                      now).0
    case CheckOp(now) => Live(entries, now, ttl)
    case CompleteOp(key, messageId, now) => CompleteEffect(entries, key, messageId, now)
    case ReleaseOp(key) => ReleaseEffect(entries, key)
  }

  /** The same writes and releases made to a map that never expires or evicts. */
  ghost function ApplyUnbounded(all: Entries, entries: Entries, limit: nat, ttl: nat, op: Op): Entries {
    match op
    case ReserveOp(key, fingerprint, now) =>
      if ReserveEffect(entries, limit, ttl, key, fingerprint, now).1 == Reserved
      then all[key := Entry("", fingerprint, Pending, now)] else all
    case MarkOp(key, fingerprint, messageId, now) =>
      if MarkQueuedEffect(entries, limit, ttl, key, fingerprint, messageId, now).1 == Marked
      then all[key := Entry(messageId, fingerprint, Queued, now)] else all
    case CheckOp(now) => all
    case CompleteOp(key, messageId, now) =>
      if IsPending(entries, key) then CompleteEffect(all, key, messageId, now) else all
    case ReleaseOp(key) => if IsPending(entries, key) then all - {key} else all
  }

  ghost predicate Agrees(entries: Entries, all: Entries) {
    forall k :: k in entries ==> k in all && all[k] == entries[k]
  }

  lemma LiveAgrees(entries: Entries, all: Entries, now: int, ttl: nat)
    requires Agrees(entries, all)
    ensures Agrees(Live(entries, now, ttl), all)
  {
  }

  /** Inserting with eviction agrees with inserting without. */
  lemma InsertAgrees(live: Entries, all: Entries, after: Entries, limit: nat, key: Key, entry: Entry)
    requires Agrees(live, all) && InsertsOne(live, after, limit, key, entry)
    ensures Agrees(after, all[key := entry])
  {
  }

  lemma AgreementIsKept(entries: Entries, all: Entries, limit: nat, ttl: nat, op: Op)
    requires |entries| <= limit && Agrees(entries, all)
    ensures |Apply(entries, limit, ttl, op)| <= limit
    ensures Agrees(Apply(entries, limit, ttl, op), ApplyUnbounded(all, entries, limit, ttl, op))
  {
    hide Live, ReserveEffect, MarkQueuedEffect, InsertsOne, HasQueued;
    match op {
      case ReserveOp(key, fingerprint, now) =>
        LiveAgrees(entries, all, now, ttl);
        ReserveIsAllOrNothing(entries, limit, ttl, key, fingerprint, now);
        var (after, outcome) := ReserveEffect(entries, limit, ttl, key, fingerprint, now);
        if outcome == Reserved {
          InsertAgrees(Live(entries, now, ttl), all, after, limit, key, Entry("", fingerprint, Pending, now));
        }
      case MarkOp(key, fingerprint, messageId, now) =>
        LiveAgrees(entries, all, now, ttl);
        MarkQueuedIsAllOrNothing(entries, limit, ttl, key, fingerprint, messageId, now);
        var (after, outcome) := MarkQueuedEffect(entries, limit, ttl, key, fingerprint, messageId, now);
        if outcome == Marked {
          InsertAgrees(Live(entries, now, ttl), all, after, limit, key, Entry(messageId, fingerprint, Queued, now));
        }
      case CheckOp(now) =>
        LiveAgrees(entries, all, now, ttl);
      case CompleteOp(key, messageId, now) =>
        CompletedSize(entries, key, messageId, now);
      case ReleaseOp(key) =>
        SubsetSize(ReleaseEffect(entries, key).Keys, entries.Keys);
    }
  }

  ghost function Run(entries: Entries, limit: nat, ttl: nat, ops: seq<Op>): Entries
    decreases |ops|
  {
    if ops == [] then entries else Run(Apply(entries, limit, ttl, ops[0]), limit, ttl, ops[1..])
  }

  ghost function RunUnbounded(all: Entries, entries: Entries, limit: nat, ttl: nat, ops: seq<Op>): Entries
    decreases |ops|
  {
    if ops == [] then all
    else RunUnbounded(ApplyUnbounded(all, entries, limit, ttl, ops[0]), Apply(entries, limit, ttl, ops[0]), limit, ttl,
                      ops[1..])
  }

  /** After any operations the cache is within its limit and holds what an unbounded map holds under its keys. */
  lemma {:induction false} CacheAgreesWithUnboundedMap(entries: Entries, all: Entries, limit: nat, ttl: nat,
                                                       ops: seq<Op>)
    requires |entries| <= limit && Agrees(entries, all)
    ensures |Run(entries, limit, ttl, ops)| <= limit
    ensures Agrees(Run(entries, limit, ttl, ops), RunUnbounded(all, entries, limit, ttl, ops))
    decreases |ops|
  {
    if ops != [] {
      AgreementIsKept(entries, all, limit, ttl, ops[0]);
      CacheAgreesWithUnboundedMap(Apply(entries, limit, ttl, ops[0]), ApplyUnbounded(all, entries, limit, ttl, ops[0]),
                                  limit, ttl, ops[1..]);
    }
  }

  // ---------- pending entries ----------

  /** Expiry and eviction never touch a pending entry; Reserve adds at most its own. */
  lemma PendingAfterReserve(entries: Entries, limit: nat, ttl: nat, key: Key, fingerprint: string, now: int)
    requires |entries| <= limit
    ensures var (after, outcome) := ReserveEffect(entries, limit, ttl, key, fingerprint, now);
            && (outcome == Reserved ==>
                !IsPending(entries, key) && IsPending(after, key) && after[key].fingerprint == fingerprint)
            && forall k :: k != key || outcome != Reserved ==>
                             (IsPending(after, k) <==> IsPending(entries, k))
                                 && (IsPending(entries, k) ==> after[k] == entries[k])
  {
    hide ReserveEffect;
    ReserveIsAllOrNothing(entries, limit, ttl, key, fingerprint, now);
  }

  lemma PendingAfterMarkQueued(entries: Entries, limit: nat, ttl: nat, key: Key, fingerprint: string, messageId: string,
                               now: int)
    requires |entries| <= limit
    ensures var after := MarkQueuedEffect(entries, limit, ttl, key, fingerprint, messageId, now).0;
            forall k :: (IsPending(after, k) <==> IsPending(entries, k))
                && (IsPending(entries, k) ==> after[k] == entries[k])
  {
    var live := Live(entries, now, ttl);
    var (after, outcome) := MarkQueuedEffect(entries, limit, ttl, key, fingerprint, messageId, now);
    MarkedWasNotPending(entries, limit, ttl, key, fingerprint, messageId, now);
    hide MarkQueuedEffect;
    MarkQueuedIsAllOrNothing(entries, limit, ttl, key, fingerprint, messageId, now);
  }

  lemma MarkedWasNotPending(entries: Entries, limit: nat, ttl: nat, key: Key, fingerprint: string, messageId: string,
                            now: int)
    ensures MarkQueuedEffect(entries, limit, ttl, key, fingerprint, messageId, now).1 == Marked ==>
            !IsPending(entries, key)
  {
  }

  lemma CompletedSize(entries: Entries, key: Key, messageId: string, now: int)
    ensures |CompleteEffect(entries, key, messageId, now)| == |entries|
  {
    var after := CompleteEffect(entries, key, messageId, now);
    assert after.Keys == entries.Keys;
    assert |after.Keys| == |after| && |entries.Keys| == |entries|;
  }

  // ---------- the objects ----------

  datatype CompleteOutcome = Completed | MissingMessageId | AlreadyUsed | NotPending

  datatype CheckOutcome = New | Replay(messageId: string) | CheckConflict

  /** Reservations and pending entries, paired by key. */
  ghost predicate Paired(entries: Entries, unused: set<IdempotencyReservation>) {
    && (forall r :: r in unused ==> IsPending(entries, r.key))
    && (forall r, s :: r in unused && s in unused && r.key == s.key ==> r == s)
    && (forall k :: IsPending(entries, k) ==> exists r :: r in unused && r.key == k)
  }

  ghost predicate SamePending(before: Entries, after: Entries) {
    forall k :: IsPending(after, k) <==> IsPending(before, k)
  }

  lemma PairedWithNew(before: Entries, after: Entries, unused: set<IdempotencyReservation>, r: IdempotencyReservation)
    requires Paired(before, unused) && !IsPending(before, r.key)
    requires forall k :: IsPending(after, k) <==> IsPending(before, k) || k == r.key
    ensures Paired(after, unused + {r})
  {
    assert r in unused + {r};
  }

  lemma PairedWithout(before: Entries, after: Entries, unused: set<IdempotencyReservation>, r: IdempotencyReservation)
    requires Paired(before, unused) && r in unused
    requires forall k :: IsPending(after, k) <==> IsPending(before, k) && k != r.key
    ensures Paired(after, unused - {r})
  {
    forall k | IsPending(after, k)
      ensures exists s :: s in unused - {r} && s.key == k
    {
      var s :| s in unused && s.key == k;
      assert s in unused - {r};
    }
  }

  lemma ReserveKeepsPairing(entries: Entries, limit: nat, ttl: nat, key: Key, fingerprint: string, now: int,
                            unused: set<IdempotencyReservation>, r: IdempotencyReservation?)
    requires |entries| <= limit && Paired(entries, unused)
    requires r != null <==> ReserveEffect(entries, limit, ttl, key, fingerprint, now).1 == Reserved
    requires r != null ==> r.key == key
    ensures var after := ReserveEffect(entries, limit, ttl, key, fingerprint, now).0;
            |after| <= limit && Paired(after, unused + (if r == null then {} else {r}))
  {
    hide ReserveEffect, Paired, InsertsOne, HasQueued;
    var after := ReserveEffect(entries, limit, ttl, key, fingerprint, now).0;
    ReserveIsAllOrNothing(entries, limit, ttl, key, fingerprint, now);
    PendingAfterReserve(entries, limit, ttl, key, fingerprint, now);
    if r != null {
      PairedWithNew(entries, after, unused, r);
    } else {
      PairedWithSame(entries, after, unused);
      assert unused + {} == unused;
    }
  }

  lemma PairedWithSame(before: Entries, after: Entries, unused: set<IdempotencyReservation>)
    requires Paired(before, unused) && SamePending(before, after)
    ensures Paired(after, unused)
  {
  }

  class IdempotencyCache {
    const limit: nat
    const ttl: nat
    var entries: Entries
    ghost var reservations: set<IdempotencyReservation>

    ghost function Unused(): set<IdempotencyReservation>
      reads this`reservations, reservations
    {
      set r | r in reservations && !r.used
    }

    /** Unused reservations and pending entries are in bijection, and the map is within its limit. */
    ghost predicate Valid()
      reads this, reservations
    {
      && limit > 0 && ttl > 0 && |entries| <= limit
      && (forall r :: r in reservations ==> r.cache == this)
      && Paired(entries, Unused())
    }

    constructor (capacity: nat, ttl: nat)
      requires capacity > 0 && ttl > 0
      ensures Valid() && entries == map[] && limit == capacity && this.ttl == ttl && reservations == {}
    {
      limit := capacity;
      this.ttl := ttl;
      entries := map[];
      reservations := {};
    }

    /** A cache needs a positive capacity and lifetime. */
    static method New(capacity: int, ttl: int) returns (cache: IdempotencyCache?)
      ensures cache != null <==> capacity > 0 && ttl > 0
      ensures cache != null ==>
                fresh(cache) && cache.Valid() && cache.entries == map[] && cache.limit == capacity && cache.ttl == ttl
    {
      if capacity <= 0 || ttl <= 0 {
        return null;
      }
      cache := new IdempotencyCache(capacity, ttl);
    }

    /** Drops expired queued entries, visiting the map in any order. */
    method DeleteExpired(now: int)
      modifies this`entries
      ensures entries == Live(old(entries), now, ttl)
      ensures forall k :: k in old(entries) ==>
                (k !in entries <==> old(entries)[k].status == Queued && old(entries)[k].createdAt + ttl <= now)
    {
      var expiresBefore := now - ttl;
      var rest := entries.Keys;
      while rest != {}
        invariant rest <= old(entries).Keys
        invariant entries == map k | k in old(entries) && (k in rest || !Expired(old(entries)[k], now, ttl)) ::
                  old(entries)[k]
        decreases rest
      {
        var key :| key in rest;
        rest := rest - {key};
        if entries[key].status.Pending? {
          continue;
        }
        if entries[key].createdAt <= expiresBefore {
          entries := entries - {key};
        }
      }
    }

    /** The oldest queued entry, whatever the order of the visit. */
    method FindOldestQueued() returns (found: bool, oldest: Key)
      ensures found <==> HasQueued(entries)
      ensures found ==> IsOldestQueued(oldest, entries)
    {
      found := false;
      oldest := Key("", "", "");
      var rest := entries.Keys;
      while rest != {}
        invariant rest <= entries.Keys
        invariant found ==> oldest in entries && entries[oldest].status.Queued?
        invariant forall k :: k in entries && k !in rest && entries[k].status.Queued? && (!found || k != oldest) ==>
                                found && Older(oldest, entries[oldest], k, entries[k])
        decreases rest
      {
        var key :| key in rest;
        rest := rest - {key};
        var entry := entries[key];
        if entry.status.Pending? {
          continue;
        }
        if !found || Older(key, entry, oldest, entries[oldest]) {
          ghost var previous := oldest;
          forall k | found && k in entries && k !in rest && entries[k].status.Queued? && k != key
            ensures Older(key, entry, k, entries[k])
          {
            OlderIsStrictOrder(key, entry, previous, entries[previous], k, entries[k]);
          }
          oldest := key;
          found := true;
        } else {
          OlderIsStrictOrder(oldest, entries[oldest], key, entry, key, entry);
        }
      }
    }

    /** Evicts oldest queued entries until the map fits; false when only pending entries are left. */
    method EvictOverflowExceptPending() returns (ok: bool)
      modifies this`entries
      ensures entries == Shrink(old(entries), limit)
      ensures ok <==> |entries| <= limit
    {
      while |entries| > limit
        invariant Shrink(entries, limit) == Shrink(old(entries), limit)
        decreases |entries|
      {
        var found, oldest := FindOldestQueued();
        if !found {
          return false;
        }
        OldestIsUnique(oldest, OldestQueued(entries), entries);
        entries := entries - {oldest};
      }
      ok := true;
    }

    method Check(key: Key, fingerprint: string, now: int) returns (outcome: CheckOutcome)
      modifies this`entries
      ensures entries == Live(old(entries), now, ttl)
      ensures old(Valid()) ==> Valid()
      ensures outcome ==
              if key !in entries then CheckOutcome.New
              else if entries[key].fingerprint != fingerprint || entries[key].status.Pending? then CheckConflict
              else Replay(entries[key].messageId)
      ensures outcome == CheckOutcome.New <==>
              !(key in old(entries) && (old(entries)[key].status == Pending || now < old(entries)[key].createdAt + ttl))
    {
      DeleteExpired(now);
      assert forall k :: IsPending(entries, k) <==> IsPending(old(entries), k);
      if key !in entries {
        return CheckOutcome.New;
      }
      var entry := entries[key];
      if entry.fingerprint != fingerprint {
        return CheckConflict;
      }
      if entry.status.Pending? {
        return CheckConflict;
      }
      outcome := Replay(entry.messageId);
    }

    /** Stores a pending entry, or answers with the entry already there. */
    method Reserve(key: Key, fingerprint: string, now: int)
      returns (reservation: IdempotencyReservation?, outcome: Outcome)
      modifies this`entries, this`reservations
      ensures (entries, outcome) == ReserveEffect(old(entries), limit, ttl, key, fingerprint, now)
      ensures reservation != null <==> outcome == Reserved
      ensures reservation != null ==>
                fresh(reservation) && reservation.cache == this && reservation.key == key && !reservation.used
      ensures reservations == old(reservations) + (if reservation == null then {} else {reservation})
      ensures old(Valid()) ==> Valid()
      ensures old(Valid()) ==>
                outcome == if IsPending(old(entries), key) then Conflict
                           else if key in old(entries) && now < old(entries)[key].createdAt + ttl then
                             if old(entries)[key].fingerprint == fingerprint
                             then Replayed(old(entries)[key].messageId) else Conflict
                           else if |old(entries)| == limit && AllPending(old(entries)) then Full else Reserved
    {
      hide ReserveEffect, Paired, Unused;
      reservation := null;
      outcome := StorePending(key, fingerprint, now);
      if outcome == Reserved {
        reservation := Issue(key);
      } else {
        assert Unused() == old(Unused()) + {};
      }
      if old(Valid()) {
        ReserveKeepsPairing(old(entries), limit, ttl, key, fingerprint, now, old(Unused()), reservation);
        ReserveAnswers(old(entries), limit, ttl, key, fingerprint, now);
      }
    }

    method Issue(key: Key) returns (reservation: IdempotencyReservation)
      modifies this`reservations
      ensures fresh(reservation) && reservation.cache == this && reservation.key == key && !reservation.used
      ensures reservations == old(reservations) + {reservation}
      ensures Unused() == old(Unused()) + {reservation}
    {
      reservation := new IdempotencyReservation(this, key);
      reservations := reservations + {reservation};
    }

    method StorePending(key: Key, fingerprint: string, now: int) returns (outcome: Outcome)
      modifies this`entries
      ensures (entries, outcome) == ReserveEffect(old(entries), limit, ttl, key, fingerprint, now)
    {
      DeleteExpired(now);
      if key in entries {
        var entry := entries[key];
        if entry.fingerprint != fingerprint {
          return Conflict;
        }
        if entry.status.Queued? {
          return Replayed(entry.messageId);
        }
        return Conflict;
      }
      entries := entries[key := Entry("", fingerprint, Pending, now)];
      var ok := EvictOverflowExceptPending();
      if !ok {
        entries := entries - {key};
        return Full;
      }
      if key !in entries {
        return Evicted;
      }
      outcome := Reserved;
    }

    /** Stores a queued entry directly. */
    method MarkQueued(key: Key, fingerprint: string, messageId: string, now: int) returns (outcome: MarkOutcome)
      modifies this`entries
      ensures (entries, outcome) == MarkQueuedEffect(old(entries), limit, ttl, key, fingerprint, messageId, now)
      ensures old(Valid()) ==> Valid()
      ensures old(|entries| <= limit) && outcome == Marked ==>
                key in entries && entries[key] == Entry(messageId, fingerprint, Queued, now)
    {
      outcome := StoreQueued(key, fingerprint, messageId, now);
      if old(|entries| <= limit) {
        hide MarkQueuedEffect;
        MarkQueuedIsAllOrNothing(old(entries), limit, ttl, key, fingerprint, messageId, now);
        MarkAnswers(old(entries), limit, ttl, key, fingerprint, messageId, now);
        PendingAfterMarkQueued(old(entries), limit, ttl, key, fingerprint, messageId, now);
        assert SamePending(old(entries), entries);
      }
    }

    method StoreQueued(key: Key, fingerprint: string, messageId: string, now: int) returns (outcome: MarkOutcome)
      modifies this`entries
      ensures (entries, outcome) == MarkQueuedEffect(old(entries), limit, ttl, key, fingerprint, messageId, now)
    {
      if messageId == "" {
        return NoMessageId;
      }
      DeleteExpired(now);
      if key in entries {
        var existing := entries[key];
        if existing.fingerprint != fingerprint {
          return MarkConflict;
        }
        if existing.status.Pending? {
          return MarkConflict;
        }
        if existing.messageId != "" && existing.messageId != messageId {
          return AlreadyQueued;
        }
      }
      var before := entries;
      entries := entries[key := Entry(messageId, fingerprint, Queued, now)];
      var ok := EvictOverflowExceptPending();
      if !ok {
        entries := if key in before then entries[key := before[key]] else entries - {key};
        return MarkFull;
      }
      if key !in entries {
        entries := if key in before then entries[key := before[key]] else entries;
        return MarkEvicted;
      }
      outcome := Marked;
    }
  }

  class IdempotencyReservation {
    const cache: IdempotencyCache
    const key: Key
    var used: bool

    constructor (cache: IdempotencyCache, key: Key)
      ensures this.cache == cache && this.key == key && !used
    {
      this.cache := cache;
      this.key := key;
      used := false;
    }

    /** Completing an unused reservation of a valid cache with a message id cannot fail. */
    method CompleteQueued(messageId: string, now: int) returns (outcome: CompleteOutcome)
      modifies this, cache`entries
      ensures used == (old(used) || messageId != "")
      ensures cache.entries == if messageId == "" || old(used) then old(cache.entries)
                               else CompleteEffect(old(cache.entries), key, messageId, now)
      ensures outcome == if messageId == "" then MissingMessageId
                         else if old(used) then AlreadyUsed
                         else if IsPending(old(cache.entries), key) then Completed else NotPending
      ensures old(cache.Valid() && this in cache.reservations) ==>
                cache.Valid() && (messageId != "" && !old(used) ==> outcome == Completed)
    {
      if messageId == "" {
        return MissingMessageId;
      }
      if used {
        return AlreadyUsed;
      }
      used := true;
      if key !in cache.entries || cache.entries[key].status != Pending {
        return NotPending;
      }
      var entry := cache.entries[key];
      cache.entries := cache.entries[key := entry.(messageId := messageId, status := Queued, createdAt := now)];
      outcome := Completed;
      CompletedSize(old(cache.entries), key, messageId, now);
      if old(cache.Valid() && this in cache.reservations) {
        assert cache.Unused() == old(cache.Unused()) - {this};
        PairedWithout(old(cache.entries), cache.entries, old(cache.Unused()), this);
      }
    }

    /** Drops the pending entry of an unused reservation. */
    method Release()
      modifies this, cache`entries
      ensures used
      ensures cache.entries == if old(used) then old(cache.entries) else ReleaseEffect(old(cache.entries), key)
      ensures old(cache.Valid() && this in cache.reservations) ==> cache.Valid()
    {
      if used {
        return;
      }
      used := true;
      if key in cache.entries && cache.entries[key].status.Pending? {
        cache.entries := cache.entries - {key};
      }
      SubsetSize(cache.entries.Keys, old(cache.entries).Keys);
      if old(cache.Valid() && this in cache.reservations) {
        assert cache.Unused() == old(cache.Unused()) - {this};
        PairedWithout(old(cache.entries), cache.entries, old(cache.Unused()), this);
      }
    }
  }
}
