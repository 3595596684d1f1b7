/**
 The suppression store: recipients an application must not mail, kept in memory and in a
 file. Adding an entry rewrites the whole file and rolls the memory back when that fails.
 */
module Suppression {
  import opened Wrappers
  import opened Domain
  import opened TextOrder

  datatype Reason = HardBounce | Complaint | Manual | UnknownReason(text: string)

  datatype Entry = Entry(appCode: string, email: string, normalizedEmail: string, reason: Reason)

  /** One entry as the file holds it. */
  datatype FileEntry = FileEntry(app: string, email: string, reason: Reason)

  /** The address rules of the mail library: the normal form of a valid single address. */
  type Normalizer = string -> Option<string>

  predicate IsSpace(c: char) {
    || '\t' <= c <= '\r' || c == ' ' || c == '\U{85}' || c == '\U{A0}' || c == '\U{1680}'
    || '\U{2000}' <= c <= '\U{200A}' || c == '\U{2028}' || c == '\U{2029}' || c == '\U{202F}' || c == '\U{205F}'
        || c == '\U{3000}'
  }

  predicate Trimmed(s: string) {
    s == "" || (!IsSpace(s[0]) && !IsSpace(s[|s| - 1]))
  }

  function TrimSpace(s: string): (r: string)
    ensures Trimmed(r)
    ensures Trimmed(s) ==> r == s
  {
    if s == "" then s
    else if IsSpace(s[0]) then TrimSpace(s[1..])
    else if IsSpace(s[|s| - 1]) then TrimSpace(s[..|s| - 1])
    else s
  }

  /** The white space that strings.TrimSpace removes, by code point. */
  lemma SpacesAre(c: char)
    ensures IsSpace(c) <==>
            c as int in {0x09, 0x0A, 0x0B, 0x0C, 0x0D, 0x20, 0x85, 0xA0, 0x1680, 0x2000, 0x2001, 0x2002, 0x2003, 0x2004,
                         0x2005, 0x2006, 0x2007, 0x2008, 0x2009, 0x200A, 0x2028, 0x2029, 0x202F, 0x205F, 0x3000}
  {
  }

  /** Trimming takes white space from both ends and nothing else. */
  lemma {:induction false} TrimTakesSpaces(s: string) returns (front: string, back: string)
    ensures s == front + TrimSpace(s) + back
    ensures forall c :: c in front || c in back ==> IsSpace(c)
  {
    hide IsSpace;
    if s == "" {
      front, back := "", "";
    } else if IsSpace(s[0]) {
      front, back := TrimTakesSpaces(s[1..]);
      front := [s[0]] + front;
      assert s == [s[0]] + s[1..];
    } else if IsSpace(s[|s| - 1]) {
      front, back := TrimTakesSpaces(s[..|s| - 1]);
      back := back + [s[|s| - 1]];
      assert s == s[..|s| - 1] + [s[|s| - 1]];
    } else {
      front, back := "", "";
    }
  }

  /** A normal form is a trimmed nonempty address and its own normal form. */
  ghost predicate IsNormalizer(n: Normalizer) {
    forall x :: n(x).Some? ==> n(x).value != "" && Trimmed(n(x).value) && n(n(x).value) == n(x)
  }

  function Key(appCode: string, normalizedEmail: string): string {
    appCode + "\0" + normalizedEmail
  }

  predicate KnownReason(r: Reason) {
    !r.UnknownReason?
  }

  predicate EntryOk(n: Normalizer, key: string, e: Entry) {
    && IsIdentifier(e.appCode) && KnownReason(e.reason)
    && Trimmed(e.email) && n(e.email) == Some(e.normalizedEmail)
    && key == Key(e.appCode, e.normalizedEmail)
  }

  type Entries = map<string, Entry>

  ghost predicate EntriesOk(n: Normalizer, entries: Entries) {
    forall key :: key in entries ==> EntryOk(n, key, entries[key])
  }

  lemma KeyIsInjective(a: string, x: string, b: string, y: string)
    requires IsIdentifier(a) && IsIdentifier(b) && Key(a, x) == Key(b, y)
    ensures a == b && x == y
  {
    assert Key(a, x)[|a|] == '\0' && forall i :: 0 <= i < |a| ==> Key(a, x)[i] == a[i] != '\0';
    assert Key(b, y)[|b|] == '\0' && forall i :: 0 <= i < |b| ==> Key(b, y)[i] == b[i] != '\0';
    assert |a| == |b|;
    assert Key(a, x)[..|a|] == a && Key(b, y)[..|b|] == b;
    assert Key(a, x)[|a| + 1..] == x && Key(b, y)[|b| + 1..] == y;
  }

  lemma IdentifierIsTrimmed(s: string)
    requires IsIdentifier(s)
    ensures Trimmed(s)
  {
  }

  // ---------- adding ----------

  /** The entry as it would be stored, or None when a field is invalid. */
  function Normalized(n: Normalizer, entry: Entry): Option<Entry> {
    var appCode := TrimSpace(entry.appCode);
    var email := TrimSpace(entry.email);
    var normal := n(if email == "" then TrimSpace(entry.normalizedEmail) else email);
    if !IsIdentifier(appCode) || normal.None? || !KnownReason(entry.reason) then None
    else Some(Entry(appCode, if email == "" then normal.value else email, normal.value, entry.reason))
  }

  /** A new key is written; a known one only when a complaint follows a hard bounce. */
  predicate Replaces(entries: Entries, e: Entry) {
    var key := Key(e.appCode, e.normalizedEmail);
    key in entries ==> entries[key].reason == HardBounce && e.reason == Complaint
  }

  datatype Store = Store(path: string, entries: Entries, file: Option<seq<FileEntry>>)

  predicate HasPath(path: string) {
    TrimSpace(path) != ""
  }

  function FileOf(entries: Entries, keys: seq<string>): seq<FileEntry>
    requires forall k :: k in keys ==> k in entries
  {
    seq(|keys|, i requires 0 <= i < |keys| =>
      (assert keys[i] in keys; FileEntry(entries[keys[i]].appCode, entries[keys[i]].email, entries[keys[i]].reason)))
  }

  ghost function Persisted(entries: Entries): seq<FileEntry> {
    FileOf(entries, Arrangement(entries.Keys))
  }

  datatype AddResult = Added | Unchanged | Invalid | PersistFailed

  /** The store after one Add; persistOk tells whether a file write would succeed. */
  ghost function AddEffect(n: Normalizer, store: Store, entry: Entry, persistOk: bool): (Store, AddResult) {
    var e := Normalized(n, entry);
    if e.None? then (store, Invalid)
    else if !Replaces(store.entries, e.value) then (store, Unchanged)
    else
      var entries := store.entries[Key(e.value.appCode, e.value.normalizedEmail) := e.value];
      if !HasPath(store.path) then (store.(entries := entries), Added)
      else if !persistOk then (store, PersistFailed)
      else (store.(entries := entries, file := Some(Persisted(entries))), Added)
  }

  // ---------- loading ----------

  /** One more file entry; None when it is invalid or repeats an earlier one. */
  function LoadOne(n: Normalizer, entries: Entries, fe: FileEntry): Option<Entries> {
    var appCode := TrimSpace(fe.app);
    var email := TrimSpace(fe.email);
    if !IsIdentifier(appCode) || n(email).None? || !KnownReason(fe.reason) then None
    else
      var key := Key(appCode, n(email).value);
      if key in entries then None else Some(entries[key := Entry(appCode, email, n(email).value, fe.reason)])
  }

  function Loaded(n: Normalizer, file: seq<FileEntry>): Option<Entries> {
    if file == [] then Some(map[]) else
      var before := Loaded(n, file[..|file| - 1]);
      if before.None? then None else LoadOne(n, before.value, file[|file| - 1])
  }

  /** A missing file loads as an empty one. */
  ghost predicate Agrees(n: Normalizer, store: Store) {
    && EntriesOk(n, store.entries)
    && (HasPath(store.path) ==> Loaded(n, store.file.GetOr([])) == Some(store.entries))
  }

  lemma {:induction false} LoadedIsOk(n: Normalizer, file: seq<FileEntry>)
    requires Loaded(n, file).Some?
    ensures EntriesOk(n, Loaded(n, file).value)
  {
    hide IsIdentifier, Trimmed, Key;
    if file != [] {
      LoadedIsOk(n, file[..|file| - 1]);
    }
  }

  function Restrict(entries: Entries, keys: seq<string>): Entries {
    map k | k in keys && k in entries :: entries[k]
  }

  lemma LoadOneRestores(n: Normalizer, before: Entries, key: string, e: Entry)
    requires EntryOk(n, key, e) && key !in before
    ensures LoadOne(n, before, FileEntry(e.appCode, e.email, e.reason)) == Some(before[key := e])
  {
    hide IsIdentifier, Key;
    IdentifierIsTrimmed(e.appCode);
  }

  /** What persisting writes, loading reads back: any duplicate-free listing of the entries rebuilds the map. */
  lemma {:induction false} LoadInvertsPersist(n: Normalizer, entries: Entries, keys: seq<string>)
    requires EntriesOk(n, entries) && forall k :: k in keys ==> k in entries
    requires forall i, j :: 0 <= i < j < |keys| ==> keys[i] != keys[j]
    ensures Loaded(n, FileOf(entries, keys)) == Some(Restrict(entries, keys))
  {
    hide EntryOk, LoadOne;
    if keys == [] {
      assert FileOf(entries, keys) == [] && Restrict(entries, keys) == map[];
    } else {
      var m := |keys| - 1;
      var prefix, last, file := keys[..m], keys[m], FileOf(entries, keys);
      assert keys == prefix + [last] && last !in prefix;
      LoadInvertsPersist(n, entries, prefix);
      assert file[..m] == FileOf(entries, prefix);
      LoadOneRestores(n, Restrict(entries, prefix), last, entries[last]);
      assert Restrict(entries, prefix)[last := entries[last]] == Restrict(entries, keys);
    }
  }

  lemma PersistedReloads(n: Normalizer, entries: Entries)
    requires EntriesOk(n, entries)
    ensures Loaded(n, Persisted(entries)) == Some(entries)
  {
    var keys := Arrangement(entries.Keys);
    forall i, j | 0 <= i < j < |keys|
      ensures keys[i] != keys[j]
    {
      LessIsAsymmetric(keys[i], keys[j]);
    }
    LoadInvertsPersist(n, entries, keys);
    assert Restrict(entries, keys) == entries;
  }

  lemma NormalizedIsOk(n: Normalizer, entry: Entry)
    requires IsNormalizer(n) && Normalized(n, entry).Some?
    ensures var e := Normalized(n, entry).value; EntryOk(n, Key(e.appCode, e.normalizedEmail), e)
  {
    hide IsIdentifier, IsSpace;
  }

  /** Memory and file agree after every Add, whatever happens to the write. */
  lemma AddKeepsAgreement(n: Normalizer, store: Store, entry: Entry, persistOk: bool)
    requires IsNormalizer(n) && Agrees(n, store)
    ensures Agrees(n, AddEffect(n, store, entry, persistOk).0)
  {
    hide EntryOk, Normalized, Loaded, Persisted, TrimSpace;
    var (after, result) := AddEffect(n, store, entry, persistOk);
    if result == Added {
      NormalizedIsOk(n, entry);
      PersistedReloads(n, after.entries);
    }
  }

  /** The only two ways an entry may change: it appears, or a complaint replaces a hard bounce. */
  predicate Rises(before: Entries, after: Entries, key: string) {
    key in before ==>
      && key in after
      && (after[key] == before[key] || (before[key].reason == HardBounce && after[key].reason == Complaint))
  }

  datatype AddCall = AddCall(entry: Entry, persistOk: bool)

  ghost function Adds(n: Normalizer, store: Store, calls: seq<AddCall>): Store
    decreases |calls|
  {
    if calls == [] then store else
      Adds(n, AddEffect(n, store, calls[0].entry, calls[0].persistOk).0, calls[1..])
  }

  /** Over any run of Adds memory and file agree and reasons only rise. */
  lemma {:induction false} RunAgreesAndRises(n: Normalizer, store: Store, calls: seq<AddCall>, key: string)
    requires IsNormalizer(n) && Agrees(n, store)
    ensures Agrees(n, Adds(n, store, calls)) && Rises(store.entries, Adds(n, store, calls).entries, key)
    decreases |calls|
  {
    hide Agrees, Normalized, Persisted, HasPath;
    if calls != [] {
      AddKeepsAgreement(n, store, calls[0].entry, calls[0].persistOk);
      RunAgreesAndRises(n, AddEffect(n, store, calls[0].entry, calls[0].persistOk).0, calls[1..], key);
    }
  }

  // ---------- listing ----------

  datatype Filter = Filter(limit: int, reason: Option<Reason>, email: string)

  predicate Listed(entries: Entries, appCode: string, filter: Filter, normalizedEmail: string, key: string) {
    && key in entries && entries[key].appCode == appCode
    && (filter.reason.None? || entries[key].reason == filter.reason.value)
    && (normalizedEmail == "" || entries[key].normalizedEmail == normalizedEmail)
  }

  function Limited<T>(s: seq<T>, limit: int): seq<T> {
    if 0 < limit < |s| then s[..limit] else s
  }

  /** The matching entries in the order of their keys, cut at a positive limit. */
  ghost function ListingOf(entries: Entries, appCode: string, filter: Filter, normalizedEmail: string): seq<Entry> {
    var keys := Arrangement(set k | k in entries && Listed(entries, appCode, filter, normalizedEmail, k));
    Limited(Picked(entries, keys), filter.limit)
  }

  function Picked(entries: Entries, keys: seq<string>): seq<Entry>
    requires forall k :: k in keys ==> k in entries
  {
    seq(|keys|, i requires 0 <= i < |keys| => (assert keys[i] in keys; entries[keys[i]]))
  }

  /** Keys of one application sort as their addresses do. */
  lemma {:induction false} KeysSortAsEmails(appCode: string, x: string, y: string)
    ensures Less(Key(appCode, x), Key(appCode, y)) <==> Less(x, y)
  {
    if appCode == "" {
      assert Key(appCode, x)[1..] == x && Key(appCode, y)[1..] == y;
    } else {
      assert Key(appCode, x)[1..] == Key(appCode[1..], x) && Key(appCode, y)[1..] == Key(appCode[1..], y);
      KeysSortAsEmails(appCode[1..], x, y);
    }
  }

  /** A listing is strictly ascending by address, so it does not depend on the order of the map. */
  lemma ListingIsOrdered(n: Normalizer, entries: Entries, appCode: string, filter: Filter, email: string, i: nat,
                         j: nat)
    requires EntriesOk(n, entries) && i < j < |ListingOf(entries, appCode, filter, email)|
    ensures Less(ListingOf(entries, appCode, filter, email)[i].normalizedEmail,
                 ListingOf(entries, appCode, filter, email)[j].normalizedEmail)
  {
    hide Less, IsIdentifier, Trimmed;
    var keys := Arrangement(set k | k in entries && Listed(entries, appCode, filter, email, k));
    assert keys[i] in keys && keys[j] in keys;
    var x, y := entries[keys[i]], entries[keys[j]];
    assert EntryOk(n, keys[i], x) && EntryOk(n, keys[j], y);
    KeysSortAsEmails(appCode, x.normalizedEmail, y.normalizedEmail);
  }

  /** The entry is the application's, and has the reason and the address that the filter names, if it names them. */
  predicate IsWanted(e: Entry, appCode: string, filter: Filter, address: string) {
    && e.appCode == appCode
    && (match filter.reason
        case None => true
        case Some(reason) => e.reason == reason)
    && address in ["", e.normalizedEmail]
  }

  /** A listing holds the wanted entries and no others, all of them unless the limit cuts. */
  lemma ListingIsWanted(entries: Entries, appCode: string, filter: Filter, address: string)
    ensures var s := ListingOf(entries, appCode, filter, address);
            && (forall e :: e in s ==> e in entries.Values && IsWanted(e, appCode, filter, address))
            && (filter.limit > 0 ==> |s| <= filter.limit)
            && (forall k :: k in entries && IsWanted(entries[k], appCode, filter, address) && entries[k] !in s ==>
                            0 < filter.limit == |s|)
  {
    var matching := set k | k in entries && Listed(entries, appCode, filter, address, k);
    var keys := Arrangement(matching);
    var all := Picked(entries, keys);
    var s := ListingOf(entries, appCode, filter, address);
    forall e | e in s
      ensures e in entries.Values && IsWanted(e, appCode, filter, address)
    {
      var i :| 0 <= i < |s| && s[i] == e;
      assert keys[i] in keys && e == entries[keys[i]];
    }
    forall k | k in entries && IsWanted(entries[k], appCode, filter, address) && entries[k] !in s
      ensures 0 < filter.limit == |s|
    {
      assert Listed(entries, appCode, filter, address, k) && k in keys;
      var i :| 0 <= i < |keys| && keys[i] == k;
      assert all[i] == entries[k] && all[i] in all;
    }
  }

  /** The file entry is valid: an identifier, an address with a normal form, and a known reason. */
  predicate IsValid(n: Normalizer, fe: FileEntry) {
    && IsIdentifier(TrimSpace(fe.app)) && n(TrimSpace(fe.email)).Some?
    && (fe.reason == HardBounce || fe.reason == Complaint || fe.reason == Manual)
  }

  /** Two file entries are about one recipient of one application. */
  predicate SameRecipient(n: Normalizer, a: FileEntry, b: FileEntry) {
    TrimSpace(a.app) == TrimSpace(b.app) && n(TrimSpace(a.email)) == n(TrimSpace(b.email))
  }

  ghost predicate IsLoadable(n: Normalizer, file: seq<FileEntry>) {
    && (forall i :: 0 <= i < |file| ==> IsValid(n, file[i]))
    && (forall i, j :: 0 <= i < j < |file| ==> !SameRecipient(n, file[i], file[j]))
  }

  lemma LoadableGrows(n: Normalizer, rest: seq<FileEntry>, last: FileEntry)
    ensures IsLoadable(n, rest + [last]) <==>
            IsLoadable(n, rest) && IsValid(n, last) && forall i :: 0 <= i < |rest| ==> !SameRecipient(n, rest[i], last)
  {
    hide IsValid, SameRecipient;
    var file := rest + [last];
    assert file[|rest|] == last && forall i :: 0 <= i < |rest| ==> file[i] == rest[i];
  }

  ghost predicate HoldsLines(n: Normalizer, entries: Entries, file: seq<FileEntry>) {
    forall key :: key in entries <==> exists i :: 0 <= i < |file| && key == KeyOfLine(n, file[i])
  }

  lemma HoldsLinesGrow(n: Normalizer, before: Entries, after: Entries, rest: seq<FileEntry>, last: FileEntry)
    requires HoldsLines(n, before, rest) && after.Keys == before.Keys + {KeyOfLine(n, last)}
    ensures HoldsLines(n, after, rest + [last])
  {
    hide KeyOfLine;
    var file := rest + [last];
    assert file[|rest|] == last && forall i :: 0 <= i < |rest| ==> file[i] == rest[i];
    forall key
      ensures key in after <==> exists i :: 0 <= i < |file| && key == KeyOfLine(n, file[i])
    {
      assert key in after <==> key in before || key == KeyOfLine(n, last);
    }
  }

  lemma LoadOneIff(n: Normalizer, before: Entries, rest: seq<FileEntry>, last: FileEntry)
    requires IsLoadable(n, rest) && HoldsLines(n, before, rest)
    ensures LoadOne(n, before, last).Some? <==>
            IsValid(n, last) && forall i :: 0 <= i < |rest| ==> !SameRecipient(n, rest[i], last)
    ensures LoadOne(n, before, last).Some? ==>
              LoadOne(n, before, last).value.Keys == before.Keys + {KeyOfLine(n, last)}
  {
    hide TrimSpace, IsIdentifier, Key, IsLoadable, SameRecipient;
    if IsValid(n, last) {
      RepeatHasKey(n, rest, last);
    }
  }

  /** A file loads exactly when every entry is valid and none repeats a recipient; then each has its entry. */
  lemma {:induction false} LoadsIff(n: Normalizer, file: seq<FileEntry>)
    ensures Loaded(n, file).Some? <==> IsLoadable(n, file)
    ensures Loaded(n, file).Some? ==> HoldsLines(n, Loaded(n, file).value, file)
  {
    if file != [] {
      var m := |file| - 1;
      var rest, last := file[..m], file[m];
      assert file == rest + [last];
      LoadsIff(n, rest);
      LoadableGrows(n, rest, last);
      hide LoadOne, KeyOfLine, IsLoadable, IsValid, SameRecipient, HoldsLines;
      if IsLoadable(n, rest) {
        var before := Loaded(n, rest).value;
        LoadOneIff(n, before, rest, last);
        if LoadOne(n, before, last).Some? {
          HoldsLinesGrow(n, before, LoadOne(n, before, last).value, rest, last);
        }
      }
    } else {
      assert IsLoadable(n, file) && HoldsLines(n, map[], file);
    }
  }

  function KeyOfLine(n: Normalizer, fe: FileEntry): string {
    Key(TrimSpace(fe.app), n(TrimSpace(fe.email)).GetOr(""))
  }

  lemma RepeatHasKey(n: Normalizer, rest: seq<FileEntry>, last: FileEntry)
    requires IsLoadable(n, rest) && IsValid(n, last)
    ensures (exists i :: 0 <= i < |rest| && KeyOfLine(n, last) == KeyOfLine(n, rest[i])) <==>
            exists i :: 0 <= i < |rest| && SameRecipient(n, rest[i], last)
  {
    hide TrimSpace, IsIdentifier, Key;
    forall i | 0 <= i < |rest|
      ensures KeyOfLine(n, last) == KeyOfLine(n, rest[i]) <==> SameRecipient(n, rest[i], last)
    {
      assert IsValid(n, rest[i]);
      if KeyOfLine(n, last) == KeyOfLine(n, rest[i]) {
        KeyIsInjective(TrimSpace(last.app), n(TrimSpace(last.email)).value,
                       TrimSpace(rest[i].app), n(TrimSpace(rest[i].email)).value);
      }
    }
  }

  class SuppressionStore {
    const normalize: Normalizer
    const path: string
    var entries: Entries
    /** What the file at the path holds; None while there is no file. */
    var file: Option<seq<FileEntry>>

    ghost function State(): Store
      reads this
    {
      Store(path, entries, file)
    }

    ghost predicate Valid()
      reads this
    {
      IsNormalizer(normalize) && Agrees(normalize, State())
    }

    constructor Empty(normalize: Normalizer, path: string)
      requires IsNormalizer(normalize)
      ensures Valid() && this.normalize == normalize && State() == Store(path, map[], None)
    {
      hide IsNormalizer, TrimSpace;
      this.normalize, this.path := normalize, path;
      entries, file := map[], None;
    }

    /** Loading fails exactly when some file entry is invalid or repeated. */
    static method Load(normalize: Normalizer, path: string, file: Option<seq<FileEntry>>)
      returns (store: SuppressionStore?)
      requires IsNormalizer(normalize)
      ensures HasPath(path) ==> (store != null <==> Loaded(normalize, file.GetOr([])).Some?)
      ensures !HasPath(path) ==> store != null && store.State() == Store("", map[], None)
      ensures store != null ==> store.Valid() && fresh(store) && store.normalize == normalize
      ensures store != null && HasPath(path) ==>
              store.State() == Store(path, Loaded(normalize, file.GetOr([])).value, file)
    {
      hide Loaded, LoadOne, IsNormalizer, EntriesOk;
      LoadedEmpty(normalize);
      if TrimSpace(path) == "" {
        store := new SuppressionStore.Empty(normalize, "");
        return;
      }
      store := new SuppressionStore.Empty(normalize, path);
      if file.None? {
        return;
      }
      var lines := file.value;
      var entries: Entries := map[];
      var i := 0;
      while i < |lines|
        invariant 0 <= i <= |lines|
        invariant Loaded(normalize, lines[..i]) == Some(entries)
      {
        LoadedGrows(normalize, lines, i);
        var next := LoadOne(normalize, entries, lines[i]);
        if next.None? {
          LoadFailureIsFinal(normalize, lines, i + 1);
          return null;
        }
        entries := next.value;
        i := i + 1;
      }
      assert lines[..i] == lines;
      LoadedIsOk(normalize, lines);
      store.entries, store.file := entries, file;
    }

    method PersistLocked(persistOk: bool) returns (ok: bool)
      modifies this`file
      ensures ok == (!HasPath(path) || persistOk)
      ensures file == if HasPath(path) && persistOk then Some(Persisted(entries)) else old(file)
    {
      if TrimSpace(path) == "" {
        return true;
      }
      var keys := SortedKeys(entries.Keys);
      AscendingIsUnique(keys, Arrangement(entries.Keys), entries.Keys);
      var lines: seq<FileEntry> := [];
      var i := 0;
      while i < |keys|
        invariant 0 <= i <= |keys|
        invariant forall k :: k in keys[..i] ==> k in entries
        invariant lines == FileOf(entries, keys[..i])
      {
        assert keys[..i + 1] == keys[..i] + [keys[i]];
        lines := lines + [FileEntry(entries[keys[i]].appCode, entries[keys[i]].email, entries[keys[i]].reason)];
        i := i + 1;
      }
      assert keys[..i] == keys;
      if !persistOk {
        return false;
      }
      file := Some(lines);
      ok := true;
    }

    method Add(entry: Entry, persistOk: bool) returns (result: AddResult)
      requires Valid()
      modifies this`entries, this`file
      ensures Valid()
      ensures (State(), result) == AddEffect(normalize, old(State()), entry, persistOk)
    {
      hide Agrees, IsNormalizer, Persisted, IsIdentifier;
      AddKeepsAgreement(normalize, State(), entry, persistOk);
      var appCode := TrimSpace(entry.appCode);
      var email := TrimSpace(entry.email);
      var sourceEmail := email;
      if sourceEmail == "" {
        sourceEmail := TrimSpace(entry.normalizedEmail);
      }
      var normal := normalize(sourceEmail);
      if !IsIdentifier(appCode) || normal.None? || !KnownReason(entry.reason) {
        return Invalid;
      }
      if email == "" {
        email := normal.value;
      }
      var e := Entry(appCode, email, normal.value, entry.reason);
      assert Normalized(normalize, entry) == Some(e);
      var key := Key(appCode, normal.value);
      var before := entries;
      if key in entries {
        var existing := entries[key];
        if existing.reason == e.reason && existing.email == e.email {
          return Unchanged;
        }
        if existing.reason == HardBounce && e.reason == Complaint {
          entries := entries[key := e];
          var ok := PersistLocked(persistOk);
          if !ok {
            entries := entries[key := existing];
            assert entries == before;
            return PersistFailed;
          }
          return Added;
        }
        return Unchanged;
      }
      entries := entries[key := e];
      var ok := PersistLocked(persistOk);
      if !ok {
        entries := entries - {key};
        assert entries == before;
        return PersistFailed;
      }
      result := Added;
    }

    /** An invalid address filter lists nothing. */
    method List(appCode: string, filter: Filter) returns (result: seq<Entry>)
      ensures result ==
              if TrimSpace(filter.email) == "" then ListingOf(entries, appCode, filter, "")
              else if normalize(filter.email).None? then []
              else ListingOf(entries, appCode, filter, normalize(filter.email).value)
    {
      hide TrimSpace, Less, IsSpace;
      var email := "";
      if TrimSpace(filter.email) != "" {
        if normalize(filter.email).None? {
          return [];
        }
        email := normalize(filter.email).value;
      }
      var matching := set k | k in entries && Listed(entries, appCode, filter, email, k);
      var keys := SortedKeys(matching);
      AscendingIsUnique(keys, Arrangement(matching), matching);
      var all: seq<Entry> := [];
      var i := 0;
      while i < |keys|
        invariant 0 <= i <= |keys|
        invariant forall k :: k in keys[..i] ==> k in entries
        invariant all == Picked(entries, keys[..i])
      {
        assert keys[..i + 1] == keys[..i] + [keys[i]];
        assert keys[i] in matching;
        all := all + [entries[keys[i]]];
        i := i + 1;
      }
      assert keys[..i] == keys;
      result := if filter.limit > 0 && |all| > filter.limit then all[..filter.limit] else all;
    }
  }

  lemma LoadedEmpty(n: Normalizer)
    ensures Loaded(n, []) == Some(map[])
  {
  }

  lemma LoadedGrows(n: Normalizer, file: seq<FileEntry>, i: nat)
    requires i < |file| && Loaded(n, file[..i]).Some?
    ensures Loaded(n, file[..i + 1]) == LoadOne(n, Loaded(n, file[..i]).value, file[i])
  {
    hide LoadOne;
    assert file[..i + 1][..i] == file[..i];
  }

  lemma {:induction false} LoadFailureIsFinal(n: Normalizer, file: seq<FileEntry>, i: nat)
    requires i <= |file| && Loaded(n, file[..i]).None?
    ensures Loaded(n, file).None?
    decreases |file| - i
  {
    if i < |file| {
      assert file[..i + 1][..i] == file[..i];
      LoadFailureIsFinal(n, file, i + 1);
    } else {
      assert file[..i] == file;
    }
  }
}
