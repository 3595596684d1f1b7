/**
 The rotating record file behind every log. Records go to a current file; when a record
 would push it past its size limit the numbered backups shift up by one, the oldest is
 removed, and the current file becomes backup 1. Any file operation may fail.
 */
module Jsonl {
  import opened Wrappers

  /** A record with the byte length of its encoded line, newline not counted. */
  datatype Line<+T> = Line(record: T, length: nat)

  type File<+T> = seq<Line<T>>

  function Size<T>(file: File<T>): nat {
    if file == [] then 0 else Size(file[..|file| - 1]) + file[|file| - 1].length + 1
  }

  function Lines<T>(file: Option<File<T>>): File<T> {
    file.GetOr([])
  }

  /** The records of backups 1, 2, … in the order they were written: the highest number is the oldest. */
  function Kept<T>(backups: seq<Option<File<T>>>): seq<Line<T>> {
    if backups == [] then [] else Kept(backups[1..]) + Lines(backups[0])
  }

  ghost predicate IsSuffix<T>(s: seq<T>, whole: seq<T>) {
    |s| <= |whole| && whole[|whole| - |s|..] == s
  }

  predicate FileOk<T>(maxBytes: int, file: Option<File<T>>) {
    Size(Lines(file)) <= maxBytes || |Lines(file)| == 1
  }

  lemma SuffixOfSuffix<T>(a: seq<T>, b: seq<T>, c: seq<T>)
    requires IsSuffix(a, b) && IsSuffix(b, c)
    ensures IsSuffix(a, c)
  {
    assert c[|c| - |a|..] == c[|c| - |b|..][|b| - |a|..];
  }

  lemma SuffixGrows<T>(a: seq<T>, b: seq<T>, x: T)
    requires IsSuffix(a, b)
    ensures IsSuffix(a + [x], b + [x])
  {
    assert (b + [x])[|b| - |a|..] == b[|b| - |a|..] + [x];
  }

  lemma DropFront<T>(a: seq<T>, b: seq<T>)
    ensures IsSuffix(b, a + b)
  {
  }

  /** Removing the highest backup loses exactly its records, the oldest ones. */
  lemma {:induction false} KeptRemovesOldest<T>(backups: seq<Option<File<T>>>)
    requires backups != []
    ensures Kept(backups) == Lines(backups[|backups| - 1]) + Kept(backups[..|backups| - 1])
    ensures Kept(backups[|backups| - 1 := None]) == Kept(backups[..|backups| - 1])
  {
    var n := |backups| - 1;
    if n > 0 {
      KeptRemovesOldest(backups[1..]);
      assert backups[1..][..n - 1] == backups[..n][1..];
      assert backups[n := None][1..] == backups[1..][n - 1 := None];
      assert Kept(backups[1..]) == Lines(backups[n]) + Kept(backups[..n][1..]);
      assert Kept(backups) == Lines(backups[n]) + Kept(backups[..n][1..]) + Lines(backups[0]);
    } else {
      assert backups[..0] == [];
      assert Kept(backups[1..]) == [];
      assert Kept(backups[n := None][1..]) == [];
    }
  }

  /** Renaming a backup to the next free number keeps every record and their order. */
  lemma {:induction false} KeptSurvivesRename<T>(backups: seq<Option<File<T>>>, i: nat)
    requires i + 1 < |backups| && backups[i + 1].None?
    ensures Kept(backups[i + 1 := backups[i]][i := None]) == Kept(backups)
  {
    var moved := backups[i + 1 := backups[i]][i := None];
    if i == 0 {
      assert moved[1..][1..] == backups[1..][1..];
    } else {
      assert moved[1..] == backups[1..][i := backups[1..][i - 1]][i - 1 := None];
      KeptSurvivesRename(backups[1..], i - 1);
    }
  }

  class JsonlWriter<T> {
    const maxBytes: int
    const maxBackups: int
    /** Backup i is at index i - 1; None while there is no such file. */
    var backups: seq<Option<File<T>>>
    var current: Option<File<T>>
    var isOpen: bool
    var currentSize: int
    /** Every record whose append succeeded since the files were empty. */
    ghost var history: seq<Line<T>>

    /** What a query reads: the backups from the oldest to the newest, then the current file. */
    ghost function Retained(): seq<Line<T>>
      reads this
    {
      Kept(backups) + Lines(current)
    }

    ghost predicate Valid()
      reads this
    {
      && maxBytes > 0 && maxBackups >= 1 && |backups| == maxBackups
      && (forall i :: 0 <= i < |backups| ==> FileOk(maxBytes, backups[i]))
      && FileOk(maxBytes, current)
      && (isOpen ==> current.Some? && currentSize == Size(current.value))
      && IsSuffix(Retained(), history)
    }

    /** A writer over empty files; New opens it. */
    constructor Closed(maxBytes: int, maxBackups: int)
      requires maxBytes > 0 && maxBackups >= 1
      ensures Valid() && this.maxBytes == maxBytes && this.maxBackups == maxBackups && !isOpen && history == []
    {
      this.maxBytes, this.maxBackups := maxBytes, maxBackups;
      backups := seq(maxBackups, _ => None);
      current, isOpen, currentSize, history := None, false, 0, [];
      new;
      NothingKept(backups);
    }

    static method New(maxBytes: int, maxBackups: int, openOk: bool) returns (writer: JsonlWriter?<T>)
      ensures writer != null <==> maxBytes > 0 && maxBackups >= 1 && openOk
      ensures writer != null ==>
              fresh(writer) && writer.Valid() && writer.isOpen && writer.history == [] && writer.Retained() == []
    {
      if maxBytes <= 0 || maxBackups < 1 {
        return null;
      }
      var created := new JsonlWriter.Closed(maxBytes, maxBackups);
      var ok := created.Open(openOk);
      writer := if ok then created else null;
    }

    method Open(openOk: bool) returns (ok: bool)
      requires Valid() && !isOpen
      modifies this`current, this`isOpen, this`currentSize
      ensures Valid() && ok == openOk && isOpen == ok && Retained() == old(Retained())
      ensures ok ==> Lines(current) == old(Lines(current))
    {
      if !openOk {
        return false;
      }
      if current.None? {
        current := Some([]);
      }
      isOpen, currentSize := true, Size(current.value);
      ok := true;
    }

    /** The file handle is gone even when closing reports an error. */
    method CloseLocked(closeOk: bool) returns (ok: bool)
      requires Valid()
      modifies this`isOpen
      ensures Valid() && !isOpen && ok == (old(isOpen) ==> closeOk)
    {
      if !isOpen {
        return true;
      }
      isOpen := false;
      ok := closeOk;
    }

    /** Shifts backups 1 … maxBackups - 1 up by one; steps counts the renames that succeed before one fails. */
    method ShiftBackups(steps: nat) returns (ok: bool)
      requires Valid() && !isOpen && backups[maxBackups - 1].None?
      modifies this`backups
      ensures Valid() && Kept(backups) == old(Kept(backups))
      ensures ok <==> maxBackups - 1 <= steps
      ensures ok ==> backups[0].None?
    {
      var index := maxBackups - 1;
      while index >= 1
        invariant 0 <= index <= maxBackups - 1 && |backups| == maxBackups
        invariant backups[index].None? && Kept(backups) == old(Kept(backups))
        invariant forall i :: 0 <= i < |backups| ==> FileOk(maxBytes, backups[i])
        invariant maxBackups - 1 - index <= steps
      {
        if maxBackups - 1 - index == steps {
          return false;
        }
        KeptSurvivesRename(backups, index - 1);
        backups := backups[index := backups[index - 1]][index - 1 := None];
        index := index - 1;
      }
      ok := true;
    }

    /**
     A full rotation loses exactly the oldest backup. steps counts the file operations that
     succeed before one fails: a close, a remove, the renames, and an open. A failed rotation
     leaves the writer closed and at most the oldest backup gone.
     */
    method RotateLocked(steps: nat) returns (ok: bool)
      requires Valid() && isOpen
      modifies this`backups, this`current, this`isOpen, this`currentSize
      ensures Valid() && isOpen == ok && ok == (maxBackups + 3 <= steps)
      ensures IsSuffix(Retained(), old(Retained()))
      ensures Retained() == old(Retained()) || Retained() == old(Kept(backups[..maxBackups - 1]) + Lines(current))
      ensures ok ==> Lines(current) == [] && Retained() == old(Kept(backups[..maxBackups - 1]) + Lines(current))
    {
      hide IsSuffix, FileOk, Kept;
      var before := Retained();
      WholeIsSuffix(before);
      ok := CloseLocked(steps > 0);
      if !ok {
        return;
      }
      if steps == 1 {
        return false;
      }
      RemoveOldest();
      ok := ShiftBackups(steps - 2);
      if !ok {
        return;
      }
      if steps == maxBackups + 1 {
        return false;
      }
      CurrentToFirst();
      ok := Open(steps > maxBackups + 2);
    }

    method RemoveOldest()
      requires Valid() && !isOpen
      modifies this`backups
      ensures Valid() && backups[maxBackups - 1].None? && IsSuffix(Retained(), old(Retained()))
      ensures Retained() == old(Kept(backups[..maxBackups - 1]) + Lines(current))
    {
      hide IsSuffix, Kept;
      var oldest := Lines(backups[maxBackups - 1]);
      ghost var kept := Kept(backups[..maxBackups - 1]);
      KeptRemovesOldest(backups);
      assert oldest + kept + Lines(current) == oldest + (kept + Lines(current));
      DropFront(oldest, kept + Lines(current));
      SuffixOfSuffix(kept + Lines(current), Retained(), history);
      backups := backups[maxBackups - 1 := None];
    }

    method CurrentToFirst()
      requires Valid() && !isOpen && backups[0].None?
      modifies this`backups, this`current
      ensures Valid() && Lines(current) == [] && Retained() == old(Retained())
    {
      if current.Some? {
        FirstBackupIsNewest(backups, current);
        backups := backups[0 := current];
        current := None;
      }
    }

    /** The record goes into the current file without a rotation. */
    ghost predicate Fits(length: nat)
      reads this
    {
      currentSize <= 0 || currentSize + length + 1 <= maxBytes
    }

    /** A record fits an empty file, and any other that it does not push past the limit; then nothing is dropped. */
    lemma FitsMeans(length: nat)
      requires Valid() && isOpen
      ensures Fits(length) <==> Lines(current) == [] || Size(Lines(current)) + length + 1 <= maxBytes
      ensures Fits(length) ==> KeptByAppend(length) == Kept(backups) + Lines(current)
    {
      OnlyEmptyHasNoSize(Lines(current));
    }

    /** The records an append keeps before its own: all of them, or all but the oldest backup when it rotates. */
    ghost function KeptByAppend(length: nat): seq<Line<T>>
      requires Valid()
      reads this
    {
      if Fits(length) then Retained() else Kept(backups[..maxBackups - 1]) + Lines(current)
    }

    /** Appends one record; steps counts the file operations that succeed before one fails. */
    method AppendLine(line: Line<T>, steps: nat) returns (ok: bool)
      requires Valid()
      modifies this
      ensures Valid()
      ensures ok ==>
                old(isOpen) && history == old(history) + [line] && Retained() == old(KeptByAppend(line.length)) + [line]
      ensures !ok ==> history == old(history) && IsSuffix(Retained(), old(Retained()))
      ensures !ok ==> Retained() == old(Retained()) || Retained() == old(KeptByAppend(line.length))
      ensures old(isOpen) && maxBackups + 4 <= steps ==> ok
    {
      if !isOpen {
        WholeIsSuffix(Retained());
        return false;
      }
      var writeOk := steps > 0;
      ghost var before := KeptByAppend(line.length);
      if currentSize > 0 && currentSize + line.length + 1 > maxBytes {
        ok := RotateLocked(steps);
        if !ok {
          return;
        }
        writeOk := steps > maxBackups + 3;
      } else {
        WholeIsSuffix(Retained());
      }
      if !writeOk {
        return false;
      }
      WriteLine(line, before);
      ok := true;
    }

    method WriteLine(line: Line<T>, ghost before: seq<Line<T>>)
      requires Valid() && isOpen && before == Retained()
      requires Size(current.value) == 0 || Size(current.value) + line.length + 1 <= maxBytes
      modifies this`current, this`currentSize, this`history
      ensures Valid() && isOpen && history == old(history) + [line] && Retained() == before + [line]
    {
      hide IsSuffix, Kept;
      var grown := current.value + [line];
      assert grown[..|grown| - 1] == current.value;
      SuffixGrows(Retained(), history, line);
      assert Kept(backups) + grown == Retained() + [line];
      OnlyEmptyHasNoSize(current.value);
      current := Some(grown);
      currentSize := currentSize + line.length + 1;
      history := history + [line];
    }
  }

  /** A file is as long as its lines with their newlines. */
  lemma {:induction false} SizeIsTotal<T>(a: File<T>, b: File<T>)
    ensures Size(a + b) == Size(a) + Size(b)
    ensures |a| == 1 ==> Size(a) == a[0].length + 1
  {
    if b == [] {
      assert a + b == a;
    } else {
      var n := |b| - 1;
      assert (a + b)[..|a + b| - 1] == a + b[..n];
      SizeIsTotal(a, b[..n]);
    }
  }

  lemma OnlyEmptyHasNoSize<T>(file: File<T>)
    ensures Size(file) == 0 <==> file == []
  {
  }

  lemma WholeIsSuffix<T>(s: seq<T>)
    ensures IsSuffix(s, s)
  {
  }

  lemma FirstBackupIsNewest<T>(backups: seq<Option<File<T>>>, current: Option<File<T>>)
    requires backups != [] && backups[0].None?
    ensures Kept(backups[0 := current]) == Kept(backups) + Lines(current)
  {
    assert backups[0 := current][1..] == backups[1..];
  }

  lemma {:induction false} NothingKept<T>(backups: seq<Option<File<T>>>)
    requires forall i :: 0 <= i < |backups| ==> backups[i].None?
    ensures Kept(backups) == []
  {
    if backups != [] {
      NothingKept(backups[1..]);
    }
  }
}
