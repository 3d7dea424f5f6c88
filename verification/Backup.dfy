/** Restoring a database from a backup, and pruning old backups. */
module Backup {
  import opened Wrappers
  import opened Seqs
  import opened Text

  type Files = map<string, string>

  // ---- restore ----

  /** How a file copy ends; one cut off has already truncated and partly written its destination. */
  datatype CopyFault = Done | NotStarted | CutOff(written: nat)

  /** What the outside answers: integrity of the backup, the lock, the two copies, integrity of the restored file. */
  datatype Answers = Answers(backupSound: bool, lockFree: bool, snapshot: CopyFault, copy: CopyFault, restoredSound: bool)

  datatype Verdict = Refused | DryRunPassed | Failed | Restored

  datatype Outcome = Outcome(files: Files, trace: seq<Files>, verdict: Verdict)

  function PreRestore(db: string): string {
    db + ".pre_restore"
  }

  /** What a finished copy writes: the source's content, or nothing when a file is copied onto itself. */
  function CopiedContent(files: Files, from: string, to: string): string
    requires from in files
  {
    if from == to then "" else files[from]
  }

  function Copy(files: Files, from: string, to: string, fault: CopyFault): Files
    requires from in files
  {
    var content := CopiedContent(files, from, to);
    match fault
    case Done => files[to := content]
    case NotStarted => files
    case CutOff(n) => files[to := if n < |content| then content[..n] else content]
  }

  function CopyBackup(files: Files, db: string, from: string, a: Answers): Outcome
    requires from in files
  {
    var copied := Copy(files, from, db, a.copy);
    Outcome(copied, [copied], if a.copy == Done && a.restoredSound then Restored else Failed)
  }

  function Restore(files: Files, db: string, from: string, confirm: bool, dryRun: bool, a: Answers): Outcome {
    if (!confirm && !dryRun) || from !in files || !a.backupSound || (db in files && !a.lockFree) then Outcome(files, [], Refused)
    else if dryRun then Outcome(files, [], DryRunPassed)
    else if db !in files then CopyBackup(files, db, from, a)
    else
      var saved := Copy(files, db, PreRestore(db), a.snapshot);
      if a.snapshot != Done then Outcome(saved, [saved], Failed)
      else
        var rest := CopyBackup(saved, db, from, a);
        rest.(trace := [saved] + rest.trace)
  }

  lemma PreRestoreDiffers(db: string)
    ensures PreRestore(db) != db
  {
    assert |PreRestore(db)| == |db| + |".pre_restore"|;
  }

  /** The original content is in the database file or in its snapshot. */
  ghost predicate Kept(original: string, db: string, files: Files) {
    (db in files && files[db] == original) || (PreRestore(db) in files && files[PreRestore(db)] == original)
  }

  /**
   * The original is never lost: for all paths, even a backup that is the
   * database itself or its snapshot, every state that any failure can leave
   * still holds it. Only the database and its snapshot are ever written.
   */
  lemma OriginalIsNeverLost(files: Files, db: string, from: string, confirm: bool, dryRun: bool, a: Answers)
    requires db in files
    ensures var out := Restore(files, db, from, confirm, dryRun, a);
            && Kept(files[db], db, out.files)
            && (forall i | 0 <= i < |out.trace| :: Kept(files[db], db, out.trace[i]))
            && (forall p | p in files && p != db && p != PreRestore(db) :: p in out.files && out.files[p] == files[p])
  {
    PreRestoreDiffers(db);
  }

  /** Refusal and dry run write nothing; a restored database is preceded by a snapshot of the original. */
  lemma RestoreVerdicts(files: Files, db: string, from: string, confirm: bool, dryRun: bool, a: Answers)
    ensures var out := Restore(files, db, from, confirm, dryRun, a);
            && (out.verdict.Refused? || out.verdict.DryRunPassed? <==> out.trace == [])
            && (out.trace == [] ==> out.files == files)
            && (out.verdict.Restored? && db in files ==>
                  PreRestore(db) in out.files && out.files[PreRestore(db)] == files[db])
            && (dryRun ==> out.trace == [])
  {
    PreRestoreDiffers(db);
  }

  /**
   * When a restore writes and how it ends: it writes exactly when it is
   * confirmed and not a dry run, the backup is there and sound, and the database, if there is
   * one, is not locked. Every later step must succeed for it to report success.
   */
  lemma RestoreExact(files: Files, db: string, from: string, confirm: bool, dryRun: bool, a: Answers)
    ensures var out := Restore(files, db, from, confirm, dryRun, a);
            var ready := from in files && a.backupSound && (db in files ==> a.lockFree);
            && (out.trace != [] <==> confirm && !dryRun && ready)
            && (out.verdict.Refused? <==> (!confirm && !dryRun) || !ready)
            && (out.verdict.DryRunPassed? <==> dryRun && ready)
            && (out.verdict.Restored? <==>
                  confirm && !dryRun && ready && (db in files ==> a.snapshot.Done?) && a.copy.Done? && a.restoredSound)
            && (out.trace != [] ==> out.files == out.trace[|out.trace| - 1])
            && (db in files && !a.snapshot.Done? && out.trace != [] ==> db in out.files && out.files[db] == files[db])
            && (out.verdict.Restored? && db in files ==>
                  db + ".pre_restore" in out.files && out.files[db + ".pre_restore"] == files[db])
  {
    PreRestoreDiffers(db);
  }

  /** The backup is neither the database nor the file its snapshot overwrites. */
  predicate BackupIsApart(files: Files, db: string, from: string) {
    from != db && (from != PreRestore(db) || db !in files)
  }

  /**
   * A restore that reports success has put the backup's content in place
   * exactly when the backup is apart, or its content happens to be what the
   * overlap leaves: the original, or nothing.
   */
  lemma RestoredContentExact(files: Files, db: string, from: string, confirm: bool, dryRun: bool, a: Answers)
    requires Restore(files, db, from, confirm, dryRun, a).verdict.Restored?
    ensures var out := Restore(files, db, from, confirm, dryRun, a);
            && from in files && db in out.files
            && (out.files[db] == files[from] <==>
                  || BackupIsApart(files, db, from)
                  || (from == db && files[from] == "")
                  || (from == PreRestore(db) && db in files && files[from] == files[db]))
  {
    PreRestoreDiffers(db);
  }

  /** Restoring from the snapshot file of an earlier restore loses that backup and still reports success. */
  lemma SnapshotAsBackupIsOverwritten(db: string, current: string, backup: string)
    requires current != backup
    ensures var files: Files := map[db := current, PreRestore(db) := backup];
            var out := Restore(files, db, PreRestore(db), true, false, Answers(true, true, Done, Done, true));
            && out.verdict.Restored? && out.files[db] == current
            && forall p | p in out.files :: out.files[p] != backup
  {
    PreRestoreDiffers(db);
  }

  /** Restoring a database from itself empties it and still reports success; only the snapshot has the content. */
  lemma DatabaseAsBackupIsEmptied(db: string, current: string)
    ensures var files: Files := map[db := current];
            var out := Restore(files, db, db, true, false, Answers(true, true, Done, Done, true));
            && out.verdict.Restored? && out.files[db] == "" && out.files[PreRestore(db)] == current
  {
    PreRestoreDiffers(db);
  }

  /** The files of a machine, changed one copy at a time. */
  class FileSystem {
    var files: Files
    /** The files after each copy, finished or not. */
    ghost var history: seq<Files>

    constructor (files: Files)
      ensures this.files == files && history == []
    {
      this.files, history := files, [];
    }

    method CopyFile(from: string, to: string, fault: CopyFault) returns (ok: bool)
      requires from in files
      modifies this
      ensures files == Copy(old(files), from, to, fault) && ok == fault.Done?
      ensures history == old(history) + [files]
    {
      var content := if from == to then "" else files[from];
      match fault {
        case Done =>
          files := files[to := content];
        case NotStarted =>
        case CutOff(n) =>
          files := files[to := if n < |content| then content[..n] else content];
      }
      ok := fault.Done?;
      history := history + [files];
    }

    /** Check everything first; snapshot the current database; copy the backup over it; verify. */
    method BackupRestore(db: string, from: string, confirm: bool, dryRun: bool, a: Answers) returns (verdict: Verdict)
      modifies this
      ensures var out := Restore(old(files), db, from, confirm, dryRun, a);
              files == out.files && verdict == out.verdict && history == old(history) + out.trace
    {
      if !confirm && !dryRun {
        return Refused;
      }
      if from !in files {
        return Refused;
      }
      if !a.backupSound {
        return Refused;
      }
      if db in files && !a.lockFree {
        return Refused;
      }
      if dryRun {
        return DryRunPassed;
      }
      if db in files {
        var saved := CopyFile(db, PreRestore(db), a.snapshot);
        if !saved {
          return Failed;
        }
      }
      var copied := CopyFile(from, db, a.copy);
      if !copied || !a.restoredSound {
        return Failed;
      }
      return Restored;
    }
  }

  // ---- retention ----

  /** A directory entry: modification time in seconds since the epoch, None when it cannot be read. */
  datatype Entry = Entry(name: string, regular: bool, mtime: Option<nat>)

  /** Subtraction that stops at zero, on the seconds of the clock. */
  function Cutoff(now: nat, retentionDays: nat): nat {
    var span := retentionDays * 24 * 60 * 60;
    if now < span then 0 else now - span
  }

  function BackupName(db: string, timestamp: nat): string {
    db + "_" + Decimal(timestamp) + ".db"
  }

  predicate EndsWith(s: string, suffix: string) {
    |s| >= |suffix| && s[|s| - |suffix|..] == suffix
  }

  predicate NamedFor(db: string, name: string) {
    db + "_" <= name && EndsWith(name, ".db")
  }

  predicate Prunable(e: Entry, db: string, now: nat, retentionDays: nat, current: string) {
    && e.regular && e.name != current && NamedFor(db, e.name)
    && e.mtime.Some? && e.mtime.value < Cutoff(now, retentionDays)
  }

  /** A longer retention never deletes more. */
  lemma LongerRetentionKeepsMore(e: Entry, db: string, now: nat, shorter: nat, longer: nat, current: string)
    requires shorter <= longer && Prunable(e, db, now, longer, current)
    ensures Prunable(e, db, now, shorter, current)
  {
  }

  /** Exactly the regular files named for the database, other than the new backup, that are older than the retention. */
  lemma PrunableExact(e: Entry, db: string, now: nat, retentionDays: nat, current: string)
    ensures Prunable(e, db, now, retentionDays, current) <==>
              && e.regular && e.name != current && NamedFor(db, e.name)
              && e.mtime.Some? && e.mtime.value + retentionDays * 86_400 < now
  {
  }

  /** A name matches exactly when something stands between the database's name with an underscore and the suffix. */
  lemma NamedForExact(db: string, name: string)
    ensures NamedFor(db, name) <==> exists middle: string :: name == db + "_" + middle + ".db"
  {
    if NamedFor(db, name) {
      var middle := MiddleOf(db, name);
    } else if exists middle: string :: name == db + "_" + middle + ".db" {
      var middle: string :| name == db + "_" + middle + ".db";
      MiddleMatches(db, middle);
    }
  }

  lemma MiddleOf(db: string, name: string) returns (middle: string)
    requires NamedFor(db, name)
    ensures name == db + "_" + middle + ".db"
  {
    var n := |name| - 3;
    var suffix := name[n..];
    assert suffix == ".db" && suffix[0] == '.' && suffix[1] == 'd' && suffix[2] == 'b';
    assert name[n] == '.' && name[n + 1] == 'd' && name[n + 2] == 'b';
    assert name[..|db| + 1] == db + "_" && name[|db|] == '_';
    assert |db| + 1 <= n;
    middle := name[|db| + 1..n];
  }

  lemma MiddleMatches(db: string, middle: string)
    ensures NamedFor(db, db + "_" + middle + ".db")
  {
    var name := db + "_" + middle + ".db";
    assert name[..|db| + 1] == db + "_";
    assert name[|name| - 3..] == ".db";
  }

  lemma DecimalHasNoUnderscore(n: nat)
    ensures '_' !in Decimal(n) + ".db"
  {
    var d := Decimal(n);
    forall i | 0 <= i < |d|
      ensures d[i] != '_'
    {
      assert IsDigit(d[i]);
    }
  }

  /**
   * Which databases' backups pruning for one database can touch: its own, and
   * those of databases whose name starts with its name and an underscore.
   */
  lemma PrunedNamesExact(db: string, other: string, timestamp: nat)
    ensures NamedFor(db, BackupName(other, timestamp)) <==> other == db || db + "_" <= other
  {
    var name, tail := BackupName(other, timestamp), Decimal(timestamp) + ".db";
    assert name == other + "_" + tail;
    assert name[|name| - 3..] == ".db";
    DecimalHasNoUnderscore(timestamp);
    if db + "_" <= name {
      assert name[|db|] == '_' by { assert (db + "_")[|db|] == name[|db|]; }
      forall k | |other| < k < |name|
        ensures name[k] != '_'
      {
        assert name[k] == tail[k - |other| - 1];
      }
      assert name[..|db|] == db;
      if |db| == |other| {
        assert other == name[..|other|];
      } else {
        assert db + "_" == name[..|db| + 1] == other[..|db| + 1];
      }
    }
    if other == db {
      assert name[..|db| + 1] == db + "_";
    } else if db + "_" <= other {
      assert name[..|db| + 1] == other[..|db| + 1];
    }
  }

  /** The entries left when all have been looked at and no deletion failed. */
  function Remaining(entries: seq<Entry>, db: string, now: nat, retentionDays: nat, current: string): seq<Entry> {
    Filter((e: Entry) => !Prunable(e, db, now, retentionDays, current), entries)
  }

  /**
   * Pruning later, or with a shorter retention, does not depend on what was
   * pruned before; pruning again at once deletes nothing more.
   */
  lemma {:induction false} PruningComposes(entries: seq<Entry>, db: string, now: nat, days: nat,
                                           later: nat, fewer: nat, current: string)
    requires Cutoff(now, days) <= Cutoff(later, fewer)
    ensures Remaining(Remaining(entries, db, now, days, current), db, later, fewer, current)
         == Remaining(entries, db, later, fewer, current)
  {
    if entries != [] {
      var e, rest := entries[0], Remaining(entries[1..], db, now, days, current);
      PruningComposes(entries[1..], db, now, days, later, fewer, current);
      assert ([e] + rest)[1..] == rest && ([] + rest) == rest;
      assert Prunable(e, db, now, days, current) ==> Prunable(e, db, later, fewer, current);
    }
  }

  /** What may fail while a directory is pruned: listing its next entry, or deleting a file. */
  datatype PruneFaults = PruneFaults(listing: nat -> bool, removal: string -> bool)

  /** Pruning stops at position i with an error; the position after the last entry is that of the end of the listing. */
  predicate StopsAt(entries: seq<Entry>, prunable: Entry -> bool, faults: PruneFaults, i: nat) {
    faults.listing(i) || (i < |entries| && prunable(entries[i]) && faults.removal(entries[i].name))
  }

  /** The first position from i on where pruning stops; without any, one past the end. */
  function FirstStop(entries: seq<Entry>, prunable: Entry -> bool, faults: PruneFaults, i: nat): (n: nat)
    ensures i <= |entries| ==> i <= n <= |entries| + 1
    decreases |entries| + 1 - i
  {
    if i > |entries| || StopsAt(entries, prunable, faults, i) then i else FirstStop(entries, prunable, faults, i + 1)
  }

  /** Pruning gets past every entry before its stop, and stops where listing fails or a file to prune cannot be deleted. */
  lemma {:induction false} FirstStopExact(entries: seq<Entry>, prunable: Entry -> bool, faults: PruneFaults, i: nat)
    requires i <= |entries| + 1
    ensures var n := FirstStop(entries, prunable, faults, i);
            && i <= n <= |entries| + 1
            && (forall j | i <= j < n ::
                  !faults.listing(j) && (j < |entries| && prunable(entries[j]) ==> !faults.removal(entries[j].name)))
            && (n < |entries| ==> faults.listing(n) || (prunable(entries[n]) && faults.removal(entries[n].name)))
            && (n == |entries| ==> faults.listing(n))
    decreases |entries| + 1 - i
  {
    if i <= |entries| && !StopsAt(entries, prunable, faults, i) {
      FirstStopExact(entries, prunable, faults, i + 1);
    }
  }

  /** The directory after its first n entries have been looked at. */
  function PrunedUpTo(entries: seq<Entry>, keep: Entry -> bool, n: nat): seq<Entry> {
    if n < |entries| then Filter(keep, entries[..n]) + entries[n..] else Filter(keep, entries)
  }

  /** How many of the first n entries are kept: the place in the directory of the next one. */
  function KeptBefore(entries: seq<Entry>, keep: Entry -> bool, n: nat): nat
    requires n <= |entries|
  {
    |Filter(keep, entries[..n])|
  }

  lemma PruneStep(entries: seq<Entry>, keep: Entry -> bool, n: nat)
    requires n < |entries|
    ensures var k, now := KeptBefore(entries, keep, n), PrunedUpTo(entries, keep, n);
            && k < |now| && k <= n
            && PrunedUpTo(entries, keep, n + 1) == (if keep(entries[n]) then now else now[..k] + now[k + 1..])
            && KeptBefore(entries, keep, n + 1) == if keep(entries[n]) then k + 1 else k
  {
    FilterNext(keep, entries, n);
    PrunedIsFront(entries, keep, n);
    PrunedIsFront(entries, keep, n + 1);
    assert entries[n..] == [entries[n]] + entries[n + 1..];
    CutOut(Filter(keep, entries[..n]), entries[n], entries[n + 1..]);
  }

  lemma PrunedIsFront(entries: seq<Entry>, keep: Entry -> bool, n: nat)
    requires n <= |entries|
    ensures PrunedUpTo(entries, keep, n) == Filter(keep, entries[..n]) + entries[n..]
  {
    if n == |entries| {
      assert entries[..n] == entries && entries[n..] == [];
    }
  }

  lemma FilterNext(keep: Entry -> bool, entries: seq<Entry>, n: nat)
    requires n < |entries|
    ensures Filter(keep, entries[..n + 1]) == Filter(keep, entries[..n]) + (if keep(entries[n]) then [entries[n]] else [])
    ensures |Filter(keep, entries[..n])| <= n
  {
    assert entries[..n + 1] == entries[..n] + [entries[n]];
    FilterConcat(keep, entries[..n], [entries[n]]);
    assert [entries[n]][1..] == [];
    FilterLength(keep, entries[..n]);
  }

  lemma CutOut(front: seq<Entry>, e: Entry, back: seq<Entry>)
    ensures var now := front + ([e] + back);
            now == front + [e] + back && now[..|front|] + now[|front| + 1..] == front + back
  {
  }

  lemma {:induction false} FilterLength<T>(p: T -> bool, s: seq<T>)
    ensures |Filter(p, s)| <= |s|
  {
    if s != [] {
      FilterLength(p, s[1..]);
    }
  }

  /** Wherever pruning stops, nothing is lost that is to be kept, and past the end nothing else is left. */
  lemma PrunedUpToKeeps(entries: seq<Entry>, keep: Entry -> bool, n: nat)
    ensures forall e | e in entries && keep(e) :: e in PrunedUpTo(entries, keep, n)
    ensures forall e | e in PrunedUpTo(entries, keep, n) :: e in entries && (n >= |entries| ==> keep(e))
    ensures forall i | n <= i < |entries| :: entries[i] in PrunedUpTo(entries, keep, n)
    ensures forall e | e in PrunedUpTo(entries, keep, n) :: keep(e) || (n < |entries| && e in entries[n..])
  {
    var looked := if n < |entries| then entries[..n] else entries;
    assert n < |entries| ==> entries == looked + entries[n..];
    forall e | e in looked && keep(e)
      ensures e in Filter(keep, looked)
    {
      FilterCount(keep, looked, e);
      assert e in multiset(looked);
      assert e in multiset(Filter(keep, looked));
    }
  }

  /** A directory of backups; entries are deleted while it is listed. */
  class Directory {
    var entries: seq<Entry>

    constructor (entries: seq<Entry>)
      ensures this.entries == entries
    {
      this.entries := entries;
    }

    /**
     * Deletes the prunable entries, up to the first that cannot be listed or
     * deleted, and counts them. The count is reported only when nothing failed.
     */
    method PruneOldBackups(db: string, retentionDays: nat, now: nat, current: string, faults: PruneFaults)
      returns (pruned: Option<nat>)
      modifies this
      ensures var before := old(entries);
              var prunable := (e: Entry) => Prunable(e, db, now, retentionDays, current);
              var n := FirstStop(before, prunable, faults, 0);
              && entries == PrunedUpTo(before, (e: Entry) => !Prunable(e, db, now, retentionDays, current), n)
              && pruned == (if n <= |before| then None else Some(|before| - |entries|))
    {
      var listing := entries;
      var count, kept := 0, 0;
      var prunable := (e: Entry) => Prunable(e, db, now, retentionDays, current);
      ghost var keep := (e: Entry) => !Prunable(e, db, now, retentionDays, current);
      assert listing[..0] == [] && listing[0..] == listing;
      for i := 0 to |listing|
        invariant entries == PrunedUpTo(listing, keep, i)
        invariant kept == KeptBefore(listing, keep, i) && count == i - kept
        invariant FirstStop(listing, prunable, faults, 0) == FirstStop(listing, prunable, faults, i)
      {
        PruneStep(listing, keep, i);
        if faults.listing(i) {
          return None;
        }
        if prunable(listing[i]) {
          if faults.removal(listing[i].name) {
            return None;
          }
          RemoveFile(kept);
          count := count + 1;
        } else {
          kept := kept + 1;
        }
      }
      assert listing[..|listing|] == listing;
      if faults.listing(|listing|) {
        return None;
      }
      return Some(count);
    }

    method RemoveFile(k: nat)
      requires k < |entries|
      modifies this
      ensures entries == old(entries)[..k] + old(entries)[k + 1..]
    {
      entries := entries[..k] + entries[k + 1..];
    }
  }
}
