/** The state file and its backup, with what each may read after a power loss. */
module StateFiles {
  import opened Text
  import opened Orphans

  type File = Option<Snapshot>

  /**
   * The visible directory entries, and for each entry every content a power loss may leave behind:
   * a rename is visible at once but settles only when the directory has been synced.
   */
  datatype Disk = Disk(primary: File, backup: File, primaryMaybe: set<File>, backupMaybe: set<File>)

  const EMPTY_DISK := Disk(None, None, {None}, {None})

  predicate ValidDisk(disk: Disk)
  {
    disk.primary in disk.primaryMaybe && disk.backup in disk.backupMaybe
  }

  /** atomicWrite failed before the rename, failed after it, or succeeded. */
  datatype WriteOutcome = Unchanged | RenamedUnsynced | Synced

  datatype Entry = Primary | Backup

  function AtomicWrite(disk: Disk, entry: Entry, file: File, outcome: WriteOutcome): Disk
  {
    var renamed := match entry
      case Primary => disk.(primary := file, primaryMaybe := disk.primaryMaybe + {file})
      case Backup => disk.(backup := file, backupMaybe := disk.backupMaybe + {file});
    match outcome
    case Unchanged => disk
    case RenamedUnsynced => renamed
    case Synced => renamed.(primaryMaybe := {renamed.primary}, backupMaybe := {renamed.backup})
  }

  /** What the environment decides about one write: validation and opening, reading back, both renames. */
  datatype WriteEnv = WriteEnv(opens: bool, readable: bool, backup: WriteOutcome, primary: WriteOutcome)

  predicate SameContent(a: Snapshot, b: Snapshot)
  {
    a.devices == b.devices && a.orphans == b.orphans
  }

  function Write(disk: Disk, snapshot: Snapshot, env: WriteEnv): (r: (Disk, bool))
  {
    if !env.opens then (disk, false)
    else if disk.primary.Some? && env.readable then
      var saved := AtomicWrite(disk, Backup, disk.primary, env.backup);
      if !env.backup.Synced? then (saved, false)
      else if SameContent(snapshot, disk.primary.value) then (saved, true)
      else (AtomicWrite(saved, Primary, Some(snapshot), env.primary), env.primary.Synced?)
    else (AtomicWrite(disk, Primary, Some(snapshot), env.primary), env.primary.Synced?)
  }

  /**
   * A write adds nothing but its own snapshot to what may survive; an acknowledged write is settled,
   * also when the unchanged primary was not rewritten, because the backup's sync covers the directory.
   */
  lemma WriteSettles(disk: Disk, snapshot: Snapshot, env: WriteEnv)
    requires ValidDisk(disk)
    ensures var (after, ok) := Write(disk, snapshot, env);
            && ValidDisk(after)
            && after.primaryMaybe <= disk.primaryMaybe + {Some(snapshot)}
            && after.backupMaybe <= disk.backupMaybe + {disk.primary}
            && (ok ==> after.primaryMaybe == {after.primary} && after.primary.Some?
                       && SameContent(after.primary.value, snapshot))
            && (!ok && !env.primary.RenamedUnsynced? ==> after.primaryMaybe <= disk.primaryMaybe)
  {
  }

  /**
   * One write, exactly: the readable primary becomes the backup first and is only then replaced, unless it has the
   * content already; a file that could not be read is replaced without a backup. It succeeds when every step was synced.
   */
  lemma WriteExactly(disk: Disk, snapshot: Snapshot, env: WriteEnv)
    ensures var (after, ok) := Write(disk, snapshot, env);
            var saves := env.opens && disk.primary.Some? && env.readable;
            var same := saves && SameContent(snapshot, disk.primary.value);
            var renews := env.opens && (saves ==> env.backup == Synced) && !same;
            && (ok <==> env.opens && (saves ==> env.backup == Synced) && (same || env.primary == Synced))
            && after.primary == (if renews && env.primary != Unchanged then Some(snapshot) else disk.primary)
            && after.backup == (if saves && env.backup != Unchanged then disk.primary else disk.backup)
            && (ok ==> after.primaryMaybe == {after.primary} && after.backupMaybe == {after.backup})
            && (!env.opens ==> after == disk)
            && (saves && env.backup == RenamedUnsynced ==>
                  after.primaryMaybe == disk.primaryMaybe && after.backupMaybe == disk.backupMaybe + {disk.primary})
            && (saves && env.backup == Unchanged ==> after == disk)
            && (renews && env.primary == RenamedUnsynced ==>
                  && after.primaryMaybe == (if saves then {disk.primary} else disk.primaryMaybe) + {Some(snapshot)}
                  && after.backupMaybe == if saves then {disk.primary} else disk.backupMaybe)
            && (renews && env.primary == Unchanged ==>
                  && after.primaryMaybe == (if saves then {disk.primary} else disk.primaryMaybe)
                  && after.backupMaybe == if saves then {disk.primary} else disk.backupMaybe)
  {
  }

  lemma SameContentExactly(a: Snapshot, b: Snapshot)
    ensures SameContent(a, b) <==> a == b.(generatedAt := a.generatedAt)
  {
  }

  /** How a read of the backup goes; a file that cannot be read differs from one that does not decode. */
  datatype Access = Usable | Unreadable | Corrupt

  /**
   * The file a start reads, or None when it refuses to start. A missing primary counts as a first
   * start, with nothing, also when a backup is there and cannot be read.
   */
  function ReadBack(disk: Disk, readPrimary: bool, readBackup: Access): Option<File>
  {
    if disk.primary.Some? && readPrimary then Some(disk.primary)
    else if disk.backup.Some? && readBackup.Usable? then Some(disk.backup)
    else if disk.primary.None? && (disk.backup.None? || readBackup.Unreadable?) then Some(None)
    else None
  }
}
