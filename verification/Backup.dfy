/** Backing a database up to one file and restoring it. The disk is a map from paths to files whose
    every intermediate state is kept, so that a property of all of them is a property of a crash at
    any moment. Any operation may fail. */
module Backup {
  import opened Wrappers

  type Path = string

  /** The logical contents of a database: a first state and the committed frames applied to it since. */
  datatype Contents = Contents(base: nat, applied: seq<nat>)

  /** Replaying a write-ahead log. */
  function Replayed(contents: Contents, frames: seq<nat>): Contents {
    if frames == [] then contents else contents.(applied := contents.applied + frames)
  }

  /** Replaying a log in two parts is replaying it whole. */
  lemma ReplayedInParts(contents: Contents, frames: seq<nat>, n: nat)
    requires n <= |frames|
    ensures Replayed(Replayed(contents, frames[..n]), frames[n..]) == Replayed(contents, frames)
    ensures frames != [] ==> Replayed(contents, frames) != contents
  {
    assert contents.applied + frames[..n] + frames[n..] == contents.applied + frames;
    assert |contents.applied + frames| == |contents.applied| + |frames|;
  }

  /** `usable` stands for everything validation looks at inside a database file. */
  datatype File = Database(contents: Contents, usable: bool) | Wal(frames: seq<nat>) | Junk

  type Files = map<Path, File>

  /** What may go wrong outside the program: opening the backup or the probe, the checkpoint, a copy of the
      database at once or half way, the copy of the backup, the rename, a removal, the final reopening. */
  datatype Fault =
    | OpenFails | ProbeFails | CheckpointFails | VacuumFails | VacuumStops
    | CopyFails | RenameFails | RemoveFails | ReopenFails

  datatype DbError = BackupDestinationExists | InvalidBackup | DatabaseInUse | Io | Query | Connect

  // ----- Paths -----

  function WalPath(db: Path): Path { db + "-wal" }

  function ShmPath(db: Path): Path { db + "-shm" }

  function TmpPath(db: Path): Path { db + ".restoring-tmp" }

  function SafetyPath(db: Path, stamp: string): Path { db + (".pre-restore-" + stamp + ".bak") }

  lemma Siblings(db: Path, a: string, b: string)
    requires |a| >= 2 && |b| >= 2 && (a[0] != b[0] || a[1] != b[1])
    ensures db + a != db + b && db + a != db && db + b != db
  {
    var i := if a[0] != b[0] then 0 else 1;
    assert (db + a)[|db| + i] == a[i] && (db + b)[|db| + i] == b[i];
    assert |db + a| != |db| && |db + b| != |db|;
  }

  /** The file, its sidecars, the scratch copy and the safety copy are five different files. */
  lemma PathsAreDistinct(db: Path, stamp: string)
    ensures db != WalPath(db) && db != ShmPath(db) && db != TmpPath(db) && db != SafetyPath(db, stamp)
    ensures WalPath(db) != ShmPath(db) && WalPath(db) != TmpPath(db) && WalPath(db) != SafetyPath(db, stamp)
    ensures ShmPath(db) != TmpPath(db) && ShmPath(db) != SafetyPath(db, stamp)
    ensures TmpPath(db) != SafetyPath(db, stamp)
  {
    var safety := ".pre-restore-" + stamp + ".bak";
    Siblings(db, "-wal", "-shm");
    Siblings(db, "-wal", ".restoring-tmp");
    Siblings(db, "-wal", safety);
    Siblings(db, "-shm", ".restoring-tmp");
    Siblings(db, "-shm", safety);
    Siblings(db, ".restoring-tmp", safety);
  }

  // ----- What opening a path finds -----

  function Frames(files: Files, db: Path): seq<nat> {
    if WalPath(db) in files && files[WalPath(db)].Wal? then files[WalPath(db)].frames else []
  }

  /** Opening a database replays whatever log lies beside it. */
  function Opened(files: Files, db: Path): Option<Contents> {
    if db in files && files[db].Database? then Some(Replayed(files[db].contents, Frames(files, db))) else None
  }

  predicate IsUsable(files: Files, path: Path) {
    path in files && files[path].Database? && files[path].usable
  }

  // ----- Single changes of the disk -----

  /** A checkpoint that has moved the first `n` frames of the log into the main file. The connection that
      runs it uses the shared-memory file as its index, whatever was in it. */
  function Folded(files: Files, db: Path, n: nat): Files
    requires Opened(files, db).Some? && n <= |Frames(files, db)|
  {
    var frames := Frames(files, db);
    files[db := Database(Replayed(files[db].contents, frames[..n]), files[db].usable)]
         [WalPath(db) := Wal(frames[n..])]
         [ShmPath(db) := Junk]
  }

  /** A truncating checkpoint moves the whole log into the main file and leaves an empty log. */
  function Checkpointed(files: Files, db: Path): Files
    requires Opened(files, db).Some?
  {
    Folded(files, db, |Frames(files, db)|)
  }

  /** However far a checkpoint gets, the database opens as before. */
  lemma FoldingKeepsContents(files: Files, db: Path, n: nat)
    requires Opened(files, db).Some? && n <= |Frames(files, db)|
    ensures Opened(Folded(files, db, n), db) == Opened(files, db)
    ensures Frames(Folded(files, db, n), db) == Frames(files, db)[n..]
    ensures Opened(Checkpointed(files, db), db) == Opened(files, db) && Frames(Checkpointed(files, db), db) == []
    ensures Checkpointed(files, db)[db].contents == Opened(files, db).value
    ensures Kept(files, Folded(files, db, n), db, db) && Kept(files, Checkpointed(files, db), db, db)
  {
    PathsAreDistinct(db, "");
    var frames := Frames(files, db);
    ReplayedInParts(files[db].contents, frames, n);
    ReplayedInParts(files[db].contents, frames, |frames|);
    assert frames[..|frames|] == frames && frames[|frames|..] == [];
  }

  function Copied(files: Files, from: Path, to: Path): Files
    requires from in files
  {
    var started := files[to := Junk];
    started[to := started[from]]
  }

  function Renamed(files: Files, from: Path, to: Path): Files
    requires from in files
  {
    files[to := files[from]] - {from}
  }

  predicate SameAt(a: Files, b: Files, p: Path) {
    (p in a <==> p in b) && (p in a ==> a[p] == b[p])
  }

  /** Between two states the database keeps opening the same, and nothing but it, its sidecars and a new
      safety copy has changed. */
  ghost predicate Kept(was: Files, files: Files, db: Path, safety: Path) {
    && Opened(files, db) == Opened(was, db)
    && (IsUsable(was, db) <==> IsUsable(files, db))
    && (db in was <==> db in files)
    && forall p | p !in {db, WalPath(db), ShmPath(db)} && (p in was || p != safety) :: SameAt(files, was, p)
  }

  lemma KeptTwice(a: Files, b: Files, c: Files, db: Path, safety: Path)
    requires Kept(a, b, db, db) && Kept(b, c, db, safety)
    ensures Kept(a, c, db, safety)
  {
    forall p | p !in {db, WalPath(db), ShmPath(db)} && (p in a || p != safety) ensures SameAt(c, a, p) {
      assert SameAt(b, a, p);
      assert SameAt(c, b, p);
    }
  }

  /** A new file beside a database whose log is empty, and the removal of the sidecars, keep it. */
  lemma SafetyCopyKeeps(files: Files, db: Path, safety: Path, x: File)
    requires safety !in files && safety !in {db, WalPath(db), ShmPath(db)} && Frames(files, db) == []
    ensures Kept(files, files[safety := x], db, safety) && Frames(files[safety := x], db) == []
    ensures Kept(files, files[safety := x] - {WalPath(db), ShmPath(db)}, db, safety)
    ensures Frames(files[safety := x] - {WalPath(db), ShmPath(db)}, db) == []
  {
    PathsAreDistinct(db, "");
  }

  // ----- Crash safety -----

  /** What must hold after a crash at any moment of a restore: the path opens as the whole old
      database or as the whole backup, and the old contents are there or in the safety copy. */
  ghost predicate Safe(files: Files, db: Path, safety: Path, was: Option<Contents>, target: Contents) {
    && (Opened(files, db) == was || Opened(files, db) == Some(target))
    && (Opened(files, db) == was || was.None? || HoldsCopy(files, safety, was.value))
  }

  ghost predicate HoldsCopy(files: Files, path: Path, contents: Contents) {
    path in files && files[path].Database? && files[path].contents == contents
  }

  /** The old log is folded in and the old contents are copied, so that the backup can be moved in. */
  ghost predicate Ready(files: Files, db: Path, backup: Path, safety: Path, was: Option<Contents>, target: Contents) {
    && backup != TmpPath(db) && HoldsCopy(files, backup, target)
    && Opened(files, db) == was && Frames(files, db) == []
    && (was.Some? ==> HoldsCopy(files, safety, was.value))
  }

  /** The backup is in place, with no log to replay onto it, and the old contents are in the safety copy. */
  ghost predicate InPlace(files: Files, db: Path, safety: Path, was: Option<Contents>, target: Contents) {
    && Opened(files, db) == Some(target) && Frames(files, db) == []
    && (was.Some? ==> HoldsCopy(files, safety, was.value))
  }

  /** When a restore keeps every intermediate state safe: the backup is none of the files the restore
      itself overwrites, and no log is left over beside a missing database. */
  predicate Restorable(files: Files, db: Path, backup: Path) {
    && backup != TmpPath(db)
    && (if db in files then !IsSidecar(backup, db) else Frames(files, db) == [])
  }

  /** Whether the database can be copied beside itself under this name. */
  predicate SnapshotPossible(files: Files, db: Path, stamp: string) {
    IsUsable(files, db) && SafetyPath(db, stamp) !in files
  }

  /** What a restore needs of the disk and of other connections. */
  predicate RestorePossible(files: Files, db: Path, backup: Path, stamp: string, busy: bool) {
    IsUsable(files, backup) && (db in files ==> SnapshotPossible(files, db, stamp) && !busy)
  }

  /** Whether a backup to a new file and its restore under a name will both find what they need. */
  predicate CanRoundTrip(files: Files, db: Path, dest: Path, other: Path, stamp: string) {
    && IsUsable(files, db) && dest !in files && Restorable(files, other, dest)
    && dest !in {other, WalPath(other), ShmPath(other), SafetyPath(other, stamp)}
    && (other in files ==> SnapshotPossible(files, other, stamp))
  }

  /** Whether a restore can be started from here: the backup is usable and the condition holds. */
  predicate Resumable(files: Files, db: Path, backup: Path, target: Contents) {
    IsUsable(files, backup) && Restorable(files, db, backup) && Target(files, db, backup) == target
  }

  predicate IsSidecar(path: Path, db: Path) { path == WalPath(db) || path == ShmPath(db) }

  /** Whether the move and the removal of the sidecars leave a restore possible. */
  predicate CanResume(files: Files, db: Path, backup: Path, target: Contents) {
    Resumable(files, db, backup, target) && Frames(files, db) == [] && !IsSidecar(backup, db)
  }

  /** What keeps the database and the other files keeps the restore possible. */
  lemma KeptIsResumable(was: Files, files: Files, db: Path, safety: Path, backup: Path, target: Contents)
    requires Kept(was, files, db, safety) && Resumable(was, db, backup, target)
    requires db in was && safety != db
    ensures Resumable(files, db, backup, target)
  {
    if backup != db {
      assert SameAt(files, was, backup);
    }
  }

  /** The contents a restore puts in place. */
  function Target(files: Files, db: Path, backup: Path): Contents {
    if backup == db && Opened(files, db).Some? then Opened(files, db).value
    else if backup in files && files[backup].Database? then files[backup].contents
    else Contents(0, [])
  }

  /** What the database path holds right after the move, when every operation works. */
  function Installed(files: Files, db: Path, backup: Path): Files
    requires IsUsable(files, backup) && (db in files ==> Opened(files, db).Some?)
  {
    var ready := if db in files then Checkpointed(files, db) else files;
    PathsAreDistinct(db, "");
    Renamed(Copied(ready, backup, TmpPath(db)), TmpPath(db), db)
  }

  /** The condition is exact: at the moment of the move, the path opens as the backup if and only if
      the restore was `Restorable`. Otherwise the copy has truncated its own source, or opening the
      database has overwritten the backup, or a log that is not the backup's is replayed onto it. */
  lemma MoveIsExact(files: Files, db: Path, backup: Path)
    requires IsUsable(files, backup) && (db in files ==> Opened(files, db).Some?)
    ensures Opened(Installed(files, db, backup), db) == Some(Target(files, db, backup))
      <==> Restorable(files, db, backup)
  {
    PathsAreDistinct(db, "");
    var ready := if db in files then Checkpointed(files, db) else files;
    var contents := Target(files, db, backup);
    if db in files {
      FoldingKeepsContents(files, db, 0);
    }
    if db !in files && Frames(files, db) != [] && backup != TmpPath(db) {
      assert Opened(Installed(files, db, backup), db) == Some(Replayed(contents, Frames(files, db)));
      ReplayedInParts(contents, Frames(files, db), 0);
    }
  }

  /** What the copy and the move change: the scratch copy, and the database once it is replaced. */
  ghost predicate Moved(was: Files, files: Files, db: Path, backup: Path) {
    && (forall p | p != db && p != TmpPath(db) :: SameAt(files, was, p))
    && (backup != TmpPath(db) ==>
          SameAt(files, was, db) || (backup in was && db in files && files[db] == was[backup]))
  }

  /** Writing the scratch copy changes nothing that opens. */
  lemma ScratchStep(files: Files, db: Path, backup: Path, safety: Path, was: Option<Contents>, target: Contents,
                    x: File)
    requires safety != TmpPath(db)
    ensures Moved(files, files[TmpPath(db) := x], db, backup)
    ensures Ready(files, db, backup, safety, was, target) ==> Safe(files[TmpPath(db) := x], db, safety, was, target)
  {
    PathsAreDistinct(db, "");
  }

  /** Moving a complete scratch copy over the database puts the backup in place. */
  lemma MoveStep(files: Files, db: Path, backup: Path, safety: Path, was: Option<Contents>, target: Contents,
                 x: File)
    requires safety != TmpPath(db) && safety != db && backup in files && (backup != TmpPath(db) ==> x == files[backup])
    ensures var moved := Renamed(files[TmpPath(db) := x], TmpPath(db), db);
      && Moved(files, moved, db, backup)
      && (Ready(files, db, backup, safety, was, target) ==>
            InPlace(moved, db, safety, was, target) && Safe(moved, db, safety, was, target))
  {
    PathsAreDistinct(db, "");
  }

  lemma MovedIsResumable(was: Files, files: Files, db: Path, backup: Path, target: Contents)
    requires Moved(was, files, db, backup) && Resumable(was, db, backup, target) && Frames(was, db) == []
    requires !IsSidecar(backup, db)
    ensures Resumable(files, db, backup, target) && Frames(files, db) == []
  {
    PathsAreDistinct(db, "");
    assert SameAt(files, was, WalPath(db));
    assert backup != db ==> SameAt(files, was, backup);
  }

  /** What removing the sidecars changes. */
  ghost predicate Stripped(was: Files, files: Files, db: Path) {
    && (forall p | p != WalPath(db) && p != ShmPath(db) :: SameAt(files, was, p))
    && (WalPath(db) in files ==> WalPath(db) in was && files[WalPath(db)] == was[WalPath(db)])
  }

  lemma StripMore(was: Files, files: Files, db: Path, sidecar: Path)
    requires Stripped(was, files, db) && sidecar in {WalPath(db), ShmPath(db)}
    ensures Stripped(was, files - {sidecar}, db)
  {
    forall p | p != WalPath(db) && p != ShmPath(db) ensures SameAt(files - {sidecar}, was, p) {
      assert SameAt(files, was, p);
    }
  }

  lemma StrippedIsResumable(was: Files, files: Files, db: Path, backup: Path, target: Contents)
    requires Stripped(was, files, db) && Resumable(was, db, backup, target) && Frames(was, db) == []
    requires !IsSidecar(backup, db)
    ensures Resumable(files, db, backup, target)
  {
    PathsAreDistinct(db, "");
    assert SameAt(files, was, db);
    assert SameAt(files, was, backup);
  }

  /** After the move a restore can be started again, unless the backup stood where the restored database
      keeps its sidecars; that can only be when there was no database. */
  lemma ResumingIsExact(files: Files, db: Path, backup: Path)
    requires IsUsable(files, backup) && Restorable(files, db, backup) && (db in files ==> Opened(files, db).Some?)
    ensures Resumable(Installed(files, db, backup), db, backup, Target(files, db, backup))
      <==> !IsSidecar(backup, db)
  {
    PathsAreDistinct(db, "");
    MoveIsExact(files, db, backup);
    if db in files {
      FoldingKeepsContents(files, db, 0);
    }
  }

  class Disk {
    var files: Files
    // Every state of the disk so far, oldest first.
    ghost var states: seq<Files>

    constructor (files: Files)
      ensures this.files == files && states == [files]
    {
      this.files := files;
      states := [files];
    }

    /** One atomic change. */
    method Change(next: Files)
      modifies this
      ensures files == next && states == old(states) + [next]
    {
      files := next;
      states := states + [next];
    }

    /** Snapshots a database into a new single file, refusing to overwrite one. */
    method BackupTo(db: Path, dest: Path, faults: set<Fault>) returns (r: Result<(), DbError>)
      modifies this
      ensures old(states) <= states
      ensures forall i | |old(states)| <= i < |states| :: Opened(states[i], db) == Opened(old(files), db)
      ensures forall p | p != dest :: SameAt(files, old(files), p)
      ensures dest in old(files) ==> r == Err(BackupDestinationExists) && files == old(files)
      ensures r.Ok? <==> dest !in old(files) && Opened(old(files), db).Some? && IsUsable(old(files), db)
                         && VacuumFails !in faults && VacuumStops !in faults
      ensures r.Ok? ==> HoldsCopy(files, dest, Opened(old(files), db).value) && IsUsable(files, dest)
    {
      if dest in files {
        return Err(BackupDestinationExists);
      }
      if VacuumFails in faults || Opened(files, db).None? {
        return Err(Query);
      }
      Change(files[dest := Junk]);
      if VacuumStops in faults {
        return Err(Query);
      }
      Change(files[dest := Database(Opened(files, db).value, files[db].usable)]);
      if !IsUsable(files, dest) {
        return Err(InvalidBackup);
      }
      return Ok(());
    }

    /** Every state from the `n`-th on is safe. */
    ghost predicate SafeSince(n: nat, db: Path, safety: Path, was: Option<Contents>, target: Contents)
      reads this
    {
      n <= |states| && forall i | n <= i < |states| :: Safe(states[i], db, safety, was, target)
    }

    /** From every state since the `n`-th, the restore can be started again. */
    ghost predicate ResumableSince(n: nat, db: Path, backup: Path, target: Contents)
      reads this
    {
      n <= |states| && forall i | n <= i < |states| :: Resumable(states[i], db, backup, target)
    }

    /** A truncating checkpoint. One that meets another connection may have moved part of the log before
        it reports that; the contents are the same all along. */
    method Checkpoint(db: Path, busy: bool, faults: set<Fault>) returns (r: Result<(), DbError>)
      requires Opened(files, db).Some?
      modifies this
      ensures old(states) <= states
      ensures Kept(old(files), files, db, db)
      ensures forall i | |old(states)| <= i < |states| :: Kept(old(files), states[i], db, db)
      ensures r == if CheckpointFails in faults then Err(Query) else if busy then Err(DatabaseInUse) else Ok(())
      ensures r.Ok? ==> Frames(files, db) == []
    {
      var moved: nat := *;
      if moved <= |Frames(files, db)| {
        FoldingKeepsContents(files, db, moved);
        Change(Folded(files, db, moved));
      }
      if CheckpointFails in faults {
        return Err(Query);
      }
      if busy {
        return Err(DatabaseInUse);
      }
      FoldingKeepsContents(files, db, 0);
      ghost var between := files;
      Change(Checkpointed(files, db));
      KeptTwice(old(files), between, files, db, db);
      return Ok(());
    }

    /** Copies the database, whose log is empty, to a new file and closes the connection, which removes
        the sidecars if it is the last one. */
    method TakeSafetyCopy(db: Path, safety: Path, faults: set<Fault>) returns (r: Result<(), DbError>)
      requires Opened(files, db).Some? && Frames(files, db) == []
      requires safety != db && safety != WalPath(db) && safety != ShmPath(db)
      modifies this
      ensures old(states) <= states
      ensures Kept(old(files), files, db, safety) && Frames(files, db) == []
      ensures forall i | |old(states)| <= i < |states| :: Kept(old(files), states[i], db, safety)
      ensures r.Err? ==> r.error in {InvalidBackup, Query}
      ensures r.Ok? <==> safety !in old(files) && IsUsable(old(files), db)
                         && VacuumFails !in faults && VacuumStops !in faults
      ensures r.Ok? ==> HoldsCopy(files, safety, Opened(files, db).value)
    {
      PathsAreDistinct(db, "");
      if VacuumFails in faults || safety in files {
        return Err(Query);
      }
      SafetyCopyKeeps(files, db, safety, Junk);
      Change(files[safety := Junk]);
      if VacuumStops in faults {
        return Err(Query);
      }
      var copy := Database(Opened(files, db).value, files[db].usable);
      assert files[safety := copy] == old(files)[safety := copy];
      SafetyCopyKeeps(old(files), db, safety, copy);
      Change(files[safety := copy]);
      var last: bool := *;
      if last {
        Change(files - {WalPath(db), ShmPath(db)});
      }
      if !IsUsable(files, safety) {
        return Err(InvalidBackup);
      }
      return Ok(());
    }

    /** Proves that no other connection is open and takes the safety copy of what is about to be
        overwritten. The live contents do not change, whatever happens. */
    method PreRestoreSnapshot(db: Path, stamp: string, busy: bool, faults: set<Fault>) returns (r: Result<(), DbError>)
      requires db in files
      modifies this
      ensures old(states) <= states
      ensures Kept(old(files), files, db, SafetyPath(db, stamp))
      ensures forall i | |old(states)| <= i < |states| :: Kept(old(files), states[i], db, SafetyPath(db, stamp))
      ensures r.Err? ==> r.error in {InvalidBackup, DatabaseInUse, Query, Connect}
      ensures r.Ok? <==> SnapshotPossible(old(files), db, stamp) && !busy
                         && faults !! {ProbeFails, CheckpointFails, VacuumFails, VacuumStops}
      ensures busy ==> r.Err? && SameAt(files, old(files), SafetyPath(db, stamp))
      ensures r.Ok? ==>
        && Opened(files, db).Some? && Frames(files, db) == [] && SafetyPath(db, stamp) !in old(files)
        && HoldsCopy(files, SafetyPath(db, stamp), Opened(files, db).value)
    {
      var safety := SafetyPath(db, stamp);
      PathsAreDistinct(db, stamp);
      if ProbeFails in faults {
        return Err(Connect);
      }
      if Opened(files, db).None? {
        return Err(Query);
      }
      var folded := Checkpoint(db, busy, faults);
      ghost var between, n := files, |states|;
      assert SameAt(between, old(files), safety);
      if folded.Err? {
        return folded;
      }
      r := TakeSafetyCopy(db, safety, faults);
      KeptTwice(old(files), between, files, db, safety);
      forall i | n <= i < |states| ensures Kept(old(files), states[i], db, safety) {
        KeptTwice(old(files), between, states[i], db, safety);
      }
    }

    /** Copies the backup beside the database and moves it over in one step. `contents` is what the
        backup holds, and `was` what the database held. */
    method CopyIntoPlace(db: Path, backup: Path, safety: Path, faults: set<Fault>, ghost was: Option<Contents>,
                         ghost contents: Contents)
      returns (r: Result<(), DbError>)
      requires safety != db && safety != TmpPath(db)
      modifies this
      ensures old(states) <= states
      ensures r == if backup in old(files) && faults !! {CopyFails, RenameFails} then Ok(()) else Err(Io)
      ensures Moved(old(files), files, db, backup)
        && forall i | |old(states)| <= i < |states| :: Moved(old(files), states[i], db, backup)
      ensures Ready(old(files), db, backup, safety, was, contents) ==>
        && SafeSince(|old(states)|, db, safety, was, contents)
        && (r.Ok? ==> InPlace(files, db, safety, was, contents))
    {
      PathsAreDistinct(db, "");
      if backup !in files {
        return Err(Io);
      }
      ScratchStep(files, db, backup, safety, was, contents, Junk);
      Change(files[TmpPath(db) := Junk]);
      if CopyFails in faults {
        return Err(Io);
      }
      var copy := files[backup];
      assert files[TmpPath(db) := copy] == old(files)[TmpPath(db) := copy];
      ScratchStep(old(files), db, backup, safety, was, contents, copy);
      MoveStep(old(files), db, backup, safety, was, contents, copy);
      Change(files[TmpPath(db) := copy]);
      if RenameFails in faults {
        return Err(Io);
      }
      Change(Renamed(files, TmpPath(db), db));
      return Ok(());
    }

    /** Deletes what is left of the old database's log. */
    method RemoveSidecars(db: Path, safety: Path, faults: set<Fault>, ghost was: Option<Contents>,
                          ghost contents: Contents)
      returns (r: Result<(), DbError>)
      requires safety != WalPath(db) && safety != ShmPath(db)
      modifies this
      ensures old(states) <= states
      ensures InPlace(old(files), db, safety, was, contents) ==>
        SafeSince(|old(states)|, db, safety, was, contents) && InPlace(files, db, safety, was, contents)
      ensures Stripped(old(files), files, db)
        && forall i | |old(states)| <= i < |states| :: Stripped(old(files), states[i], db)
      ensures r.Err? ==> r == Err(Io)
      ensures r.Err? <==> RemoveFails in faults && (WalPath(db) in old(files) || ShmPath(db) in old(files))
      ensures r.Ok? ==> WalPath(db) !in files && ShmPath(db) !in files
    {
      PathsAreDistinct(db, "");
      var sidecars := [WalPath(db), ShmPath(db)];
      for k := 0 to 2
        invariant old(states) <= states
        invariant Stripped(old(files), files, db)
        invariant forall i | |old(states)| <= i < |states| :: Stripped(old(files), states[i], db)
        invariant InPlace(old(files), db, safety, was, contents) ==>
          SafeSince(|old(states)|, db, safety, was, contents) && InPlace(files, db, safety, was, contents)
        invariant forall j | 0 <= j < k :: sidecars[j] !in files
        invariant forall j | k <= j < 2 :: sidecars[j] in files <==> sidecars[j] in old(files)
        invariant RemoveFails in faults ==> forall j | 0 <= j < k :: sidecars[j] !in old(files)
      {
        if sidecars[k] in files {
          if RemoveFails in faults {
            return Err(Io);
          }
          StripMore(old(files), files, db, sidecars[k]);
          Change(files - {sidecars[k]});
        }
      }
      assert sidecars[0] !in files && sidecars[1] !in files;
      return Ok(());
    }

    /** Moves the backup into place and clears what was beside the old database. */
    method InstallBackup(db: Path, backup: Path, safety: Path, faults: set<Fault>, ghost was: Option<Contents>,
                         ghost contents: Contents)
      returns (r: Result<(), DbError>)
      requires safety !in {db, WalPath(db), ShmPath(db), TmpPath(db)}
      modifies this
      ensures old(states) <= states
      ensures r.Err? ==> r == Err(Io)
      ensures forall p | p !in {db, WalPath(db), ShmPath(db), TmpPath(db)} :: SameAt(files, old(files), p)
      ensures Ready(old(files), db, backup, safety, was, contents) ==>
        && SafeSince(|old(states)|, db, safety, was, contents)
        && (r.Ok? ==> InPlace(files, db, safety, was, contents))
      ensures CanResume(old(files), db, backup, contents) ==> ResumableSince(|old(states)|, db, backup, contents)
      ensures r.Ok? ==> WalPath(db) !in files && ShmPath(db) !in files
      ensures r.Ok? ==> backup in old(files) && faults !! {CopyFails, RenameFails}
      ensures backup in old(files) && faults !! {CopyFails, RenameFails, RemoveFails} ==> r.Ok?
    {
      ghost var was0, n := files, |states|;
      r := CopyIntoPlace(db, backup, safety, faults, was, contents);
      ghost var moved, m := files, |states|;
      if CanResume(was0, db, backup, contents) {
        MovedIsResumable(was0, moved, db, backup, contents);
        forall i | n <= i < m ensures Resumable(states[i], db, backup, contents) {
          MovedIsResumable(was0, states[i], db, backup, contents);
        }
      }
      if r.Err? {
        return;
      }
      r := RemoveSidecars(db, safety, faults, was, contents);
      if CanResume(was0, db, backup, contents) {
        forall i | m <= i < |states| ensures Resumable(states[i], db, backup, contents) {
          StrippedIsResumable(moved, states[i], db, backup, contents);
        }
      }
      forall p | p !in {db, WalPath(db), ShmPath(db), TmpPath(db)} ensures SameAt(files, was0, p) {
        assert SameAt(moved, was0, p);
        assert SameAt(files, moved, p);
      }
    }

    /** Replaces a database by a backup. `busy` says whether another connection holds it open. */
    method RestoreFrom(db: Path, backup: Path, stamp: string, busy: bool, faults: set<Fault>)
      returns (r: Result<Option<Path>, DbError>)
      modifies this
      ensures old(states) <= states
      ensures Restorable(old(files), db, backup) ==>
        && SafeSince(|old(states)|, db, SafetyPath(db, stamp), Opened(old(files), db), Target(old(files), db, backup))
        && (r.Ok? ==> Opened(files, db) == Some(Target(old(files), db, backup)))
      ensures r.Err? && r.error in {InvalidBackup, DatabaseInUse, Query} ==> Opened(files, db) == Opened(old(files), db)
      ensures !IsUsable(old(files), backup) ==> r == Err(InvalidBackup) && files == old(files)
      ensures r.Ok? ==> RestorePossible(old(files), db, backup, stamp, busy)
      ensures r.Ok? ==> faults !! {OpenFails, CopyFails, RenameFails, ReopenFails}
      ensures r.Ok? && db in old(files) ==> faults !! {ProbeFails, CheckpointFails, VacuumFails, VacuumStops}
      ensures RestorePossible(old(files), db, backup, stamp, busy) && Restorable(old(files), db, backup) ==>
        (faults == {} ==> r.Ok?)
      ensures busy && db in old(files) ==> r.Err? && Opened(files, db) == Opened(old(files), db)
      ensures busy && db in old(files) ==>
        forall p | p !in {db, WalPath(db), ShmPath(db)} :: SameAt(files, old(files), p)
      ensures forall p | p !in {db, WalPath(db), ShmPath(db), TmpPath(db)} ::
        p in old(files) ==> SameAt(files, old(files), p)
      ensures Restorable(old(files), db, backup) && IsUsable(old(files), backup) && !IsSidecar(backup, db) ==>
        ResumableSince(|old(states)|, db, backup, Target(old(files), db, backup))
      ensures r.Ok? ==>
        && db + "-wal" !in files && db + "-shm" !in files
        && r.value == (if db in old(files) then Some(db + (".pre-restore-" + stamp + ".bak")) else None)
        && (db in old(files) ==>
              Opened(old(files), db).Some? && HoldsCopy(files, SafetyPath(db, stamp), Opened(old(files), db).value))
    {
      ghost var was, target := Opened(files, db), Target(files, db, backup);
      var safety := SafetyPath(db, stamp);
      PathsAreDistinct(db, stamp);
      if !IsUsable(files, backup) {
        return Err(InvalidBackup);
      }
      if OpenFails in faults {
        return Err(Connect);
      }
      var existed := db in files;
      if existed {
        var snapshot := PreRestoreSnapshot(db, stamp, busy, faults);
        KeptAllAlong(|old(states)|, old(files), db, safety, backup, target);
        if snapshot.Err? {
          return Err(snapshot.error);
        }
      }
      ghost var ready, n := files, |states|;
      assert backup !in {db, WalPath(db), ShmPath(db), safety} ==> SameAt(ready, old(files), backup);
      assert Restorable(old(files), db, backup) ==> Ready(ready, db, backup, safety, was, target);
      var installed := InstallBackup(db, backup, safety, faults, was, target);
      assert SameAt(files, ready, safety);
      forall p | p !in {db, WalPath(db), ShmPath(db), TmpPath(db)} && p in old(files)
        ensures SameAt(files, old(files), p)
      {
        assert SameAt(ready, old(files), p);
        assert SameAt(files, ready, p);
      }
      if installed.Err? {
        return Err(installed.error);
      }
      if ReopenFails in faults {
        return Err(Connect);
      }
      return Ok(if existed then Some(safety) else None);
    }

    /** A restore can be started again from all states that kept the database and the other files. */
    lemma KeptAllAlong(n: nat, was: Files, db: Path, safety: Path, backup: Path, target: Contents)
      requires n <= |states| && db in was && safety != db
      requires Kept(was, files, db, safety) && forall i | n <= i < |states| :: Kept(was, states[i], db, safety)
      ensures Resumable(was, db, backup, target) ==>
        Resumable(files, db, backup, target) && ResumableSince(n, db, backup, target)
    {
      if Resumable(was, db, backup, target) {
        KeptIsResumable(was, files, db, safety, backup, target);
        forall i | n <= i < |states| ensures Resumable(states[i], db, backup, target) {
          KeptIsResumable(was, states[i], db, safety, backup, target);
        }
      }
    }

    /** A restore started from whatever state an earlier one left behind. Whenever it succeeds it has put
        the same contents in place, and the old ones are in one of the two safety copies. */
    method Resume(db: Path, backup: Path, firstStamp: string, stamp: string, busy: bool, faults: set<Fault>,
                  ghost was: Option<Contents>, ghost target: Contents) returns (r: Result<Option<Path>, DbError>)
      requires Safe(files, db, SafetyPath(db, firstStamp), was, target) && Resumable(files, db, backup, target)
      modifies this
      ensures old(states) <= states
      ensures r.Ok? ==>
        && Opened(files, db) == Some(target)
        && (was.Some? ==> HoldsCopy(files, SafetyPath(db, firstStamp), was.value)
                          || HoldsCopy(files, SafetyPath(db, stamp), was.value))
      ensures RestorePossible(old(files), db, backup, stamp, busy) && faults == {} ==> r.Ok?
    {
      PathsAreDistinct(db, firstStamp);
      r := RestoreFrom(db, backup, stamp, busy, faults);
    }

    /** A backup brings the contents it was taken from back, under the same name or another. */
    method BackupThenRestore(db: Path, dest: Path, other: Path, stamp: string, faults: set<Fault>)
      returns (r: Result<Option<Path>, DbError>)
      modifies this
      ensures r.Ok? ==> Opened(old(files), db).Some?
      ensures r.Ok? && dest != WalPath(other) && Restorable(old(files), other, dest) ==>
        Opened(files, other) == Opened(old(files), db)
      ensures CanRoundTrip(old(files), db, dest, other, stamp) && faults == {} ==> r.Ok?
    {
      var taken := BackupTo(db, dest, faults);
      if taken.Err? {
        return Err(taken.error);
      }
      PathsAreDistinct(other, stamp);
      assert dest != WalPath(other) ==> SameAt(files, old(files), WalPath(other));
      assert other != dest ==> SameAt(files, old(files), other);
      assert dest != SafetyPath(other, stamp) ==> SameAt(files, old(files), SafetyPath(other, stamp));
      r := RestoreFrom(other, dest, stamp, false, faults);
    }
  }
}
