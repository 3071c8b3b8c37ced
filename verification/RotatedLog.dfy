/**
  The writer's rotations are the rotations whose crashes are studied: its directory is
  what the running process sees of the disk, its seal leads to the same files, and so a
  crash in the middle of one loses none of the bytes it was given.
 */
module RotatedLog {
  import opened Wrappers
  import opened Lines
  import opened SegmentNames
  import LogWriter
  import Rotation

  /** The writer's files as directory entries. */
  function Directory(files: map<FileName, bytes>, journal: bool): Rotation.Entries {
    Rotation.Entries(
      if Active in files then Some(files[Active]) else None,
      map n | n in files && n.Sealed? :: files[n],
      journal)
  }

  /** A disk under an open, idle writer. */
  ghost predicate Under(w: LogWriter.SegmentedLogWriter, disk: Rotation.Disk)
    reads w
  {
    && w.fileOpen && !w.journalExists && Active in w.files
    && Rotation.OpenLog(disk, Directory(w.files, false).sealed, w.files[Active])
  }

  /** What the writer's seal makes of its files is what the last step of the crash model shows. */
  lemma SealsAgree(files: map<FileName, bytes>, disk: Rotation.Disk, name: Rotation.SealedName)
    requires Active in files && name !in files
    requires Rotation.OpenLog(disk, Directory(files, false).sealed, files[Active])
    ensures var end := Rotation.SealSteps(disk, name)[9];
            var files' := files[name := files[Active]][Active := []];
            && Rotation.View(end) == Directory(files', false)
            && Rotation.OpenLog(end, Directory(files', false).sealed, [])
  {
    var t := Rotation.Turn(Directory(files, false).sealed, files[Active], name);
    SealedDirectory(files, name);
    Rotation.SealHolds(disk, t);
    hide Rotation.SealSteps, Rotation.View, Rotation.Held, Rotation.ActiveIsDurable, Directory;
  }

  lemma SealedDirectory(files: map<FileName, bytes>, name: FileName)
    requires Active in files && name.Sealed? && name !in files
    ensures var files' := files[name := files[Active]][Active := []];
            Directory(files', false) ==
              Rotation.Entries(Some([]), Directory(files, false).sealed[name := files[Active]], false)
    ensures name !in Directory(files, false).sealed
  {
    var files' := files[name := files[Active]][Active := []];
    assert Directory(files', false).sealed == Directory(files, false).sealed[name := files[Active]];
  }

  /** A segment stands under its name with these bytes. */
  predicate Stands(e: Rotation.Entries, name: Rotation.SealedName, content: bytes) {
    name in e.sealed && e.sealed[name] == content
  }

  /**
    Cut a writer's seal anywhere and let it recover: every segment it sealed is there with
    its bytes, the active bytes stand under exactly one of the two names, and all of them
    together are the bytes it had stored.
   */
  lemma CrashKeepsWritersBytes(w: LogWriter.SegmentedLogWriter, disk: Rotation.Disk, name: Rotation.SealedName,
                               k: nat, attempts: seq<Rotation.Attempt>, found: Rotation.Disk)
    requires w.Sound() && Under(w, disk) && name !in w.files
    requires Rotation.Interrupted(disk, name, k, attempts, found)
    ensures var end := Rotation.View(Rotation.RecoverySteps(found)[|Rotation.RecoverySteps(found)| - 1]);
            && (forall i :: 0 <= i < |w.sealedNames| ==>
                  w.sealedNames[i].Sealed? && Stands(end, w.sealedNames[i], w.sealedContents[i]))
            && (end.active == Some(w.ActiveBytes()) || Stands(end, name, w.ActiveBytes()))
            && (end.active.Some? <==> name !in end.sealed)
            && w.Stored() == Flatten(w.sealedContents) + w.ActiveBytes()
  {
    var t := Rotation.Turn(Directory(w.files, false).sealed, w.files[Active], name);
    Rotation.RotationSurvivesCrashes(disk, t, k, attempts, found);
    FlattenAppend(w.sealedContents, w.ActiveBytes());
    hide Rotation.Interrupted, Rotation.RecoverySteps, Rotation.View, Rotation.OpenLog, Flatten;
  }
}
