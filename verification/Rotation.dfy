/**
  Crash safety of sealing a log segment. A directory operation takes effect at once
  for the running process, but until the directory is synced a power loss may keep
  it or lose it, each operation on its own. Killing the process loses nothing but
  the process.
 */
module Rotation {
  import opened Wrappers
  import opened Lines
  import SegmentNames

  type SealedName = n: SegmentNames.FileName | n.Sealed? witness SegmentNames.Sealed(SegmentNames.Day(0, 1, 1), 0)

  /** Directory entries the rotation touches. */
  datatype Entries = Entries(active: Option<bytes>, sealed: map<SealedName, bytes>, journal: bool)

  /** Contents of the rotation journal file: created, written, or written and synced. */
  datatype JournalData = Empty | Written(name: SealedName) | Synced(name: SealedName)

  /** `CreateActive` is the entry of a new active file, and what the file holds by now. */
  datatype Op = CreateJournal | RenameActive(name: SealedName) | RemoveJournal | CreateActive(content: bytes)

  datatype Disk = Disk(durable: Entries, unsynced: seq<Op>, data: JournalData)

  function Apply(e: Entries, op: Op): Entries {
    match op
    case CreateJournal => e.(journal := true)
    case RenameActive(name) =>
      if e.active.Some? then e.(active := None, sealed := e.sealed[name := e.active.value]) else e
    case RemoveJournal => e.(journal := false)
    case CreateActive(content) => if e.active.Some? then e else e.(active := Some(content))
  }

  function ApplyAll(e: Entries, ops: seq<Op>): Entries {
    if ops == [] then e else Apply(ApplyAll(e, ops[..|ops| - 1]), ops[|ops| - 1])
  }

  /** The directory as the running process sees it. */
  function View(disk: Disk): Entries {
    ApplyAll(disk.durable, disk.unsynced)
  }

  /** Every directory a power loss can leave: any of the unsynced operations may be missing. */
  function Images(e: Entries, ops: seq<Op>): (images: set<Entries>)
    ensures ApplyAll(e, ops) in images
  {
    if ops == [] then {e}
    else
      var earlier := Images(e, ops[..|ops| - 1]);
      earlier + set i | i in earlier :: Apply(i, ops[|ops| - 1])
  }

  /** Only a synced journal file is sure to keep its contents. */
  predicate DataSurvives(before: JournalData, after: JournalData) {
    match before
    case Empty => after == Empty
    case Written(name) => after == Empty || after == Synced(name)
    case Synced(name) => after == before
  }

  predicate PowerLoss(before: Disk, after: Disk) {
    && after.unsynced == []
    && after.durable in Images(before.durable, before.unsynced)
    && DataSurvives(before.data, after.data)
  }

  /** What a restart finds: the same disk after a killed process, or what a power loss left. */
  predicate Restarted(before: Disk, after: Disk) {
    after == before || PowerLoss(before, after)
  }

  // ---- The steps of seal and of recovery ----

  function Do(disk: Disk, op: Op): Disk {
    disk.(unsynced := disk.unsynced + [op])
  }

  function SyncDir(disk: Disk): Disk {
    disk.(durable := View(disk), unsynced := [])
  }

  /** Every disk state an undisturbed seal goes through, in order. */
  function SealSteps(start: Disk, name: SealedName): seq<Disk> {
    var created := Do(start.(data := Empty), CreateJournal);
    var written := created.(data := Written(name));
    var synced := created.(data := Synced(name));
    var journalled := SyncDir(synced);
    var renamed := Do(journalled, RenameActive(name));
    var sealed := SyncDir(renamed);
    var removed := Do(sealed, RemoveJournal);
    var done := SyncDir(removed);
    [start, created, written, synced, journalled, renamed, sealed, removed, done, Do(done, CreateActive([]))]
  }

  datatype Outcome = Recovered | TornJournal | Collision | LostBoth | IoError

  /** The verdict of recovery, before it changes anything. */
  function Verdict(disk: Disk): Outcome {
    var view := View(disk);
    if !view.journal then Recovered
    else if disk.data == Empty then TornJournal
    else if view.active.Some? && disk.data.name in view.sealed then Collision
    else if view.active.None? && disk.data.name !in view.sealed then LostBoth
    else Recovered
  }

  /** Every disk state an undisturbed recovery goes through. */
  function RecoverySteps(start: Disk): (steps: seq<Disk>)
    ensures |steps| > 0 && steps[0] == start
  {
    if !View(start).journal || Verdict(start) != Recovered then [start]
    else
      var renamed := if View(start).active.Some? then Do(start, RenameActive(start.data.name)) else start;
      var sealed := SyncDir(renamed);
      var removed := Do(sealed, RemoveJournal);
      [start, renamed, sealed, removed, SyncDir(removed)]
  }

  /** The log directory of one log file, with every state it has gone through. */
  class LogDirectory {
    var disk: Disk
    /** No disk operation ever fails. */
    const reliable: bool
    ghost var history: seq<Disk>

    constructor (disk: Disk, reliable: bool)
      ensures this.disk == disk && this.reliable == reliable && history == [disk]
    {
      this.disk := disk;
      this.reliable := reliable;
      history := [disk];
    }

    /** Whether the next disk operation fails. */
    method Fault() returns (failed: bool)
      ensures reliable ==> !failed
    {
      failed := *;
      failed := failed && !reliable;
    }

    /** One disk operation: it fails and changes nothing, or the disk moves on to `next`. */
    method Advance(next: Disk, ghost steps: seq<Disk>) returns (ok: bool)
      requires history <= steps && |history| < |steps| && next == steps[|history|]
      requires history != [] && disk == history[|history| - 1]
      modifies this
      ensures history <= steps && history != [] && disk == history[|history| - 1]
      ensures ok ==> |history| == |old(history)| + 1 && disk == next
      ensures !ok ==> history == old(history)
      ensures reliable ==> ok
    {
      var failed := Fault();
      if failed {
        return false;
      }
      disk := next;
      history := history + [next];
      return true;
    }

    /** `w.seal` once the name is chosen; any operation may fail and end it early. */
    method Seal(name: SealedName) returns (ok: bool)
      requires !View(disk).journal && View(disk).active.Some?
      requires history == [disk]
      modifies this
      ensures history <= SealSteps(old(disk), name) && history != [] && disk == history[|history| - 1]
      ensures ok ==> history == SealSteps(old(disk), name)
      ensures reliable ==> ok
    {
      hide View, Images;
      ghost var steps := SealSteps(disk, name);
      // Create, write and sync the journal file, then its directory entry.
      ok := Advance(Do(disk.(data := Empty), CreateJournal), steps);
      if !ok { return; }
      ok := Advance(disk.(data := Written(name)), steps);
      if !ok { return; }
      ok := Advance(disk.(data := Synced(name)), steps);
      if !ok { return; }
      ok := Advance(SyncDir(disk), steps);
      if !ok { return; }
      // Move the active file.
      ok := Advance(Do(disk, RenameActive(name)), steps);
      if !ok { return; }
      ok := Advance(SyncDir(disk), steps);
      if !ok { return; }
      // The rotation is complete: drop the journal and start a new file.
      ok := Advance(Do(disk, RemoveJournal), steps);
      if !ok { return; }
      ok := Advance(SyncDir(disk), steps);
      if !ok { return; }
      ok := Advance(Do(disk, CreateActive([])), steps);
    }

    /** `recoverSegmentRotation`. */
    method Recover() returns (outcome: Outcome)
      requires history == [disk]
      modifies this
      ensures history <= RecoverySteps(old(disk)) && history != [] && disk == history[|history| - 1]
      ensures outcome == IoError || outcome == Verdict(old(disk))
      ensures outcome == Recovered ==> history == RecoverySteps(old(disk))
      ensures reliable ==> outcome != IoError
    {
      hide View, Images;
      ghost var steps := RecoverySteps(disk);
      var failed := Fault();
      if failed { return IoError; }
      var view := View(disk);
      if !view.journal { return Recovered; }
      if disk.data == Empty { return TornJournal; }
      var sealedName := disk.data.name;
      failed := Fault();
      if failed { return IoError; }
      var activeExists, sealedExists := view.active.Some?, sealedName in view.sealed;
      if activeExists && sealedExists { return Collision; }
      if !activeExists && !sealedExists { return LostBoth; }
      var ok := Advance(if activeExists then Do(disk, RenameActive(sealedName)) else disk, steps);
      if !ok { return IoError; }
      ok := Advance(SyncDir(disk), steps);
      if !ok { return IoError; }
      ok := Advance(Do(disk, RemoveJournal), steps);
      if !ok { return IoError; }
      ok := Advance(SyncDir(disk), steps);
      if !ok { return IoError; }
      return Recovered;
    }
  }

  // ---- What every crash point keeps ----

  /** A rotation under way: the segments sealed before, the bytes to seal, and their name. */
  datatype Turn = Turn(others: map<SealedName, bytes>, content: bytes, name: SealedName)

  /** The bytes stand under exactly one of the two names, and the earlier segments are as they were. */
  predicate OneCopy(e: Entries, t: Turn) {
    && t.name !in t.others
    && (|| (e.active == Some(t.content) && e.sealed == t.others)
        || (e.active == None && e.sealed == t.others[t.name := t.content]))
  }

  predicate TurnOp(op: Op, t: Turn) {
    op == CreateJournal || op == RemoveJournal || op == RenameActive(t.name) || op == CreateActive(t.content)
  }

  /** No unsynced operation is the creation of the active file. */
  predicate ActiveIsDurable(disk: Disk) {
    forall op :: op in disk.unsynced ==> !op.CreateActive?
  }

  /** The running process sees one copy; the disk has it too, or has only the earlier segments. */
  predicate Copied(disk: Disk, t: Turn) {
    && OneCopy(View(disk), t)
    && (forall op :: op in disk.unsynced ==> TurnOp(op, t))
    && (if ActiveIsDurable(disk) then OneCopy(disk.durable, t)
        else disk.durable.active.None? && disk.durable.sealed == t.others)
  }

  /** Besides, the journal names the copy's destination, and once it is gone at most its removal is unsynced. */
  predicate Held(disk: Disk, t: Turn) {
    && Copied(disk, t)
    && (disk.data != Empty ==> disk.data.name == t.name)
    && (!View(disk).journal ==>
          disk.unsynced == [] || (disk.unsynced == [RemoveJournal] && disk.durable.journal && View(disk).active.None?))
  }

  /** No journal is unsynced or torn: the state from `journal.Sync` and the directory sync on. */
  predicate JournalWritten(disk: Disk) {
    disk.data.Synced?
  }

  lemma {:induction false} NothingSyncedIsAnImage(e: Entries, ops: seq<Op>)
    ensures e in Images(e, ops)
  {
    if ops != [] {
      NothingSyncedIsAnImage(e, ops[..|ops| - 1]);
    }
  }

  lemma ApplyKeepsOneCopy(e: Entries, op: Op, t: Turn)
    requires OneCopy(e, t) && TurnOp(op, t) && !op.CreateActive?
    ensures OneCopy(Apply(e, op), t)
  {
  }

  lemma {:induction false} ImagesKeepOneCopy(e: Entries, ops: seq<Op>, t: Turn)
    requires OneCopy(e, t) && forall op :: op in ops ==> TurnOp(op, t) && !op.CreateActive?
    ensures forall i :: i in Images(e, ops) ==> OneCopy(i, t)
  {
    if ops != [] {
      hide Apply, OneCopy;
      var last := ops[|ops| - 1];
      ImagesKeepOneCopy(e, ops[..|ops| - 1], t);
      forall i | i in Images(e, ops[..|ops| - 1]) ensures OneCopy(Apply(i, last), t) {
        ApplyKeepsOneCopy(i, last, t);
      }
    }
  }

  /** The earlier segments are as they were, and nothing stands where it should not. */
  predicate NoStranger(e: Entries, t: Turn) {
    && t.name !in t.others
    && (e.sealed == t.others || e.sealed == t.others[t.name := t.content])
    && (e.active.None? || e.active == Some(t.content))
  }

  lemma ApplyKeepsSegments(e: Entries, op: Op, t: Turn)
    requires NoStranger(e, t) && TurnOp(op, t)
    ensures NoStranger(Apply(e, op), t)
  {
    assert t.others[t.name := t.content][t.name := t.content] == t.others[t.name := t.content];
  }

  lemma {:induction false} ImagesKeepSegments(e: Entries, ops: seq<Op>, t: Turn)
    requires NoStranger(e, t) && forall op :: op in ops ==> TurnOp(op, t)
    ensures forall i :: i in Images(e, ops) ==> NoStranger(i, t)
  {
    if ops != [] {
      hide Apply, NoStranger;
      var last := ops[|ops| - 1];
      ImagesKeepSegments(e, ops[..|ops| - 1], t);
      forall i | i in Images(e, ops[..|ops| - 1]) ensures NoStranger(Apply(i, last), t) {
        ApplyKeepsSegments(i, last, t);
      }
    }
  }

  /** Whatever a power loss leaves, it has one copy. */
  predicate EveryImage(disk: Disk, t: Turn) {
    forall e :: e in Images(disk.durable, disk.unsynced) ==> OneCopy(e, t)
  }

  /**
    Every power loss leaves one copy if and only if the active file's entry is durable;
    durable or not, the earlier segments stay as they were.
   */
  lemma PowerLossKeepsOneCopyIff(disk: Disk, t: Turn)
    requires Copied(disk, t)
    ensures EveryImage(disk, t) <==> ActiveIsDurable(disk)
    ensures forall e :: e in Images(disk.durable, disk.unsynced) ==> NoStranger(e, t)
  {
    hide View, Images;
    NothingSyncedIsAnImage(disk.durable, disk.unsynced);
    ImagesKeepSegments(disk.durable, disk.unsynced, t);
    if ActiveIsDurable(disk) {
      ImagesKeepOneCopy(disk.durable, disk.unsynced, t);
    }
  }

  // ---- The steps ----

  lemma ViewStep(disk: Disk, op: Op)
    ensures View(Do(disk, op)) == Apply(View(disk), op)
  {
    assert Do(disk, op).unsynced[..|disk.unsynced|] == disk.unsynced;
  }

  lemma DataStep(disk: Disk, data: JournalData, t: Turn)
    requires Held(disk, t) && data in {Written(t.name), Synced(t.name)}
    ensures Held(disk.(data := data), t) && View(disk.(data := data)) == View(disk)
    ensures ActiveIsDurable(disk.(data := data)) <==> ActiveIsDurable(disk)
  {
  }

  lemma RenameStep(disk: Disk, t: Turn)
    requires Held(disk, t) && View(disk).journal
    ensures var d := Do(disk, RenameActive(t.name));
            && Held(d, t) && View(d).journal && View(d).active.None? && d.data == disk.data
            && View(d).sealed == t.others[t.name := t.content]
            && (ActiveIsDurable(disk) ==> ActiveIsDurable(d))
  {
    ViewStep(disk, RenameActive(t.name));
    ApplyKeepsOneCopy(View(disk), RenameActive(t.name), t);
    hide View;
  }

  lemma SyncStep(disk: Disk, t: Turn)
    requires Held(disk, t)
    ensures var d := SyncDir(disk);
            && Held(d, t) && ActiveIsDurable(d) && View(d) == View(disk) && OneCopy(View(disk), t)
            && d.unsynced == [] && d.data == disk.data && d.durable == View(disk)
  {
  }

  lemma RemoveStep(disk: Disk, t: Turn)
    requires Held(disk, t) && disk.unsynced == [] && View(disk).journal && View(disk).active.None?
    ensures var d := Do(disk, RemoveJournal);
            && Held(d, t) && ActiveIsDurable(d) && d.data == disk.data && d.unsynced == [RemoveJournal]
            && View(d) == View(disk).(journal := false)
  {
    ViewStep(disk, RemoveJournal);
  }

  /** The steps that seal and recovery share: sync the rename, remove the journal, sync that. */
  lemma FinishSteps(renamed: Disk, t: Turn)
    requires Held(renamed, t) && View(renamed).journal && View(renamed).active.None?
    ensures var sealed := SyncDir(renamed);
            var removed := Do(sealed, RemoveJournal);
            var done := SyncDir(removed);
            && Held(sealed, t) && ActiveIsDurable(sealed) && sealed.data == renamed.data
            && Held(removed, t) && ActiveIsDurable(removed) && removed.data == renamed.data
            && Held(done, t) && ActiveIsDurable(done) && done.data == renamed.data
            && done.unsynced == [] && done.durable == View(renamed).(journal := false) && View(done) == done.durable
            && OneCopy(View(done), t)
  {
    hide Held, View, Do, SyncDir, OneCopy;
    SyncStep(renamed, t);
    RemoveStep(SyncDir(renamed), t);
    SyncStep(Do(SyncDir(renamed), RemoveJournal), t);
    SyncStep(SyncDir(Do(SyncDir(renamed), RemoveJournal)), t);
  }

  /**
    A restart, by process kill or by a power loss with the active file's entry durable, finds a disk
    that holds the bytes.
   */
  predicate Survivable(before: Disk, after: Disk) {
    after == before || (PowerLoss(before, after) && ActiveIsDurable(before))
  }

  lemma RestartKeepsHeld(before: Disk, after: Disk, t: Turn)
    requires Held(before, t) && Survivable(before, after)
    ensures Held(after, t)
    ensures ActiveIsDurable(before) ==> ActiveIsDurable(after)
    ensures JournalWritten(before) ==> JournalWritten(after)
  {
    if after != before {
      PowerLossKeepsOneCopyIff(before, t);
    }
  }

  // ---- A log between rotations ----

  predicate OpenOp(op: Op, content: bytes) {
    op == RemoveJournal || op == CreateActive(content)
  }

  /**
    No rotation is under way. The active file's entry may be unsynced, as a rotation and
    a restart leave it, and then the removal of the last journal may be too.
   */
  predicate OpenLog(disk: Disk, others: map<SealedName, bytes>, content: bytes) {
    && View(disk) == Entries(Some(content), others, false)
    && (forall op :: op in disk.unsynced ==> OpenOp(op, content))
    && (if ActiveIsDurable(disk) then disk.unsynced == [] else disk.durable.active.None?)
    && disk.durable.sealed == others
  }

  lemma OpenIsCopied(disk: Disk, t: Turn)
    requires OpenLog(disk, t.others, t.content) && t.name !in t.others
    ensures Copied(disk, t)
  {
  }

  lemma CreateStep(start: Disk, t: Turn)
    requires OpenLog(start, t.others, t.content) && t.name !in t.others
    ensures var d := Do(start.(data := Empty), CreateJournal);
            && Held(d, t) && View(d) == Entries(Some(t.content), t.others, true)
            && (ActiveIsDurable(d) <==> ActiveIsDurable(start))
  {
    ViewStep(start.(data := Empty), CreateJournal);
    assert View(start.(data := Empty)) == View(start);
  }

  /**
    Every crash point of seal up to its last directory sync holds the bytes, whether the
    active file's entry was durable or not; it is durable from the first directory sync
    on. The whole seal puts the bytes under the name and leaves an open log whose new
    active file is not durable.
   */
  lemma SealHolds(start: Disk, t: Turn)
    requires OpenLog(start, t.others, t.content) && t.name !in t.others
    ensures var steps := SealSteps(start, t.name);
            && (forall k :: 1 <= k < |steps| - 1 ==>
                  Held(steps[k], t) && (ActiveIsDurable(steps[k]) <==> 4 <= k || ActiveIsDurable(start)))
            && (var end := steps[|steps| - 1];
                OpenLog(end, t.others[t.name := t.content], []) && end.unsynced == [CreateActive([])])
  {
    var steps := SealSteps(start, t.name);
    UnfoldSeal(start, t.name);
    hide Held, View, Do, SyncDir, OneCopy, OpenLog, ActiveIsDurable, SealSteps;
    JournalSteps(start, t);
    FinishSteps(steps[5], t);
    NewActive(steps[8], t.others[t.name := t.content]);
  }

  /** The first half of seal: the journal is written and synced, then the active file moved. */
  lemma JournalSteps(start: Disk, t: Turn)
    requires OpenLog(start, t.others, t.content) && t.name !in t.others
    ensures var created := Do(start.(data := Empty), CreateJournal);
            var synced := created.(data := Synced(t.name));
            var journalled := SyncDir(synced);
            var renamed := Do(journalled, RenameActive(t.name));
            && Held(created, t) && (ActiveIsDurable(created) <==> ActiveIsDurable(start))
            && Held(created.(data := Written(t.name)), t)
            && (ActiveIsDurable(created.(data := Written(t.name))) <==> ActiveIsDurable(start))
            && Held(synced, t) && (ActiveIsDurable(synced) <==> ActiveIsDurable(start))
            && Held(journalled, t) && ActiveIsDurable(journalled)
            && Held(renamed, t) && ActiveIsDurable(renamed)
            && View(renamed) == Entries(None, t.others[t.name := t.content], true)
  {
    CreateStep(start, t);
    var created := Do(start.(data := Empty), CreateJournal);
    DataStep(created, Written(t.name), t);
    DataStep(created, Synced(t.name), t);
    hide Held, View, Do, OneCopy, OpenLog;
    SyncStep(created.(data := Synced(t.name)), t);
    hide SyncDir, ActiveIsDurable;
    RenameStep(SyncDir(created.(data := Synced(t.name))), t);
  }

  lemma NewActive(disk: Disk, sealed: map<SealedName, bytes>)
    requires disk.unsynced == [] && disk.durable == Entries(None, sealed, false)
    ensures var d := Do(disk, CreateActive([])); OpenLog(d, sealed, []) && d.unsynced == [CreateActive([])]
  {
    ViewStep(disk, CreateActive([]));
    assert Do(disk, CreateActive([])).unsynced == [CreateActive([])];
  }

  /**
    What a power loss during seal leaves: at every crash point one copy in every image,
    if and only if the first directory sync of this seal is done or the active file's
    entry was durable when it started.
   */
  lemma SealKeepsOneCopyIff(start: Disk, t: Turn, k: nat)
    requires OpenLog(start, t.others, t.content) && t.name !in t.others && k < |SealSteps(start, t.name)| - 1
    ensures var d := SealSteps(start, t.name)[k];
            && (EveryImage(d, t) <==> 4 <= k || ActiveIsDurable(start))
            && (forall e :: e in Images(d.durable, d.unsynced) ==> NoStranger(e, t))
  {
    hide Images, OneCopy, NoStranger;
    SealHolds(start, t);
    OpenIsCopied(start, t);
    hide SealSteps, OpenLog;
    assert SealSteps(start, t.name)[0] == start by { FirstStep(start, t.name); }
    PowerLossKeepsOneCopyIff(SealSteps(start, t.name)[k], t);
  }

  lemma FirstStep(start: Disk, name: SealedName)
    ensures SealSteps(start, name)[0] == start && |SealSteps(start, name)| == 10
  {
  }

  /** A whole seal is safe at every crash point if and only if the active file's entry was durable when it started. */
  lemma SealIsSafeIff(start: Disk, t: Turn)
    requires OpenLog(start, t.others, t.content) && t.name !in t.others
    ensures (forall k :: 0 <= k < |SealSteps(start, t.name)| - 1 ==> EveryImage(SealSteps(start, t.name)[k], t))
            <==> ActiveIsDurable(start)
  {
    hide EveryImage, OneCopy, OpenLog, SealSteps;
    FirstStep(start, t.name);
    forall k | 0 <= k < |SealSteps(start, t.name)| - 1
      ensures EveryImage(SealSteps(start, t.name)[k], t) <==> 4 <= k || ActiveIsDurable(start)
    {
      SealKeepsOneCopyIff(start, t, k);
    }
    assert EveryImage(SealSteps(start, t.name)[0], t) <==> ActiveIsDurable(start);
  }

  // ---- Recovery ----

  lemma HeldVerdict(disk: Disk, t: Turn)
    requires Held(disk, t)
    ensures Verdict(disk) == if View(disk).journal && disk.data == Empty then TornJournal else Recovered
    ensures OneCopy(View(disk), t) && (disk.data != Empty ==> disk.data.name == t.name)
  {
  }

  /** Every crash point of recovery holds the bytes too, and what recovery decides is never a collision or a loss. */
  lemma RecoveryHolds(start: Disk, t: Turn)
    requires Held(start, t)
    ensures var steps := RecoverySteps(start);
            && (forall k :: 0 <= k < |steps| ==>
                  && Held(steps[k], t) && steps[k].data == start.data
                  && (ActiveIsDurable(start) ==> ActiveIsDurable(steps[k])))
            && Verdict(start) == (if View(start).journal && start.data == Empty then TornJournal else Recovered)
            && (var end := View(steps[|steps| - 1]);
                && OneCopy(end, t)
                && (Verdict(start) == Recovered ==> !end.journal)
                && (View(start).journal && Verdict(start) == Recovered ==>
                      end.active == None && steps[|steps| - 1].unsynced == []))
  {
    HeldVerdict(start, t);
    UnfoldRecovery(start);
    hide Held, View, Do, SyncDir, OneCopy, ActiveIsDurable, RecoverySteps, Verdict;
    if View(start).journal && Verdict(start) == Recovered {
      var steps := RecoverySteps(start);
      if View(start).active.Some? {
        RenameStep(start, t);
      }
      FinishSteps(steps[1], t);
    }
  }

  // ---- Any number of interrupted recoveries ----

  /** One more attempt: what the restart found, and the step at which recovery was cut short. */
  datatype Attempt = Attempt(found: Disk, cut: nat)

  function CutAt(attempt: Attempt): Disk
    requires attempt.cut < |RecoverySteps(attempt.found)|
  {
    RecoverySteps(attempt.found)[attempt.cut]
  }

  /** Each attempt finds what the one before it left, after a kill or any power loss. */
  predicate History(first: Disk, attempts: seq<Attempt>)
    decreases |attempts|
  {
    attempts == [] ||
    (&& Restarted(first, attempts[0].found)
     && attempts[0].cut < |RecoverySteps(attempts[0].found)|
     && History(CutAt(attempts[0]), attempts[1..]))
  }

  /** No power loss strikes while the active file's entry is unsynced. */
  predicate NeverEndangered(first: Disk, attempts: seq<Attempt>)
    requires History(first, attempts)
    decreases |attempts|
  {
    attempts == [] ||
    (Survivable(first, attempts[0].found) && NeverEndangered(CutAt(attempts[0]), attempts[1..]))
  }

  function LastDisk(first: Disk, attempts: seq<Attempt>): Disk
    requires History(first, attempts)
    decreases |attempts|
  {
    if attempts == [] then first else LastDisk(CutAt(attempts[0]), attempts[1..])
  }

  lemma {:induction false} AttemptsHold(first: Disk, attempts: seq<Attempt>, t: Turn)
    requires Held(first, t) && History(first, attempts) && NeverEndangered(first, attempts)
    ensures Held(LastDisk(first, attempts), t)
    ensures ActiveIsDurable(first) ==> ActiveIsDurable(LastDisk(first, attempts))
    ensures JournalWritten(first) ==> JournalWritten(LastDisk(first, attempts))
    decreases |attempts|
  {
    if attempts != [] {
      hide Held, RecoverySteps, Survivable, Restarted, ActiveIsDurable;
      RestartKeepsHeld(first, attempts[0].found, t);
      RecoveryHolds(attempts[0].found, t);
      AttemptsHold(CutAt(attempts[0]), attempts[1..], t);
    }
  }

  /** Once the active file's entry is durable, kills and power losses of any kind endanger nothing. */
  lemma {:induction false} DurableIsNeverEndangered(first: Disk, attempts: seq<Attempt>, t: Turn)
    requires Held(first, t) && ActiveIsDurable(first) && History(first, attempts)
    ensures NeverEndangered(first, attempts)
    decreases |attempts|
  {
    if attempts != [] {
      hide Held, RecoverySteps, PowerLoss, ActiveIsDurable;
      RestartKeepsHeld(first, attempts[0].found, t);
      RecoveryHolds(attempts[0].found, t);
      DurableIsNeverEndangered(CutAt(attempts[0]), attempts[1..], t);
    }
  }

  /**
    A seal cut short at step `k`, recoveries cut short in turn, and at last a restart that
    finds `found`. Power losses strike only while the active file's entry is durable.
   */
  predicate Interrupted(start: Disk, name: SealedName, k: nat, attempts: seq<Attempt>, found: Disk) {
    && 1 <= k < |SealSteps(start, name)| - 1
    && History(SealSteps(start, name)[k], attempts)
    && NeverEndangered(SealSteps(start, name)[k], attempts)
    && Survivable(LastDisk(SealSteps(start, name)[k], attempts), found)
  }

  /** From a durable start, or after the first directory sync of the seal, that covers every kill and power loss. */
  lemma DurableSealIsNeverEndangered(start: Disk, t: Turn, k: nat, attempts: seq<Attempt>, found: Disk)
    requires OpenLog(start, t.others, t.content) && t.name !in t.others
    requires 1 <= k < |SealSteps(start, t.name)| - 1 && (4 <= k || ActiveIsDurable(start))
    requires History(SealSteps(start, t.name)[k], attempts)
    requires Restarted(LastDisk(SealSteps(start, t.name)[k], attempts), found)
    ensures Interrupted(start, t.name, k, attempts, found)
  {
    SealHolds(start, t);
    var cut := SealSteps(start, t.name)[k];
    hide Held, SealSteps, RecoverySteps, PowerLoss, ActiveIsDurable;
    DurableIsNeverEndangered(cut, attempts, t);
    AttemptsHold(cut, attempts, t);
  }

  lemma InterruptedHolds(start: Disk, t: Turn, k: nat, attempts: seq<Attempt>, found: Disk)
    requires OpenLog(start, t.others, t.content) && t.name !in t.others
    requires Interrupted(start, t.name, k, attempts, found)
    ensures Held(found, t) && (3 <= k ==> JournalWritten(found))
  {
    SealHolds(start, t);
    var cut := SealSteps(start, t.name)[k];
    assert 3 <= k ==> JournalWritten(cut) by { if 3 <= k { SealWritesJournal(start, t.name, k); } }
    hide Held, SealSteps, RecoverySteps, Survivable;
    AttemptsHold(cut, attempts, t);
    RestartKeepsHeld(LastDisk(cut, attempts), found, t);
  }

  lemma SealWritesJournal(start: Disk, name: SealedName, k: nat)
    requires 3 <= k < |SealSteps(start, name)| - 1
    ensures JournalWritten(SealSteps(start, name)[k])
  {
    hide View;
  }

  /**
    The whole story of one seal: cut it at any point, restart and cut recovery short any
    number of times, by kills, or by power losses once the active file's entry is durable;
    the next undisturbed recovery never reports a collision or a loss, and leaves exactly
    one copy of the bytes and every earlier segment. Once the journal file was synced it
    also never reports a torn journal, it leaves no journal, and if the journal's entry was
    still there the bytes stand under exactly the journalled name.
   */
  lemma RotationSurvivesCrashes(start: Disk, t: Turn, k: nat, attempts: seq<Attempt>, found: Disk)
    requires OpenLog(start, t.others, t.content) && t.name !in t.others
    requires Interrupted(start, t.name, k, attempts, found)
    ensures Verdict(found) == Recovered || (Verdict(found) == TornJournal && View(found).journal && found.data == Empty)
    ensures 3 <= k ==> Verdict(found) == Recovered
    ensures var end := View(RecoverySteps(found)[|RecoverySteps(found)| - 1]);
            && OneCopy(end, t)
            && (Verdict(found) == Recovered ==> !end.journal)
            && (Verdict(found) == Recovered && View(found).journal ==>
                  end == Entries(None, t.others[t.name := t.content], false))
  {
    InterruptedHolds(start, t, k, attempts, found);
    HeldVerdict(found, t);
    RecoveryHolds(found, t);
    hide Held, SealSteps, RecoverySteps, Interrupted, OpenLog, View, Verdict;
  }

  // ---- Kills alone ----

  /** As Held, but only for the running process: nothing is asked of what has reached the disk. */
  predicate ViewHeld(disk: Disk, t: Turn) {
    OneCopy(View(disk), t) && (View(disk).journal && disk.data != Empty ==> disk.data.name == t.name)
  }

  lemma SyncView(disk: Disk)
    ensures View(SyncDir(disk)) == View(disk)
  {
  }

  lemma FinishViews(renamed: Disk, t: Turn)
    requires View(renamed) == Entries(None, t.others[t.name := t.content], true) && t.name !in t.others
    requires renamed.data != Empty ==> renamed.data.name == t.name
    ensures var sealed := SyncDir(renamed);
            var removed := Do(sealed, RemoveJournal);
            var done := SyncDir(removed);
            && ViewHeld(renamed, t) && ViewHeld(sealed, t) && ViewHeld(removed, t) && ViewHeld(done, t)
            && View(done) == Entries(None, t.others[t.name := t.content], false)
  {
    var sealed := SyncDir(renamed);
    SyncView(renamed);
    ViewStep(sealed, RemoveJournal);
    SyncView(Do(sealed, RemoveJournal));
    assert sealed.data == renamed.data;
    hide View;
  }

  lemma JournalViews(start: Disk, t: Turn)
    requires View(start) == Entries(Some(t.content), t.others, false) && t.name !in t.others
    ensures var created := Do(start.(data := Empty), CreateJournal);
            var synced := created.(data := Synced(t.name));
            var renamed := Do(SyncDir(synced), RenameActive(t.name));
            && ViewHeld(created, t) && ViewHeld(created.(data := Written(t.name)), t)
            && ViewHeld(synced, t) && ViewHeld(SyncDir(synced), t)
            && View(renamed) == Entries(None, t.others[t.name := t.content], true) && renamed.data == Synced(t.name)
  {
    var created := Do(start.(data := Empty), CreateJournal);
    var synced := created.(data := Synced(t.name));
    assert View(start.(data := Empty)) == View(start);
    ViewStep(start.(data := Empty), CreateJournal);
    assert View(created.(data := Written(t.name))) == View(created) && View(synced) == View(created);
    SyncView(synced);
    ViewStep(SyncDir(synced), RenameActive(t.name));
    hide View;
  }

  /** The views of a seal, from any disk whose active file the running process sees. */
  lemma SealViews(start: Disk, t: Turn, k: nat)
    requires View(start) == Entries(Some(t.content), t.others, false) && t.name !in t.others
    requires 1 <= k < |SealSteps(start, t.name)| - 1
    ensures ViewHeld(SealSteps(start, t.name)[k], t)
  {
    hide View, ViewHeld, Do, SyncDir;
    JournalViews(start, t);
    UnfoldSeal(start, t.name);
    hide SealSteps;
    if 5 <= k {
      FinishViews(SealSteps(start, t.name)[5], t);
    }
  }

  lemma UnfoldSeal(start: Disk, name: SealedName)
    ensures var created := Do(start.(data := Empty), CreateJournal);
            var synced := created.(data := Synced(name));
            var journalled := SyncDir(synced);
            var renamed := Do(journalled, RenameActive(name));
            var sealed := SyncDir(renamed);
            var removed := Do(sealed, RemoveJournal);
            var done := SyncDir(removed);
            SealSteps(start, name) ==
              [start, created, created.(data := Written(name)), synced, journalled, renamed, sealed, removed,
                                       done, Do(done, CreateActive([]))]
  {
    hide View, Do, SyncDir;
  }

  lemma RenameView(disk: Disk, t: Turn)
    requires ViewHeld(disk, t) && View(disk).journal && View(disk).active.Some?
    ensures View(Do(disk, RenameActive(t.name))) == Entries(None, t.others[t.name := t.content], true)
    ensures Do(disk, RenameActive(t.name)).data == disk.data
  {
    ViewStep(disk, RenameActive(t.name));
    hide View;
  }

  lemma ViewVerdict(disk: Disk, t: Turn)
    requires ViewHeld(disk, t)
    ensures Verdict(disk) == (if View(disk).journal && disk.data == Empty then TornJournal else Recovered)
    ensures View(disk).journal && View(disk).active.None? ==>
              View(disk) == Entries(None, t.others[t.name := t.content], true)
    ensures View(disk).journal && disk.data != Empty ==> disk.data.name == t.name
    ensures t.name !in t.others
  {
    hide View;
  }

  lemma RecoveryViews(start: Disk, t: Turn)
    requires ViewHeld(start, t)
    ensures var steps := RecoverySteps(start);
            && (forall k :: 0 <= k < |steps| ==> ViewHeld(steps[k], t))
            && Verdict(start) == (if View(start).journal && start.data == Empty then TornJournal else Recovered)
            && (View(start).journal && Verdict(start) == Recovered ==>
                  View(steps[|steps| - 1]) == Entries(None, t.others[t.name := t.content], false))
  {
    ViewVerdict(start, t);
    UnfoldRecovery(start);
    hide View, ViewHeld, Do, SyncDir, Verdict, RecoverySteps;
    if View(start).journal && Verdict(start) == Recovered {
      var renamed := if View(start).active.Some? then Do(start, RenameActive(t.name)) else start;
      if View(start).active.Some? {
        RenameView(start, t);
      }
      FinishViews(renamed, t);
    }
  }

  lemma UnfoldRecovery(start: Disk)
    ensures if View(start).journal && Verdict(start) == Recovered then
              var renamed := if View(start).active.Some? then Do(start, RenameActive(start.data.name)) else start;
              var sealed := SyncDir(renamed);
              var removed := Do(sealed, RemoveJournal);
              RecoverySteps(start) == [start, renamed, sealed, removed, SyncDir(removed)]
            else
              RecoverySteps(start) == [start]
  {
    hide View, Do, SyncDir;
  }

  /** Every restart follows a kill: the disk is as the process before it saw it. */
  predicate OnlyKills(first: Disk, attempts: seq<Attempt>)
    requires History(first, attempts)
    decreases |attempts|
  {
    attempts == [] || (attempts[0].found == first && OnlyKills(CutAt(attempts[0]), attempts[1..]))
  }

  lemma {:induction false} KillsKeepViews(first: Disk, attempts: seq<Attempt>, t: Turn)
    requires ViewHeld(first, t) && History(first, attempts) && OnlyKills(first, attempts)
    ensures ViewHeld(LastDisk(first, attempts), t)
    decreases |attempts|
  {
    if attempts != [] {
      hide ViewHeld, RecoverySteps, Restarted;
      RecoveryViews(attempts[0].found, t);
      KillsKeepViews(CutAt(attempts[0]), attempts[1..], t);
    }
  }

  /**
    Kills never endanger anything, whatever has reached the disk: cut a seal at any point
    and its recoveries any number of times, and the next undisturbed recovery finds no
    collision and no loss, and seals the bytes if the journal was written.
   */
  lemma KilledSealRecovers(start: Disk, t: Turn, k: nat, attempts: seq<Attempt>)
    requires View(start) == Entries(Some(t.content), t.others, false) && t.name !in t.others
    requires 1 <= k < |SealSteps(start, t.name)| - 1
    requires History(SealSteps(start, t.name)[k], attempts) && OnlyKills(SealSteps(start, t.name)[k], attempts)
    ensures var found := LastDisk(SealSteps(start, t.name)[k], attempts);
            && OneCopy(View(found), t)
            && Verdict(found) == (if View(found).journal && found.data == Empty then TornJournal else Recovered)
            && (View(found).journal && Verdict(found) == Recovered ==>
                  View(RecoverySteps(found)[|RecoverySteps(found)| - 1]) ==
                    Entries(None, t.others[t.name := t.content], false))
  {
    SealViews(start, t, k);
    hide SealSteps, RecoverySteps, View, Verdict;
    KillsKeepViews(SealSteps(start, t.name)[k], attempts, t);
    RecoveryViews(LastDisk(SealSteps(start, t.name)[k], attempts), t);
  }

  // ---- A torn journal ----

  /** The one place where a kill leaves a torn journal: between creating and writing it. */
  lemma KillTearsJournalIff(start: Disk, t: Turn, k: nat)
    requires View(start) == Entries(Some(t.content), t.others, false) && t.name !in t.others
    requires 1 <= k < |SealSteps(start, t.name)| - 1
    ensures Verdict(SealSteps(start, t.name)[k]) == TornJournal <==> k == 1
  {
    SealViews(start, t, k);
    ViewVerdict(SealSteps(start, t.name)[k], t);
    assert View(SealSteps(start, t.name)[1]).journal by {
      assert View(start.(data := Empty)) == View(start);
      ViewStep(start.(data := Empty), CreateJournal);
    }
    hide View, Do, SyncDir, ViewHeld, Verdict;
  }

  /** A torn journal is never mended: recovery changes nothing, so every later one, after kills, stops at it again. */
  lemma {:induction false} TornJournalIsForever(first: Disk, attempts: seq<Attempt>)
    requires Verdict(first) == TornJournal && History(first, attempts) && OnlyKills(first, attempts)
    ensures LastDisk(first, attempts) == first
    decreases |attempts|
  {
    hide View;
    if attempts != [] {
      assert RecoverySteps(first) == [first];
      TornJournalIsForever(CutAt(attempts[0]), attempts[1..]);
    }
  }

  // ---- One rotation after another ----

  function AppendToOp(op: Op, more: bytes): Op {
    if op.CreateActive? then CreateActive(op.content + more) else op
  }

  /** Writing to the active file; `seal` syncs the bytes before it does anything else. */
  function Append(disk: Disk, more: bytes): Disk {
    var active := disk.durable.active;
    disk.(
      durable := disk.durable.(active := if active.Some? then Some(active.value + more) else None),
      unsynced := seq(|disk.unsynced|, i requires 0 <= i < |disk.unsynced| => AppendToOp(disk.unsynced[i], more)))
  }

  /** Opening the active file, which creates it where there is none. */
  function Reopen(disk: Disk): Disk {
    if View(disk).active.Some? then disk else Do(disk, CreateActive([]))
  }

  datatype Event =
    | Write(more: bytes)
    | Sync
    | Kill
    | Rotate(name: SealedName)
    | Crash(name: SealedName, k: nat, attempts: seq<Attempt>, found: Disk)

  /** The name is not in use, and a crash leads to a recovery that does not stop at a torn journal. */
  predicate Possible(disk: Disk, event: Event) {
    match event
    case Write(_) => true
    case Sync => true
    case Kill => true
    case Rotate(name) => name !in View(disk).sealed
    case Crash(name, k, attempts, found) =>
      name !in View(disk).sealed && Interrupted(disk, name, k, attempts, found) && Verdict(found) != TornJournal
  }

  function Next(disk: Disk, event: Event): Disk {
    match event
    case Write(more) => Append(disk, more)
    case Sync => SyncDir(disk)
    case Kill => Reopen(RecoverySteps(disk)[|RecoverySteps(disk)| - 1])
    case Rotate(name) => SealSteps(disk, name)[|SealSteps(disk, name)| - 1]
    case Crash(name, k, attempts, found) => Reopen(RecoverySteps(found)[|RecoverySteps(found)| - 1])
  }

  /** The log as its bytes: the segments this run sealed, in order, and the active file. */
  datatype Bytes = Bytes(names: seq<SealedName>, segments: seq<bytes>, active: bytes)

  /** What one event makes of them; a crashed rotation took place if its segment is there. */
  function NextBytes(disk: Disk, event: Event, b: Bytes): Bytes {
    match event
    case Write(more) => b.(active := b.active + more)
    case Sync => b
    case Kill => b
    case Rotate(name) => Bytes(b.names + [name], b.segments + [b.active], [])
    case Crash(name, _, _, _) =>
      if name in View(Next(disk, event)).sealed then Bytes(b.names + [name], b.segments + [b.active], []) else b
  }

  function Under(earlier: map<SealedName, bytes>, names: seq<SealedName>, segments: seq<bytes>): map<SealedName, bytes>
    requires |names| == |segments|
  {
    if names == [] then earlier
    else Under(earlier, names[..|names| - 1], segments[..|names| - 1])[names[|names| - 1] := segments[|names| - 1]]
  }

  datatype Run = Run(disk: Disk, b: Bytes)

  function RunAll(start: Disk, content: bytes, events: seq<Event>): Run {
    if events == [] then Run(start, Bytes([], [], content))
    else
      var before := RunAll(start, content, events[..|events| - 1]);
      var last := events[|events| - 1];
      Run(Next(before.disk, last), NextBytes(before.disk, last, before.b))
  }

  predicate AllPossible(start: Disk, content: bytes, events: seq<Event>) {
    events == [] ||
    (&& AllPossible(start, content, events[..|events| - 1])
     && Possible(RunAll(start, content, events[..|events| - 1]).disk, events[|events| - 1]))
  }

  /** Everything the events write. */
  function AllWritten(events: seq<Event>): bytes {
    if events == [] then [] else AllWritten(events[..|events| - 1]) + WrittenBy(events[|events| - 1])
  }

  function WrittenBy(event: Event): bytes {
    if event.Write? then event.more else []
  }

  function Grown(e: Entries, more: bytes): Entries {
    e.(active := if e.active.Some? then Some(e.active.value + more) else None)
  }

  lemma {:induction false} AppendView(e: Entries, ops: seq<Op>, grown: seq<Op>, more: bytes)
    requires |grown| == |ops| && forall i :: 0 <= i < |ops| ==>
              !ops[i].RenameActive? && grown[i] == AppendToOp(ops[i], more)
    ensures ApplyAll(Grown(e, more), grown) == Grown(ApplyAll(e, ops), more)
  {
    if ops != [] {
      AppendView(e, ops[..|ops| - 1], grown[..|ops| - 1], more);
    }
  }

  lemma AppendKeepsOpen(disk: Disk, others: map<SealedName, bytes>, content: bytes, more: bytes)
    requires OpenLog(disk, others, content)
    ensures OpenLog(Append(disk, more), others, content + more)
    ensures ActiveIsDurable(Append(disk, more)) <==> ActiveIsDurable(disk)
  {
    var d := Append(disk, more);
    forall i | 0 <= i < |disk.unsynced| ensures !disk.unsynced[i].RenameActive? {
      assert disk.unsynced[i] in disk.unsynced;
    }
    AppendView(disk.durable, disk.unsynced, d.unsynced, more);
    hide ApplyAll;
    forall op | op in d.unsynced ensures OpenOp(op, content + more) {
      var i :| 0 <= i < |d.unsynced| && d.unsynced[i] == op;
      assert disk.unsynced[i] in disk.unsynced;
    }
    if !ActiveIsDurable(disk) {
      var op :| op in disk.unsynced && op.CreateActive?;
      var i :| 0 <= i < |disk.unsynced| && disk.unsynced[i] == op;
      assert d.unsynced[i].CreateActive?;
    } else {
      assert d.unsynced == [];
    }
  }

  lemma SyncKeepsOpen(disk: Disk, others: map<SealedName, bytes>, content: bytes)
    requires OpenLog(disk, others, content)
    ensures OpenLog(SyncDir(disk), others, content) && ActiveIsDurable(SyncDir(disk))
  {
  }

  lemma ReopenIsOpen(disk: Disk, t: Turn)
    requires Held(disk, t) && !View(disk).journal
    ensures if t.name in View(Reopen(disk)).sealed then OpenLog(Reopen(disk), t.others[t.name := t.content], [])
            else OpenLog(Reopen(disk), t.others, t.content)
  {
    if View(disk).active.None? {
      ViewStep(disk, CreateActive([]));
      ViewStep(disk.(unsynced := []), RemoveJournal);
      assert disk.unsynced == [RemoveJournal] ==> Do(disk.(unsynced := []), RemoveJournal) == disk;
      var d := Do(disk, CreateActive([]));
      assert CreateActive([]) in d.unsynced;
    }
  }

  lemma NextKeepsOpen(disk: Disk, event: Event, earlier: map<SealedName, bytes>, b: Bytes)
    requires |b.names| == |b.segments| && OpenLog(disk, Under(earlier, b.names, b.segments), b.active)
    requires Possible(disk, event)
    ensures var b' := NextBytes(disk, event, b);
            |b'.names| == |b'.segments| && OpenLog(Next(disk, event), Under(earlier, b'.names, b'.segments), b'.active)
  {
    var others := Under(earlier, b.names, b.segments);
    match event
    case Write(more) => AppendKeepsOpen(disk, others, b.active, more);
    case Sync => SyncKeepsOpen(disk, others, b.active);
    case Kill =>
    case Rotate(name) =>
      SealHolds(disk, Turn(others, b.active, name));
      UnderMore(earlier, b.names, b.segments, name, b.active);
    case Crash(name, k, attempts, found) =>
      var t := Turn(others, b.active, name);
      UnderMore(earlier, b.names, b.segments, name, b.active);
      InterruptedHolds(disk, t, k, attempts, found);
      RecoveryHolds(found, t);
      ReopenIsOpen(RecoverySteps(found)[|RecoverySteps(found)| - 1], t);
  }

  lemma UnderMore(earlier: map<SealedName, bytes>, names: seq<SealedName>, segments: seq<bytes>, name: SealedName,
                  content: bytes)
    requires |names| == |segments|
    ensures Under(earlier, names + [name], segments + [content]) == Under(earlier, names, segments)[name := content]
  {
    assert (names + [name])[..|names|] == names && (segments + [content])[..|names|] == segments;
  }

  /** The log is open, its segments stand under their names, and with the active file they hold these bytes. */
  predicate Conserves(run: Run, earlier: map<SealedName, bytes>, total: bytes) {
    && |run.b.names| == |run.b.segments|
    && OpenLog(run.disk, Under(earlier, run.b.names, run.b.segments), run.b.active)
    && Flatten(run.b.segments) + run.b.active == total
  }

  lemma NothingHappened(start: Disk, earlier: map<SealedName, bytes>, content: bytes)
    requires OpenLog(start, earlier, content)
    ensures Conserves(Run(start, Bytes([], [], content)), earlier, content)
  {
    assert Flatten([]) + content == content;
  }

  lemma NextConserves(run: Run, event: Event, earlier: map<SealedName, bytes>, total: bytes)
    requires Conserves(run, earlier, total) && Possible(run.disk, event)
    ensures Conserves(Run(Next(run.disk, event), NextBytes(run.disk, event, run.b)), earlier, total + WrittenBy(event))
  {
    NextKeepsOpen(run.disk, event, earlier, run.b);
    hide Next, Possible, OpenLog, Under, View;
    FlattenAppend(run.b.segments, run.b.active);
    hide Flatten;
    assert total + [] == total;
    assert event.Write? ==> Flatten(run.b.segments) + (run.b.active + event.more) == total + event.more;
  }

  /**
    Over any number of rotations, undisturbed or cut short anywhere, with appends and
    directory syncs between them: the log is open again, every segment ever sealed is
    there under its name, and segments and active file together hold exactly the bytes
    they started with and all that was written. Power losses may strike wherever the active
    file's entry is durable, kills anywhere.
   */
  lemma {:induction false} RotationsConserveBytes(start: Disk, earlier: map<SealedName, bytes>, content: bytes,
                                                  events: seq<Event>)
    requires OpenLog(start, earlier, content) && AllPossible(start, content, events)
    ensures Conserves(RunAll(start, content, events), earlier, content + AllWritten(events))
  {
    hide OpenLog, Possible, Next, NextBytes, WrittenBy, Conserves;
    if events == [] {
      NothingHappened(start, earlier, content);
      assert content + [] == content;
    } else {
      var init, last := events[..|events| - 1], events[|events| - 1];
      RotationsConserveBytes(start, earlier, content, init);
      NextConserves(RunAll(start, content, init), last, earlier, content + AllWritten(init));
      assert content + AllWritten(init) + WrittenBy(last) == content + (AllWritten(init) + WrittenBy(last));
    }
  }

  // ---- Where power losses do harm ----

  /**
    Without a durable entry the bytes can be lost: whatever the active file holds, from
    every such log a power loss between the journal's sync and the directory sync can leave
    the journal and neither file.
   */
  lemma UnsyncedActiveCanBeLost(start: Disk, t: Turn) returns (found: Disk)
    requires OpenLog(start, t.others, t.content) && t.name !in t.others && !ActiveIsDurable(start)
    ensures PowerLoss(SealSteps(start, t.name)[3], found) && Verdict(found) == LostBoth
    ensures found.durable.sealed == t.others
  {
    var d := SealSteps(start, t.name)[3];
    found := Disk(Apply(start.durable, CreateJournal), [], Synced(t.name));
    assert d.unsynced == start.unsynced + [CreateJournal] && d.unsynced[..|start.unsynced|] == start.unsynced;
    NothingSyncedIsAnImage(start.durable, start.unsynced);
    assert found.durable in Images(start.durable, d.unsynced);
    assert View(found) == found.durable;
  }

  /**
    After a whole seal, and whatever is then written to the new file, its entry is not durable until a
    directory sync.
   */
  lemma SealedLogIsEndangered(start: Disk, t: Turn, more: bytes)
    requires OpenLog(start, t.others, t.content) && t.name !in t.others
    ensures var d := Append(SealSteps(start, t.name)[9], more);
            && OpenLog(d, t.others[t.name := t.content], more) && !ActiveIsDurable(d)
            && ActiveIsDurable(SyncDir(d))
  {
    SealHolds(start, t);
    var end := SealSteps(start, t.name)[9];
    assert CreateActive([]) in end.unsynced;
    AppendKeepsOpen(end, t.others[t.name := t.content], [], more);
    assert [] + more == more;
  }

  predicate Collides(e: Entries, name: SealedName) {
    e.journal && e.active.Some? && name in e.sealed
  }

  lemma {:induction false} CreatedAlone(e: Entries, ops: seq<Op>, content: bytes)
    requires forall op :: op in ops ==> OpenOp(op, content)
    requires e.active.None?
    ensures (if CreateActive(content) in ops then e.(active := Some(content)) else e) in Images(e, ops)
  {
    if ops != [] {
      var init, last := ops[..|ops| - 1], ops[|ops| - 1];
      CreatedAlone(e, init, content);
      NothingSyncedIsAnImage(e, init);
      assert ops == init + [last];
      assert last == CreateActive(content) ==> Apply(e, last) == e.(active := Some(content));
    }
  }

  lemma {:induction false} JournalStaysAway(e: Entries, ops: seq<Op>, content: bytes)
    requires forall op :: op in ops ==> OpenOp(op, content)
    ensures forall i :: i in Images(e, ops) ==> i.sealed == e.sealed && (i.journal ==> e.journal)
    ensures RemoveJournal !in ops ==> ApplyAll(e, ops).journal == e.journal
  {
    if ops != [] {
      var init, last := ops[..|ops| - 1], ops[|ops| - 1];
      JournalStaysAway(e, init, content);
      assert OpenOp(last, content);
      forall i | i in Images(e, init)
        ensures Apply(i, last).sealed == e.sealed && (Apply(i, last).journal ==> e.journal)
      {
      }
    }
  }

  /**
    When a later power loss can make recovery report a collision between the active file
    and a segment that is already sealed: for every open log, whatever has been written to
    it, if and only if the last journal is still on the disk, its removal unsynced.
   */
  lemma OpenLogCollidesIff(disk: Disk, others: map<SealedName, bytes>, content: bytes, name: SealedName)
    requires OpenLog(disk, others, content) && name in others
    ensures (exists e :: e in Images(disk.durable, disk.unsynced) && Collides(e, name)) <==> disk.durable.journal
    ensures disk.durable.journal ==> RemoveJournal in disk.unsynced
  {
    JournalStaysAway(disk.durable, disk.unsynced, content);
    if disk.durable.journal {
      CreatedAlone(disk.durable, disk.unsynced, content);
      assert CreateActive(content) in disk.unsynced;
      var e := disk.durable.(active := Some(content));
      assert e in Images(disk.durable, disk.unsynced) && Collides(e, name);
    }
  }

  /**
    Recovery that finds no journal syncs nothing. If the process was killed between
    removing the journal and syncing the directory, opening the new active file adds
    a second unsynced entry, and a power loss that keeps only that one makes the next
    recovery report a collision. It happens exactly then.
   */
  lemma ReopenCollidesIffRemovalUnsynced(disk: Disk, t: Turn)
    requires Held(disk, t) && !View(disk).journal && View(disk).active == None
    ensures (exists e :: e in Images(disk.durable, Reopen(disk).unsynced) && Collides(e, t.name))
            <==> RemoveJournal in disk.unsynced
  {
    HeldVerdict(disk, t);
    ReopenIsOpen(disk, t);
    ViewStep(disk, CreateActive([]));
    assert Reopen(disk).durable == disk.durable;
    assert RemoveJournal in disk.unsynced ==> disk.durable.journal;
    hide Held, View, Images;
    OpenLogCollidesIff(Reopen(disk), t.others[t.name := t.content], [], t.name);
    assert RemoveJournal in Reopen(disk).unsynced ==> RemoveJournal in disk.unsynced;
  }

  /**
    Such a disk is what a seal killed just after removing its journal leaves, and what is then written
    changes nothing.
   */
  lemma KilledSealCanCollide(start: Disk, t: Turn, more: bytes)
    requires OpenLog(start, t.others, t.content) && t.name !in t.others
    ensures var d := SealSteps(start, t.name)[7];
            && Held(d, t) && !View(d).journal && View(d).active == None && RemoveJournal in d.unsynced
            && (var written := Append(Reopen(d), more);
                exists e :: e in Images(written.durable, written.unsynced) && Collides(e, t.name))
  {
    var d := SealSteps(start, t.name)[7];
    ReopenedAtSeven(start, t);
    hide *;
    AppendKeepsOpen(Reopen(d), t.others[t.name := t.content], [], more);
    AppendKeepsJournal(Reopen(d), more);
    NewestIsIn(t.others, t.name, t.content);
    OpenLogCollidesIff(Append(Reopen(d), more), t.others[t.name := t.content], [] + more, t.name);
  }

  lemma NewestIsIn(others: map<SealedName, bytes>, name: SealedName, content: bytes)
    ensures name in others[name := content]
  {
  }

  lemma AppendKeepsJournal(disk: Disk, more: bytes)
    ensures Append(disk, more).durable.journal == disk.durable.journal
  {
  }

  lemma ReopenedAtSeven(start: Disk, t: Turn)
    requires OpenLog(start, t.others, t.content) && t.name !in t.others
    ensures |SealSteps(start, t.name)| == 10
    ensures var d := SealSteps(start, t.name)[7];
            && Held(d, t) && !View(d).journal && View(d).active == None && RemoveJournal in d.unsynced
            && OpenLog(Reopen(d), t.others[t.name := t.content], []) && Reopen(d).durable.journal
  {
    var d := SealSteps(start, t.name)[7];
    FirstStep(start, t.name);
    SealHolds(start, t);
    RemovedAtSeven(start, t);
    hide SealSteps, View, Images;
    HeldVerdict(d, t);
    ReopenIsOpen(d, t);
    ViewStep(d, CreateActive([]));
    hide OpenLog;
  }

  lemma RemovedAtSeven(start: Disk, t: Turn)
    requires OpenLog(start, t.others, t.content) && t.name !in t.others
    ensures var d := SealSteps(start, t.name)[7];
            d.unsynced == [RemoveJournal] && !View(d).journal && View(d).active == None
  {
    SealHolds(start, t);
    var steps := SealSteps(start, t.name);
    CreateStep(start, t);
    hide Held, OneCopy, OpenLog;
    ViewStep(steps[4], RenameActive(t.name));
    ViewStep(steps[6], RemoveJournal);
  }

  /** On a file system that keeps directory operations in order, the collision cannot happen. */
  lemma OrderedJournalingNeverCollides(disk: Disk, t: Turn, kept: nat)
    requires Held(disk, t) && !View(disk).journal && View(disk).active == None
    requires kept <= |Reopen(disk).unsynced|
    ensures !Collides(ApplyAll(disk.durable, Reopen(disk).unsynced[..kept]), t.name)
  {
    var ops := Reopen(disk).unsynced;
    assert ops == disk.unsynced + [CreateActive([])];
    if kept == |ops| {
      assert ops[..kept] == ops;
      ViewStep(disk, CreateActive([]));
      hide Held, Images, ApplyAll;
    } else if kept == |disk.unsynced| {
      assert ops[..kept] == disk.unsynced;
      hide Held, Images, ApplyAll;
    } else {
      assert disk.unsynced == [RemoveJournal] && ops[..kept] == [];
      hide Held, Images;
      OnlyRemoval(disk);
      hide View;
    }
  }

  lemma OnlyRemoval(disk: Disk)
    requires disk.unsynced == [RemoveJournal]
    ensures View(disk) == disk.durable.(journal := false)
  {
    var before := disk.(unsynced := []);
    assert Do(before, RemoveJournal) == disk;
    ViewStep(before, RemoveJournal);
  }

  // ---- Recovery on any disk at all ----

  /** Every segment is still there with its bytes, and the active bytes are where they were or under `name`. */
  predicate LosesNothing(before: Entries, after: Entries, name: Option<SealedName>) {
    && (forall n :: n in before.sealed ==> n in after.sealed && after.sealed[n] == before.sealed[n])
    && (before.active.Some? ==>
          || after.active == before.active
          || (name.Some? && name.value in after.sealed && after.sealed[name.value] == before.active.value))
  }

  /**
    Recovery loses nothing, whatever it finds and wherever it stops: not one segment, and
    not the active bytes. That is why it stops at a segment that already has the name.
   */
  lemma RecoveryLosesNothing(start: Disk)
    ensures var steps := RecoverySteps(start);
            var name := if start.data == Empty then None else Some(start.data.name);
            forall k :: 0 <= k < |steps| ==> LosesNothing(View(start), View(steps[k]), name)
  {
    if View(start).journal && Verdict(start) == Recovered {
      FinishingViews(start);
      RenameLosesNothing(View(start), start.data.name);
    } else {
      UnfoldRecovery(start);
    }
    hide View, RecoverySteps;
  }

  /** What a recovery that finishes shows of the directory. */
  lemma FinishingViews(start: Disk)
    requires View(start).journal && Verdict(start) == Recovered
    ensures var steps, renamed := RecoverySteps(start), Renamed(View(start), start.data.name);
            && |steps| == 5 && View(steps[0]) == View(start)
            && View(steps[1]) == renamed && View(steps[2]) == renamed
            && View(steps[3]) == renamed.(journal := false) && View(steps[4]) == renamed.(journal := false)
            && steps[4].unsynced == [] && steps[4].durable == renamed.(journal := false)
  {
    UnfoldRecovery(start);
    var renamed := if View(start).active.Some? then Do(start, RenameActive(start.data.name)) else start;
    var sealed := SyncDir(renamed);
    var removed := Do(sealed, RemoveJournal);
    assert SyncDir(removed).durable == View(removed) && SyncDir(removed).unsynced == [];
    hide View, RecoverySteps, Do, SyncDir;
    ViewStep(start, RenameActive(start.data.name));
    SyncView(renamed);
    ViewStep(sealed, RemoveJournal);
    SyncView(removed);
  }

  function Renamed(e: Entries, name: SealedName): Entries {
    if e.active.Some? then Entries(None, e.sealed[name := e.active.value], e.journal) else e
  }

  lemma RenameLosesNothing(e: Entries, name: SealedName)
    requires e.active.Some? ==> name !in e.sealed
    ensures LosesNothing(e, e, Some(name)) && LosesNothing(e, Renamed(e, name), Some(name))
    ensures LosesNothing(e, Renamed(e, name).(journal := false), Some(name))
  {
  }

  /**
    It finishes exactly when there is no journal, or when the journal can be read and one
    of the two files is there, not both; then the journal is gone for good and the file
    has its journalled name. Otherwise it changes nothing.
   */
  lemma RecoveryFinishesIff(start: Disk)
    ensures var view, steps := View(start), RecoverySteps(start);
            var finishes := start.data != Empty && (view.active.None? <==> start.data.name in view.sealed);
            && (view.journal && finishes ==>
                  && |steps| == 5 && steps[4].unsynced == [] && start.data.name in steps[4].durable.sealed
                  && steps[4].durable.active == None && !steps[4].durable.journal)
            && (!view.journal || !finishes ==> steps == [start])
            && (Verdict(start) == Recovered <==> !view.journal || finishes)
            && (Verdict(start) == TornJournal <==> view.journal && start.data == Empty)
            && (Verdict(start) == Collision <==> start.data != Empty && Collides(view, start.data.name))
            && Verdict(start) != IoError
  {
    if View(start).journal && Verdict(start) == Recovered {
      FinishingViews(start);
    } else {
      UnfoldRecovery(start);
    }
    hide View, RecoverySteps;
  }
}
