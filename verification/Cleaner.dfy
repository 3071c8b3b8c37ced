/**
  Retention of sealed segments. The cleaner works beside a running log writer, every one
  of its file-system calls may fail, and the process may stop, or the machine lose power,
  between any two of them. Every segment it removes must leave a record of the gap.
 */
module Cleaner {
  import opened Wrappers
  import opened SegmentNames

  // ---- The gap journal ----

  datatype Source = Access | Error

  datatype Gap = Gap(source: Source, segment: Name, endOffset: nat)

  /**
    What one append leaves in the journal: a whole record, or, when the write stops
    early, the beginning of one. `unterminated` says that only the newline is missing.
   */
  datatype Piece = Record(gap: Gap) | Torn(gap: Gap, unterminated: bool)

  /**
    `readGapJournal`. A torn record runs into whatever is appended next, and the two
    together are not a record.
   */
  function ReadGaps(pieces: seq<Piece>): Option<seq<Gap>> {
    if pieces == [] then Some([])
    else match pieces[0]
      case Record(gap) =>
        var rest := ReadGaps(pieces[1..]);
        if rest.Some? then Some([gap] + rest.value) else None
      case Torn(gap, unterminated) =>
        if |pieces| == 1 && unterminated then Some([gap]) else None
  }

  predicate Recorded(pieces: seq<Piece>, segment: Name, size: nat) {
    exists i :: 0 <= i < |pieces| && pieces[i].Record? && pieces[i].gap.segment == segment
        && pieces[i].gap.endOffset == size
  }

  /** The last piece of a journal can be read if it lacks no more than the newline. */
  predicate Readable(last: Piece) {
    last.Torn? ==> last.unterminated
  }

  predicate Whole(pieces: seq<Piece>) {
    forall i :: 0 <= i < |pieces| ==> pieces[i].Record?
  }

  function Gaps(pieces: seq<Piece>): seq<Gap> {
    seq(|pieces|, i requires 0 <= i < |pieces| => pieces[i].gap)
  }

  lemma WholeFront(first: Piece, rest: seq<Piece>)
    ensures Whole([first] + rest) <==> first.Record? && Whole(rest)
  {
    var all := [first] + rest;
    assert all[0] == first && all[1..] == rest;
    forall i | 0 <= i < |rest| ensures rest[i] == all[i + 1] {
    }
  }

  /** Exactly the journals without a torn record, but for a missing last newline, can be read, and then in full. */
  lemma {:induction false} JournalReadsIff(pieces: seq<Piece>)
    ensures ReadGaps(pieces).Some? <==>
            pieces == [] || (Whole(pieces[..|pieces| - 1]) && Readable(pieces[|pieces| - 1]))
    ensures ReadGaps(pieces).Some? ==> ReadGaps(pieces).value == Gaps(pieces)
  {
    if pieces != [] {
      var rest := pieces[1..];
      JournalReadsIff(rest);
      if rest != [] {
        assert pieces[..|pieces| - 1] == [pieces[0]] + rest[..|rest| - 1];
        assert rest[|rest| - 1] == pieces[|pieces| - 1];
        WholeFront(pieces[0], rest[..|rest| - 1]);
      }
    }
  }

  /** One torn append makes the journal unreadable for good, whatever is appended afterwards. */
  lemma TornAppendIsForever(pieces: seq<Piece>, gap: Gap, unterminated: bool, more: seq<Piece>)
    requires more != []
    ensures ReadGaps(pieces + [Torn(gap, unterminated)] + more).None?
  {
    var all := pieces + [Torn(gap, unterminated)] + more;
    JournalReadsIff(all);
    assert all[..|all| - 1][|pieces|] == Torn(gap, unterminated);
  }

  // ---- The log directory ----

  datatype File = File(size: nat, regular: bool)

  /**
    `linked`: the journal's directory entry has reached the disk. `synced`: how many of its
    records have. `unsynced`: removals that have not.
   */
  datatype Disk = Disk(
    files: map<Name, File>,
    gaps: Option<seq<Piece>>,
    linked: bool,
    synced: nat,
    unsynced: map<Name, File>)

  function Journalled(gaps: Option<seq<Piece>>): seq<Piece> {
    if gaps.Some? then gaps.value else []
  }

  function Synced(d: Disk): seq<Piece> {
    var all := Journalled(d.gaps);
    if d.synced <= |all| then all[..d.synced] else all
  }

  /** A segment that was ever sealed: its name and its size. A name may come back with another size. */
  type Segment = (Name, nat)

  predicate Present(files: map<Name, File>, s: Segment) {
    s.0 in files && files[s.0].size == s.1
  }

  /** Every segment is there or has its gap in the journal. */
  ghost predicate WriteAhead(files: map<Name, File>, gaps: Option<seq<Piece>>, ever: set<Segment>) {
    forall s :: s in ever ==> Present(files, s) || Recorded(Journalled(gaps), s.0, s.1)
  }

  /** What a power loss may leave: unsynced removals undone or not, unsynced journal writes kept or not. */
  ghost predicate IsImage(d: Disk, files: map<Name, File>, gaps: Option<seq<Piece>>) {
    && (forall n :: n in d.files ==> n in files && files[n] == d.files[n])
    && (forall n :: n in files && n !in d.files ==> n in d.unsynced && files[n] == d.unsynced[n])
    && (match gaps
        case None => d.gaps.None? || !d.linked
        case Some(pieces) => d.gaps.Some? && Synced(d) <= pieces)
  }

  /** As WriteAhead, with the gap synced. */
  ghost predicate Safe(d: Disk, ever: set<Segment>) {
    && (if d.gaps.Some? then d.synced <= |d.gaps.value| else !d.linked)
    && forall s :: s in ever ==> Present(d.files, s) || Recorded(Synced(d), s.0, s.1)
  }

  lemma RecordedInMore(pieces: seq<Piece>, more: seq<Piece>, segment: Name, size: nat)
    requires pieces <= more && Recorded(pieces, segment, size)
    ensures Recorded(more, segment, size)
  {
    var i :|
      0 <= i < |pieces| && pieces[i].Record? && pieces[i].gap.segment == segment && pieces[i].gap.endOffset == size;
    assert more[i] == pieces[i];
  }

  /**
    After any power loss every segment is there or has its gap recorded, if and only if
    the journal's own directory entry is on the disk or nothing has been removed yet.
   */
  lemma PowerLossKeepsGapsIff(d: Disk, ever: set<Segment>)
    requires Safe(d, ever)
    ensures (forall files, gaps :: IsImage(d, files, gaps) ==> WriteAhead(files, gaps, ever)) <==>
            d.linked || forall s :: s in ever ==> Present(d.files, s)
  {
    if d.linked {
      forall files, gaps | IsImage(d, files, gaps) ensures WriteAhead(files, gaps, ever) {
        forall s | s in ever && !Present(files, s) ensures Recorded(Journalled(gaps), s.0, s.1) {
          assert !Present(d.files, s);
          RecordedInMore(Synced(d), Journalled(gaps), s.0, s.1);
        }
      }
    } else {
      assert IsImage(d, d.files, None);
      assert WriteAhead(d.files, None, ever) <==> forall s :: s in ever ==> Present(d.files, s);
      forall files, gaps | IsImage(d, files, gaps) && forall s :: s in ever ==> Present(d.files, s)
        ensures WriteAhead(files, gaps, ever)
      {
        forall s | s in ever ensures Present(files, s) {
          assert Present(d.files, s);
        }
      }
    }
  }

  // ---- The steps, when they succeed ----

  function Opened(d: Disk): Disk {
    if d.gaps.None? then d.(gaps := Some([]), synced := 0) else d
  }

  function Appended(d: Disk, piece: Piece): Disk
    requires d.gaps.Some?
  {
    d.(gaps := Some(d.gaps.value + [piece]))
  }

  function JournalSynced(d: Disk): Disk
    requires d.gaps.Some?
  {
    d.(synced := |d.gaps.value|)
  }

  function Removed(d: Disk, name: Name): Disk
    requires name in d.files
  {
    d.(files := d.files - {name}, unsynced := d.unsynced[name := d.files[name]])
  }

  /**
    It does come to that: with a journal whose entry is not durable, for instance one that
    is only now created, the steps for one segment lead to a moment at which a power loss
    can leave neither the segment nor its gap.
   */
  lemma UnlinkedJournalCanLoseGap(d: Disk, ever: set<Segment>, name: Name, source: Source)
    requires Safe(d, ever) && !d.linked && name in d.files && (name, d.files[name].size) in ever
    ensures var gap := Gap(source, name, d.files[name].size);
            var after := Removed(JournalSynced(Appended(Opened(d), Record(gap))), name);
            && Safe(after, ever) && !after.linked && name !in after.files
            && exists files, gaps :: IsImage(after, files, gaps) && !WriteAhead(files, gaps, ever)
  {
    var gap := Gap(source, name, d.files[name].size);
    var appended := JournalSynced(Appended(Opened(d), Record(gap)));
    assert Safe(Opened(d), ever);
    AppendKeepsSafe(Opened(d), ever, Record(gap), |Opened(d).gaps.value| + 1);
    var pieces := Synced(appended);
    assert pieces[|pieces| - 1] == Record(gap);
    RemoveKeepsSafe(appended, ever, name);
    var after := Removed(appended, name);
    assert !Present(after.files, (name, d.files[name].size));
    hide Safe, IsImage, WriteAhead;
    PowerLossKeepsGapsIff(after, ever);
  }

  // ---- What the steps keep ----

  /** The cleaner may remove this name. */
  ghost predicate MayGo(actives: set<Name>, cutoff: Instant, allowed: set<Name>, name: Name) {
    exists active :: active in actives && Eligible(active, cutoff, allowed, name)
  }

  /** Nothing but eligible segments is gone, and no remaining segment has changed. */
  ghost predicate Kept(before: map<Name, File>, after: map<Name, File>, actives: set<Name>, cutoff: Instant,
                       allowed: set<Name>) {
    forall n :: n in before && !MayGo(actives, cutoff, allowed, n) ==>
      n in after && (HasSuffix(n, SUFFIX) ==> after[n] == before[n])
  }

  /** What the log writer may do: anything but touch a sealed segment or remove a file. */
  ghost predicate WriterMay(before: map<Name, File>, after: map<Name, File>) {
    forall n :: n in before ==> n in after && (HasSuffix(n, SUFFIX) ==> after[n] == before[n])
  }

  lemma WriterKeepsSafe(d: Disk, ever: set<Segment>, files: map<Name, File>, ever': set<Segment>)
    requires Safe(d, ever) && WriterMay(d.files, files)
    requires forall s :: s in ever ==> HasSuffix(s.0, SUFFIX)
    requires forall s :: s in ever' && s !in ever ==> Present(files, s)
    ensures Safe(d.(files := files), ever')
  {
    forall s | s in ever' ensures Present(files, s) || Recorded(Synced(d), s.0, s.1) {
      if s in ever {
        assert Present(d.files, s) || Recorded(Synced(d), s.0, s.1);
      }
    }
  }

  lemma AppendKeepsSafe(d: Disk, ever: set<Segment>, piece: Piece, synced: nat)
    requires Safe(d, ever) && d.gaps.Some? && d.synced <= synced <= |d.gaps.value| + 1
    ensures Safe(Appended(d, piece).(synced := synced), ever)
  {
    var d' := Appended(d, piece).(synced := synced);
    forall s | s in ever && !Present(d.files, s) ensures Recorded(Synced(d'), s.0, s.1) {
      RecordedInMore(Synced(d), Synced(d'), s.0, s.1);
    }
  }

  lemma RemoveKeepsSafe(d: Disk, ever: set<Segment>, name: Name)
    requires Safe(d, ever) && name in d.files && Recorded(Synced(d), name, d.files[name].size)
    ensures Safe(Removed(d, name), ever)
  {
    var files := d.files - {name};
    forall s | s in ever ensures Present(files, s) || Recorded(Synced(d), s.0, s.1) {
      assert Present(d.files, s) || Recorded(Synced(d), s.0, s.1);
    }
  }

  lemma KeptFirst(files: map<Name, File>, actives: set<Name>, cutoff: Instant, allowed: set<Name>)
    ensures Kept(files, files, actives, cutoff, allowed)
  {
  }

  lemma WriterKeeps(a: map<Name, File>, b: map<Name, File>, c: map<Name, File>, actives: set<Name>, cutoff: Instant,
                    allowed: set<Name>)
    requires Kept(a, b, actives, cutoff, allowed) && WriterMay(b, c)
    ensures Kept(a, c, actives, cutoff, allowed)
  {
  }

  lemma RemovalKeeps(a: map<Name, File>, b: map<Name, File>, active: Name, cutoff: Instant, allowed: set<Name>, n: Name)
    requires Kept(a, b, {active}, cutoff, allowed) && Eligible(active, cutoff, allowed, n)
    ensures Kept(a, b - {n}, {active}, cutoff, allowed)
  {
    assert MayGo({active}, cutoff, allowed, n);
    hide MayGo, Eligible;
  }

  lemma KeptBoth(a: map<Name, File>, b: map<Name, File>, c: map<Name, File>, first: Name, second: Name, cutoff: Instant,
                 allowed: set<Name>)
    requires Kept(a, b, {first}, cutoff, allowed) && Kept(b, c, {second}, cutoff, allowed)
    ensures Kept(a, c, {first, second}, cutoff, allowed)
  {
    hide Eligible;
    forall n | n in a && !MayGo({first, second}, cutoff, allowed, n)
      ensures n in c && (HasSuffix(n, SUFFIX) ==> c[n] == a[n])
    {
      assert !Eligible(first, cutoff, allowed, n) && !Eligible(second, cutoff, allowed, n);
      assert !MayGo({first}, cutoff, allowed, n) && !MayGo({second}, cutoff, allowed, n);
    }
  }

  // ---- The cleaner ----

  datatype Moment = Moment(disk: Disk, ever: set<Segment>)

  ghost predicate GoodMoment(m: Moment, linkedBefore: bool, filesBefore: map<Name, File>, actives: set<Name>,
                             cutoff: Instant, allowed: set<Name>) {
    && Safe(m.disk, m.ever)
    && (linkedBefore ==> m.disk.linked)
    && Kept(filesBefore, m.disk.files, actives, cutoff, allowed)
  }

  /** If the journal's entry was on the disk to begin with, no power loss during cleaning loses a gap. */
  lemma CleaningSurvivesPowerLoss(m: Moment, before: map<Name, File>, actives: set<Name>, cutoff: Instant,
                                  allowed: set<Name>,
                                  files: map<Name, File>, gaps: Option<seq<Piece>>)
    requires GoodMoment(m, true, before, actives, cutoff, allowed) && IsImage(m.disk, files, gaps)
    ensures WriteAhead(files, gaps, m.ever) && Kept(before, files, actives, cutoff, allowed)
  {
    hide MayGo;
    PowerLossKeepsGapsIff(m.disk, m.ever);
  }

  datatype CleanResult = CleanResult(files: nat, reclaimed: nat, gaps: seq<Gap>)

  function SourceOf(active: Name): Source {
    if active == "access.log" then Access else Error
  }

  function OfSource(gaps: seq<Gap>, source: Source): seq<Gap> {
    if gaps == [] then []
    else if gaps[0].source == source then [gaps[0]] + OfSource(gaps[1..], source)
    else OfSource(gaps[1..], source)
  }

  function TotalSize(gaps: seq<Gap>): nat {
    if gaps == [] then 0 else TotalSize(gaps[..|gaps| - 1]) + gaps[|gaps| - 1].endOffset
  }

  function Records(gaps: seq<Gap>): seq<Piece> {
    seq(|gaps|, i requires 0 <= i < |gaps| => Record(gaps[i]))
  }

  function Targets(files: map<Name, File>, active: Name, cutoff: Instant, allowed: set<Name>): set<Name> {
    set n | n in files && files[n].regular && Eligible(active, cutoff, allowed, n)
  }

  /** `gaps` lists exactly the segments `names`, each once and with its size. */
  ghost predicate Lists(gaps: seq<Gap>, names: set<Name>, files: map<Name, File>, source: Source) {
    && (forall i :: 0 <= i < |gaps| ==>
          gaps[i].segment in names && gaps[i].segment in files
              && gaps[i] == Gap(source, gaps[i].segment, files[gaps[i].segment].size))
    && (forall i, j :: 0 <= i < j < |gaps| ==> gaps[i].segment != gaps[j].segment)
    && (forall n :: n in names ==> exists i :: 0 <= i < |gaps| && gaps[i].segment == n)
  }

  lemma ListsNothing(files: map<Name, File>, active: Name, cutoff: Instant, allowed: set<Name>)
    ensures Lists([], Targets(files, active, cutoff, allowed) - files.Keys, files, SourceOf(active))
  {
  }

  lemma TargetsAreSealed(files: map<Name, File>, active: Name, cutoff: Instant, allowed: set<Name>)
    ensures forall n :: n in Targets(files, active, cutoff, allowed) ==> n in files && HasSuffix(n, SUFFIX)
  {
  }

  /** These files are as they were listed. */
  ghost predicate Still(names: set<Name>, entries: map<Name, File>, files: map<Name, File>) {
    forall n :: n in names ==> n in entries && n in files && files[n] == entries[n]
  }

  lemma StillFirst(names: set<Name>, files: map<Name, File>)
    requires names <= files.Keys
    ensures Still(names, files, files)
  {
  }

  lemma StillHas(names: set<Name>, entries: map<Name, File>, files: map<Name, File>, n: Name)
    requires Still(names, entries, files) && n in names
    ensures n in entries && n in files && files[n] == entries[n]
  {
  }

  lemma StillThere(names: set<Name>, rest: set<Name>, entries: map<Name, File>, before: map<Name, File>,
                   after: map<Name, File>,
                   active: Name, cutoff: Instant, allowed: set<Name>, name: Name)
    requires Still(names, entries, before) && WriterMay(before, after)
    requires names <= Targets(entries, active, cutoff, allowed) && rest == names - {name}
    ensures Still(names, entries, after) && Still(rest, entries, after - {name}) && Still(rest, entries, after)
  {
    TargetsAreSealed(entries, active, cutoff, allowed);
    hide Targets, HasSuffix;
  }

  lemma TargetIff(files: map<Name, File>, active: Name, cutoff: Instant, allowed: set<Name>, n: Name)
    requires n in files
    ensures n in Targets(files, active, cutoff, allowed) <==> files[n].regular && Eligible(active, cutoff, allowed, n)
  {
  }

  lemma ListsMore(gaps: seq<Gap>, names: set<Name>, files: map<Name, File>, source: Source, n: Name)
    requires Lists(gaps, names, files, source) && n !in names && n in files
    ensures Lists(gaps + [Gap(source, n, files[n].size)], names + {n}, files, source)
  {
    var gaps' := gaps + [Gap(source, n, files[n].size)];
    forall m | m in names + {n} ensures exists i :: 0 <= i < |gaps'| && gaps'[i].segment == m {
      if m == n {
        assert gaps'[|gaps|].segment == m;
      } else {
        var i :| 0 <= i < |gaps| && gaps[i].segment == m;
        assert gaps'[i].segment == m;
      }
    }
  }

  class LogDirectory {
    var disk: Disk
    /** Every segment ever sealed here. */
    ghost var ever: set<Segment>
    ghost var history: seq<Moment>
    /** No disk operation ever fails. */
    const reliable: bool

    ghost predicate Valid()
      reads this
    {
      && Safe(disk, ever)
      && (forall s :: s in ever ==> HasSuffix(s.0, SUFFIX))
    }

    constructor (disk: Disk, ghost ever: set<Segment>, reliable: bool)
      ensures this.disk == disk && this.ever == ever && history == [Moment(disk, ever)] && this.reliable == reliable
    {
      this.disk := disk;
      this.reliable := reliable;
      this.ever := ever;
      history := [Moment(disk, ever)];
    }

    /** Whether the next disk operation fails. */
    method Fault() returns (failed: bool)
      ensures reliable ==> !failed
    {
      failed := *;
      failed := failed && !reliable;
    }

    /** The log writer runs for a while: files grow, and new segments appear. */
    method WriterRuns()
      requires Valid()
      modifies this
      ensures Valid()
      ensures WriterMay(old(disk.files), disk.files) && disk == old(disk).(files := disk.files)
      ensures history == old(history) + [Moment(disk, ever)]
    {
      hide Safe;
      var steps: int := *;
      for i := 0 to if steps < 0 then 0 else steps
        invariant Valid() && history == old(history)
        invariant WriterMay(old(disk.files), disk.files) && disk == old(disk).(files := disk.files)
      {
        var name: Name := *;
        var size: int := *;
        if size >= 0 && !(name in disk.files && HasSuffix(name, SUFFIX)) {
          var files := disk.files[name := File(size, true)];
          var segment: Segment := (name, size as nat);
          ghost var ever' := if HasSuffix(name, SUFFIX) then ever + {segment} else ever;
          WriterKeepsSafe(disk, ever, files, ever');
          disk := disk.(files := files);
          ever := ever';
        }
      }
      history := history + [Moment(disk, ever)];
    }

    method OpenJournal() returns (ok: bool)
      requires Valid()
      modifies this`disk, this`history
      ensures Valid() && history == old(history) + [Moment(disk, ever)]
      ensures disk.files == old(disk.files) && disk.linked == old(disk.linked) && disk.unsynced == old(disk.unsynced)
      ensures Journalled(disk.gaps) == Journalled(old(disk.gaps)) && (ok ==> disk.gaps.Some?)
      ensures reliable ==> ok
    {
      var failed := Fault();
      ok := !failed;
      if ok {
        disk := Opened(disk);
      }
      history := history + [Moment(disk, ever)];
    }

    /** One write, which may stop early, and one sync, which may fail. */
    method WriteGap(gap: Gap) returns (ok: bool)
      requires Valid() && disk.gaps.Some?
      modifies this`disk, this`history
      ensures Valid() && Extends(old(history), history, disk, ever)
      ensures disk.files == old(disk.files) && disk.linked == old(disk.linked) && disk.unsynced == old(disk.unsynced)
      ensures disk.gaps.Some?
      ensures ok ==> disk.gaps == Some(old(disk.gaps.value) + [Record(gap)]) && Synced(disk) == disk.gaps.value
      ensures ok ==> Recorded(Synced(disk), gap.segment, gap.endOffset)
      ensures forall i :: |old(history)| <= i < |history| ==>
                && history[i].ever == ever && Safe(history[i].disk, ever)
                && history[i].disk.files == disk.files && history[i].disk.linked == disk.linked
      ensures reliable ==> ok
    {
      hide Safe;
      var written: int := *;
      var unterminated: bool := *;
      var short := Fault();
      var complete := !short;
      if written <= 0 && !complete {
        history := history + [Moment(disk, ever)];
        return false;
      }
      var piece := if complete then Record(gap) else Torn(gap, unterminated);
      AppendKeepsSafe(disk, ever, piece, disk.synced) by {
        SyncedFits(disk, ever);
      }
      AppendKeepsSafe(disk, ever, piece, |disk.gaps.value| + 1) by {
        SyncedFits(disk, ever);
      }
      disk := Appended(disk, piece);
      history := history + [Moment(disk, ever)];
      if !complete {
        return false;
      }
      var failed := Fault();
      ok := !failed;
      if ok {
        disk := JournalSynced(disk);
        LastIsRecorded(disk.gaps.value, gap);
      }
      history := history + [Moment(disk, ever)];
    }

    static lemma LastIsRecorded(pieces: seq<Piece>, gap: Gap)
      requires pieces != [] && pieces[|pieces| - 1] == Record(gap)
      ensures Recorded(pieces, gap.segment, gap.endOffset)
    {
    }

    static lemma SyncedFits(d: Disk, ever: set<Segment>)
      requires Safe(d, ever) && d.gaps.Some?
      ensures d.synced <= |d.gaps.value|
    {
    }

    static ghost predicate Extends(before: seq<Moment>, after: seq<Moment>, disk: Disk, ever: set<Segment>) {
      |before| < |after| && before <= after && after[|after| - 1] == Moment(disk, ever)
    }

    method RemoveSegment(name: Name) returns (ok: bool)
      requires Valid() && name in disk.files && Recorded(Synced(disk), name, disk.files[name].size)
      modifies this`disk, this`history
      ensures Valid() && history == old(history) + [Moment(disk, ever)]
      ensures disk.gaps == old(disk.gaps) && disk.linked == old(disk.linked)
      ensures disk.files == if ok then old(disk.files) - {name} else old(disk.files)
      ensures reliable ==> ok
    {
      var failed := Fault();
      ok := !failed;
      if ok {
        RemoveKeepsSafe(disk, ever, name);
        disk := Removed(disk, name);
      }
      history := history + [Moment(disk, ever)];
    }

    method SyncDirectory() returns (ok: bool)
      requires Valid()
      modifies this`disk, this`history
      ensures Valid() && history == old(history) + [Moment(disk, ever)]
      ensures disk.files == old(disk.files) && disk.gaps == old(disk.gaps)
      ensures old(disk.linked) ==> disk.linked
      ensures ok ==> disk.linked == disk.gaps.Some? && disk.unsynced == map[]
      ensures reliable ==> ok
    {
      var failed := Fault();
      ok := !failed;
      if ok {
        disk := disk.(linked := disk.gaps.Some?, unsynced := map[]);
      }
      history := history + [Moment(disk, ever)];
    }

    /** Records the gap, then removes the segment. */
    method CleanSegment(source: Source, name: Name, appending: bool) returns (removed: Option<Gap>)
      requires Valid() && name in disk.files && (appending ==> disk.gaps.Some?)
      modifies this`disk, this`history
      ensures Valid() && Extends(old(history), history, disk, ever)
      ensures removed.Some? ==>
                && removed.value == Gap(source, name, old(disk.files)[name].size)
                && disk.files == old(disk.files) - {name} && disk.gaps.Some?
                && Journalled(disk.gaps) == Journalled(old(disk.gaps)) + [Record(removed.value)]
      ensures reliable ==> removed.Some?
      ensures old(disk.linked) ==> disk.linked
      ensures disk.files == old(disk.files) || disk.files == old(disk.files) - {name}
      ensures forall i :: |old(history)| <= i < |history| ==>
                && Safe(history[i].disk, history[i].ever)
                && (old(disk.linked) ==> history[i].disk.linked)
                && (history[i].disk.files == old(disk.files) || history[i].disk.files == old(disk.files) - {name})
    {
      hide Safe, Recorded, Synced;
      var gap := Gap(source, name, disk.files[name].size);
      if !appending {
        var ok := OpenJournal();
        if !ok {
          return None;
        }
      }
      var ok := WriteGap(gap);
      if !ok {
        return None;
      }
      ok := RemoveSegment(name);
      return if ok then Some(gap) else None;
    }

    /** Since `start`, every moment was good. */
    ghost predicate GoodSince(start: Start, actives: set<Name>, cutoff: Instant, allowed: set<Name>)
      reads this
    {
      && Valid() && start.history <= history
      && GoodMoment(Moment(disk, ever), start.linked, start.files, actives, cutoff, allowed)
      && forall i :: |start.history| <= i < |history| ==>
           GoodMoment(history[i], start.linked, start.files, actives, cutoff, allowed)
    }

    method LetWriterRun(ghost start: Start, active: Name, cutoff: Instant, allowed: set<Name>)
      requires GoodSince(start, {active}, cutoff, allowed)
      modifies this
      ensures GoodSince(start, {active}, cutoff, allowed)
      ensures WriterMay(old(disk.files), disk.files) && disk.gaps == old(disk.gaps)
    {
      hide Safe, Kept;
      WriterRuns();
      WriterKeeps(start.files, old(disk.files), disk.files, {active}, cutoff, allowed);
    }

    method Clean(ghost start: Start, active: Name, cutoff: Instant, allowed: set<Name>, name: Name, appending: bool)
      returns (removed: Option<Gap>)
      requires GoodSince(start, {active}, cutoff, allowed)
      requires Eligible(active, cutoff, allowed, name) && name in disk.files && (appending ==> disk.gaps.Some?)
      modifies this`disk, this`history
      ensures GoodSince(start, {active}, cutoff, allowed)
      ensures removed.Some? ==>
                && removed.value == Gap(SourceOf(active), name, old(disk.files)[name].size)
                && disk.files == old(disk.files) - {name} && disk.gaps.Some?
                && Journalled(disk.gaps) == Journalled(old(disk.gaps)) + [Record(removed.value)]
      ensures reliable ==> removed.Some?
    {
      hide Safe, Kept;
      RemovalKeeps(start.files, disk.files, active, cutoff, allowed, name);
      removed := CleanSegment(SourceOf(active), name, appending);
    }

    /** One directory entry: while the writer runs, the segment is removed if it is eligible. */
    method Visit(ghost start: Start, active: Name, cutoff: Instant, allowed: set<Name>, entries: map<Name, File>,
                 ghost rest: set<Name>, name: Name, appending: bool)
      returns (ok: bool, removed: Option<Gap>)
      requires GoodSince(start, {active}, cutoff, allowed)
      requires Still(rest, entries, disk.files) && rest <= Targets(entries, active, cutoff, allowed)
      requires name in entries && (name in Targets(entries, active, cutoff, allowed) ==> name in rest)
      requires appending ==> disk.gaps.Some?
      modifies this
      ensures GoodSince(start, {active}, cutoff, allowed)
      ensures ok ==>
                && Still(rest - {name}, entries, disk.files)
                && (removed.Some? <==> name in Targets(entries, active, cutoff, allowed))
                && (if removed.Some? then
                      && removed.value == Gap(SourceOf(active), name, entries[name].size)
                      && disk.gaps.Some?
                      && Journalled(disk.gaps) == Journalled(old(disk.gaps)) + [Record(removed.value)]
                    else
                      disk.gaps == old(disk.gaps))
      ensures reliable ==> ok
    {
      hide Safe, Kept, Eligible, Targets, Still, WriterMay, GoodSince;
      LetWriterRun(start, active, cutoff, allowed);
      StillThere(rest, rest - {name}, entries, old(disk.files), disk.files, active, cutoff, allowed, name);
      TargetIff(entries, active, cutoff, allowed, name);
      if entries[name].regular && Eligible(active, cutoff, allowed, name) {
        var failed := Fault();
        if failed {
          return false, None;
        }
        StillHas(rest, entries, disk.files, name);
        if name in disk.files {
          removed := Clean(start, active, cutoff, allowed, name, appending);
          return removed.Some?, removed;
        }
      }
      return true, None;
    }

    /** The loop over the listed directory entries. */
    method CleanEntries(ghost start: Start, active: Name, cutoff: Instant, allowed: set<Name>)
      returns (ok: bool, count: nat, reclaimed: nat, ghost removed: seq<Gap>)
      requires GoodSince(start, {active}, cutoff, allowed)
      modifies this
      ensures GoodSince(start, {active}, cutoff, allowed)
      ensures ok ==>
                && Lists(removed, Targets(old(disk.files), active, cutoff, allowed), old(disk.files), SourceOf(active))
                && Journalled(disk.gaps) == Journalled(old(disk.gaps)) + Records(removed)
                && count == |removed| && reclaimed == TotalSize(removed)
                && (removed != [] ==> disk.gaps.Some?)
      ensures reliable ==> ok
    {
      hide Safe, Kept, Lists, Eligible, Targets, Still, WriterMay, Records, TotalSize, GoodSince;
      var entries := disk.files;
      var rest := entries.Keys;
      ghost var targets := Targets(entries, active, cutoff, allowed);
      ListsNothing(entries, active, cutoff, allowed);
      StillFirst(rest * targets, entries);
      NoRecords();
      var appending := false;
      count, reclaimed, removed := 0, 0, [];
      while rest != {}
        invariant GoodSince(start, {active}, cutoff, allowed)
        invariant rest <= entries.Keys
        invariant Lists(removed, targets - rest, entries, SourceOf(active))
        invariant Still(rest * targets, entries, disk.files)
        invariant Journalled(disk.gaps) == Journalled(old(disk.gaps)) + Records(removed)
        invariant count == |removed| && reclaimed == TotalSize(removed)
        invariant appending ==> disk.gaps.Some?
        invariant removed != [] ==> appending
        decreases |rest|
      {
        var name :| name in rest;
        var gap;
        ok, gap := Visit(start, active, cutoff, allowed, entries, rest * targets, name, appending);
        if !ok {
          return;
        }
        OneFewer(targets, rest, name);
        if gap.Some? {
          ListsMore(removed, targets - rest, entries, SourceOf(active), name);
          RecordsMore(removed, gap.value);
          JournalMore(Journalled(old(disk.gaps)), removed, gap.value);
          appending := true;
          count := count + 1;
          reclaimed := reclaimed + gap.value.endOffset;
          removed := removed + [gap.value];
        }
        rest := rest - {name};
      }
      assert targets - {} == targets;
      ok := true;
    }

    /** `cleanSealedSegments`; None is an error, and `removed` lists what is gone by then. */
    method CleanSealedSegments(active: Name, cutoff: Instant, allowed: set<Name>)
      returns (result: Option<CleanResult>, ghost removed: seq<Gap>)
      requires Valid()
      modifies this
      ensures GoodSince(old(Now()), {active}, cutoff, allowed)
      ensures result.Some? ==>
                && Lists(removed, Targets(old(disk.files), active, cutoff, allowed), old(disk.files), SourceOf(active))
                && Journalled(disk.gaps) == Journalled(old(disk.gaps)) + Records(removed)
                && result.value.files == |removed|
                && result.value.reclaimed == TotalSize(removed)
                && ReadGaps(Journalled(disk.gaps)).Some?
                && result.value.gaps == OfSource(ReadGaps(Journalled(disk.gaps)).value, SourceOf(active))
                && (removed != [] ==> disk.linked && disk.unsynced == map[])
      ensures reliable && Whole(Journalled(old(disk.gaps))) ==> result.Some? && Whole(Journalled(disk.gaps))
    {
      hide Safe, Kept, Lists, Targets, ReadGaps, OfSource, Records, TotalSize, GoodSince;
      GoodNow({active}, cutoff, allowed);
      var unlisted := Fault();
      if unlisted {
        return None, [];
      }
      var ok, count, reclaimed;
      ok, count, reclaimed, removed := CleanEntries(Now(), active, cutoff, allowed);
      if ok && count > 0 {
        ok := SyncRemovals(old(Now()), active, cutoff, allowed);
      }
      var gaps := ReadGaps(Journalled(disk.gaps));
      if ok && Whole(Journalled(old(disk.gaps))) {
        WholeIsReadable(Journalled(old(disk.gaps)), removed);
      }
      var unread := Fault();
      if !ok || unread || gaps.None? {
        return None, removed;
      }
      return Some(CleanResult(count, reclaimed, OfSource(gaps.value, SourceOf(active)))), removed;
    }

    method SyncRemovals(ghost start: Start, active: Name, cutoff: Instant, allowed: set<Name>) returns (ok: bool)
      requires GoodSince(start, {active}, cutoff, allowed)
      modifies this`disk, this`history
      ensures GoodSince(start, {active}, cutoff, allowed)
      ensures disk.gaps == old(disk.gaps) && (ok ==> disk.linked == disk.gaps.Some? && disk.unsynced == map[])
      ensures reliable ==> ok
    {
      hide Safe, Kept;
      ok := SyncDirectory();
    }

    static lemma WholeIsReadable(pieces: seq<Piece>, removed: seq<Gap>)
      requires Whole(pieces)
      ensures Whole(pieces + Records(removed)) && ReadGaps(pieces + Records(removed)).Some?
    {
      assert Whole(pieces + Records(removed));
      JournalReadsIff(pieces + Records(removed));
      hide ReadGaps;
    }

    lemma GoodOverBoth(start: Start, middle: Start, first: Name, second: Name, cutoff: Instant, allowed: set<Name>)
      requires GoodSince(middle, {second}, cutoff, allowed)
      requires start.history <= middle.history && (start.linked ==> middle.linked)
      requires Kept(start.files, middle.files, {first}, cutoff, allowed)
      requires forall i :: |start.history| <= i < |middle.history| ==>
                 GoodMoment(middle.history[i], start.linked, start.files, {first}, cutoff, allowed)
      ensures GoodSince(start, {first, second}, cutoff, allowed)
    {
      hide Safe, Kept, Valid;
      var both := {first, second};
      KeptBoth(start.files, middle.files, disk.files, first, second, cutoff, allowed);
      forall i | |start.history| <= i < |history|
        ensures GoodMoment(history[i], start.linked, start.files, both, cutoff, allowed)
      {
        if i < |middle.history| {
          assert history[i] == middle.history[i];
          KeptFirst(middle.history[i].disk.files, {second}, cutoff, allowed);
          var files := middle.history[i].disk.files;
          KeptBoth(start.files, files, files, first, second, cutoff, allowed);
        } else {
          KeptBoth(start.files, middle.files, history[i].disk.files, first, second, cutoff, allowed);
        }
      }
    }

    /**
      `CleanLogsAt` over the access and the error log, which share a directory and a
      journal. At every moment, successful or not, every segment ever sealed is there or
      has a synced gap record, and only eligible segments of the two logs are gone. Success
      means that exactly the segments eligible when their log was listed were removed, once
      each, and that the counts, the bytes and the returned gaps are theirs; `listed` is
      the directory when the error log's turn came.
     */
    method CleanLogsAt(access: Name, error: Name, cutoff: Instant, allowed: set<Name>)
      returns (result: Option<CleanResult>, ghost first: seq<Gap>, ghost second: seq<Gap>,
               ghost listed: map<Name, File>)
      requires Valid()
      modifies this
      ensures GoodSince(old(Now()), {access, error}, cutoff, allowed)
      ensures Kept(old(disk.files), listed, {access}, cutoff, allowed)
      ensures result.Some? ==>
                && Lists(first, Targets(old(disk.files), access, cutoff, allowed), old(disk.files), SourceOf(access))
                && Lists(second, Targets(listed, error, cutoff, allowed), listed, SourceOf(error))
                && Journalled(disk.gaps) == Journalled(old(disk.gaps)) + Records(first) + Records(second)
                && result.value.files == |first| + |second|
                && result.value.reclaimed == TotalSize(first) + TotalSize(second)
                && ReadGaps(Journalled(old(disk.gaps)) + Records(first)).Some? && ReadGaps(Journalled(disk.gaps)).Some?
                && result.value.gaps ==
                     OfSource(ReadGaps(Journalled(old(disk.gaps)) + Records(first)).value, SourceOf(access))
                     + OfSource(ReadGaps(Journalled(disk.gaps)).value, SourceOf(error))
      ensures reliable && Whole(Journalled(old(disk.gaps))) ==> result.Some?
    {
      hide Safe, Kept, Lists, Targets, ReadGaps, OfSource, Records, TotalSize;
      second := [];
      var one;
      one, first := CleanSealedSegments(access, cutoff, allowed);
      ghost var middle := Now();
      listed := disk.files;
      GoodNow({error}, cutoff, allowed);
      if one.None? {
        GoodOverBoth(old(Now()), middle, access, error, cutoff, allowed);
        return None, first, second, listed;
      }
      var two;
      two, second := CleanSealedSegments(error, cutoff, allowed);
      GoodOverBoth(old(Now()), middle, access, error, cutoff, allowed);
      if two.None? {
        return None, first, second, listed;
      }
      result := Some(CleanResult(one.value.files + two.value.files, one.value.reclaimed + two.value.reclaimed,
                                 one.value.gaps + two.value.gaps));
    }

    /** A segment that was eligible for the error log at the start has its gap too, whichever log's turn it went in. */
    lemma EligibleIsRecorded(before: map<Name, File>, listed: map<Name, File>, access: Name, error: Name,
                             cutoff: Instant, allowed: set<Name>,
                             pieces: seq<Piece>, first: seq<Gap>, second: seq<Gap>, s: Name)
      requires Kept(before, listed, {access}, cutoff, allowed)
      requires Lists(first, Targets(before, access, cutoff, allowed), before, SourceOf(access))
      requires Lists(second, Targets(listed, error, cutoff, allowed), listed, SourceOf(error))
      requires s in Targets(before, access, cutoff, allowed) || s in Targets(before, error, cutoff, allowed)
      ensures s in before && Recorded(pieces + Records(first) + Records(second), s, before[s].size)
    {
      TargetsAreSealed(before, access, cutoff, allowed);
      TargetsAreSealed(before, error, cutoff, allowed);
      AllRecorded(pieces, first, before, access, cutoff, allowed);
      AllRecorded(pieces + Records(first), second, listed, error, cutoff, allowed);
      hide Kept, Lists, Targets, Recorded;
      if s in Targets(before, access, cutoff, allowed) {
        RecordedInMore(pieces + Records(first), pieces + Records(first) + Records(second), s, before[s].size);
      } else {
        TargetStays(before, listed, access, error, cutoff, allowed, s);
      }
    }

    lemma GoodNow(actives: set<Name>, cutoff: Instant, allowed: set<Name>)
      requires Valid()
      ensures GoodSince(Now(), actives, cutoff, allowed)
    {
      KeptFirst(disk.files, actives, cutoff, allowed);
    }

    ghost function Now(): Start
      reads this
    {
      Start(history, disk.linked, disk.files)
    }
  }

  datatype Start = Start(history: seq<Moment>, linked: bool, files: map<Name, File>)

  lemma TargetStays(before: map<Name, File>, after: map<Name, File>, first: Name, second: Name, cutoff: Instant,
                    allowed: set<Name>, n: Name)
    requires Kept(before, after, {first}, cutoff, allowed)
    requires n in Targets(before, second, cutoff, allowed) && n !in Targets(before, first, cutoff, allowed)
    ensures n in after && after[n] == before[n] && n in Targets(after, second, cutoff, allowed)
  {
    TargetsAreSealed(before, second, cutoff, allowed);
    hide HasSuffix, Eligible;
    assert !MayGo({first}, cutoff, allowed, n);
  }

  lemma AllRecorded(pieces: seq<Piece>, removed: seq<Gap>, files: map<Name, File>, active: Name, cutoff: Instant,
                    allowed: set<Name>)
    requires Lists(removed, Targets(files, active, cutoff, allowed), files, SourceOf(active))
    ensures forall s :: s in Targets(files, active, cutoff, allowed) ==>
              s in files && Recorded(pieces + Records(removed), s, files[s].size)
  {
    forall s | s in Targets(files, active, cutoff, allowed)
      ensures Recorded(pieces + Records(removed), s, files[s].size)
    {
      var i :| 0 <= i < |removed| && removed[i].segment == s;
      assert (pieces + Records(removed))[|pieces| + i] == Record(removed[i]);
    }
  }

  // ---- What a result says ----

  /** The two logs of a node, by name. */
  lemma SourcesAre(active: Name)
    ensures SourceOf("access.log") == Access && SourceOf("error.log") == Error
    ensures active != "access.log" ==> SourceOf(active) == Error
  {
  }

  /** The gaps of one source are those, in their order, ... */
  lemma {:induction false} OfSourceConcat(a: seq<Gap>, b: seq<Gap>, source: Source)
    ensures OfSource(a + b, source) == OfSource(a, source) + OfSource(b, source)
  {
    if a == [] {
      assert a + b == b;
    } else {
      assert (a + b)[1..] == a[1..] + b;
      OfSourceConcat(a[1..], b, source);
    }
  }

  /** ... all of them where every gap is of the source, and none where none is. */
  lemma {:induction false} OfSourceIs(gaps: seq<Gap>, source: Source)
    ensures (forall i :: 0 <= i < |gaps| ==> gaps[i].source == source) ==> OfSource(gaps, source) == gaps
    ensures (forall i :: 0 <= i < |gaps| ==> gaps[i].source != source) ==> OfSource(gaps, source) == []
  {
    if gaps != [] {
      OfSourceIs(gaps[1..], source);
      assert gaps == [gaps[0]] + gaps[1..];
    }
  }

  lemma {:induction false} TotalSizeConcat(a: seq<Gap>, b: seq<Gap>)
    ensures TotalSize([]) == 0 && (|a| == 1 ==> TotalSize(a) == a[0].endOffset)
    ensures TotalSize(a + b) == TotalSize(a) + TotalSize(b)
  {
    if b == [] {
      assert a + b == a;
    } else {
      var init := b[..|b| - 1];
      TotalSizeConcat(a, init);
      assert (a + b)[..|a + b| - 1] == a + init;
    }
  }

  /** A log's part of the result: the gaps it already had in the journal, and then what has just gone. */
  lemma ReturnedGaps(pieces: seq<Piece>, removed: seq<Gap>, source: Source)
    requires Whole(pieces) && forall i :: 0 <= i < |removed| ==> removed[i].source == source
    ensures var read := ReadGaps(pieces + Records(removed));
            read.Some? && OfSource(read.value, source) == OfSource(Gaps(pieces), source) + removed
  {
    JournalReadsIff(pieces + Records(removed));
    assert Whole(pieces + Records(removed));
    assert Gaps(pieces + Records(removed)) == Gaps(pieces) + removed;
    OfSourceConcat(Gaps(pieces), removed, source);
    OfSourceIs(removed, source);
    hide OfSource, ReadGaps;
  }

  lemma NoRecords()
    ensures Records([]) == [] && TotalSize([]) == 0
  {
  }

  lemma OneFewer(targets: set<Name>, rest: set<Name>, n: Name)
    requires n in rest
    ensures rest * targets - {n} == (rest - {n}) * targets
    ensures n in targets ==> n !in targets - rest && targets - rest + {n} == targets - (rest - {n})
    ensures n !in targets ==> targets - rest == targets - (rest - {n})
  {
  }

  lemma JournalMore(pieces: seq<Piece>, gaps: seq<Gap>, gap: Gap)
    ensures pieces + Records(gaps + [gap]) == pieces + Records(gaps) + [Record(gap)]
  {
    RecordsMore(gaps, gap);
    hide Records;
  }

  lemma RecordsMore(gaps: seq<Gap>, gap: Gap)
    ensures Records(gaps + [gap]) == Records(gaps) + [Record(gap)]
    ensures TotalSize(gaps + [gap]) == TotalSize(gaps) + gap.endOffset
  {
    assert (gaps + [gap])[..|gaps|] == gaps;
  }
}
