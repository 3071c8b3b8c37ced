/**
  The segmented log writer: it buffers partial lines, writes whole units to the
  active file and seals that file under a fresh name when it would grow too large
  or the day changes. Disk operations may fail at any point; which ones do, and
  what the clock shows, is arbitrary.
 */
module LogWriter {
  import opened Lines
  import opened SegmentNames
  import opened Wrappers

  const MAX_PENDING_LINE_BYTES: nat := 0x10_0000

  type Date = Day

  // ---- Units: what the consuming loop of Write cuts off the pending bytes ----

  /** What the active file holds when the log is opened. */
  function InitialBytes(files: map<FileName, bytes>): bytes {
    if Active in files then files[Active] else []
  }

  function SealedCount(files: map<FileName, bytes>): nat {
    |set name | name in files && name.Sealed?|
  }

  lemma OneFile(content: bytes)
    ensures Flatten([] + [content]) == content
    ensures Aligned(content) ==> EachAligned([] + [content])
  {
    FlattenAppend([], content);
    assert Flatten([]) + content == content;
  }

  /** Length of the next unit to write, or 0 when the loop stops. */
  function NextUnit(pending: bytes): (n: nat)
    ensures n <= |pending|
  {
    var index := IndexNewline(pending);
    if index >= MAX_PENDING_LINE_BYTES then MAX_PENDING_LINE_BYTES
    else if 0 <= index then index + 1
    else if |pending| >= MAX_PENDING_LINE_BYTES then |pending|
    else 0
  }

  function Units(pending: bytes): seq<bytes>
    decreases |pending|
  {
    var n := NextUnit(pending);
    if n == 0 then [] else [pending[..n]] + Units(pending[n..])
  }

  function Rest(pending: bytes): bytes
    decreases |pending|
  {
    var n := NextUnit(pending);
    if n == 0 then pending else Rest(pending[n..])
  }

  /** What stays pending has no newline and is shorter than the flush limit. */
  lemma {:induction false} RestIsShort(pending: bytes)
    ensures NoNewline(Rest(pending)) && |Rest(pending)| < MAX_PENDING_LINE_BYTES
    ensures |Rest(pending)| <= |pending| && Rest(pending) == pending[|pending| - |Rest(pending)|..]
    decreases |pending|
  {
    hide Rest, IndexFrom;
    UnitStep(pending);
    var n := NextUnit(pending);
    if n == 0 {
      IndexFromIsFirst(pending, 0);
    } else {
      hide NextUnit;
      RestIsShort(pending[n..]);
      SuffixOfSuffix(pending, n, |Rest(pending)|);
    }
  }

  lemma SuffixOfSuffix(s: bytes, n: nat, k: nat)
    requires k <= |s| - n
    ensures s[n..][|s[n..]| - k..] == s[|s| - k..]
  {
  }

  lemma UnitStep(pending: bytes)
    ensures var n := NextUnit(pending);
            if n == 0 then Units(pending) == [] && Rest(pending) == pending
            else && Units(pending) == [pending[..n]] + Units(pending[n..])
                 && Rest(pending) == Rest(pending[n..])
  {
    hide IndexFrom;
  }

  /**
    The units and the rest are the pending bytes, cut only behind newlines and in runs of a
    mebibyte or more without one.
   */
  lemma {:induction false} UnitsAreLines(pending: bytes)
    ensures Flatten(Units(pending)) + Rest(pending) == pending
    ensures forall unit :: unit in Units(pending) ==>
              || (0 < |unit| <= 1_048_576 && unit[|unit| - 1] == 10 && NoNewline(unit[..|unit| - 1]))
              || (1_048_576 <= |unit| && NoNewline(unit))
    ensures |Rest(pending)| < 1_048_576 && NoNewline(Rest(pending))
    decreases |pending|
  {
    UnitStep(pending);
    RestIsShort(pending);
    FirstUnitIsLine(pending);
    var n := NextUnit(pending);
    hide Units, Rest, IndexFrom, Flatten, NextUnit, NoNewline;
    if n == 0 {
      NothingFlattened();
    } else {
      UnitsAreLines(pending[n..]);
      FlattenFirst(pending[..n], Units(pending[n..]));
      Reassembled(pending, n, Flatten(Units(pending[n..])), Rest(pending));
    }
  }

  lemma Reassembled(pending: bytes, n: nat, units: bytes, rest: bytes)
    requires n <= |pending| && units + rest == pending[n..]
    ensures pending[..n] + units + rest == pending
  {
    assert pending[..n] + units + rest == pending[..n] + (units + rest);
  }

  lemma FirstUnitIsLine(pending: bytes)
    ensures var unit := pending[..NextUnit(pending)];
            || unit == []
            || (0 < |unit| <= 1_048_576 && unit[|unit| - 1] == 10 && NoNewline(unit[..|unit| - 1]))
            || (1_048_576 <= |unit| && NoNewline(unit))
  {
    IndexFromIsFirst(pending, 0);
    hide IndexFrom;
  }

  lemma NothingFlattened()
    ensures Flatten([]) == []
  {
  }

  lemma {:induction false} FlattenFirst(first: bytes, others: seq<bytes>)
    ensures Flatten([first] + others) == first + Flatten(others)
  {
    if others == [] {
      OneFile(first);
      assert [first] + others == [] + [first];
    } else {
      var init, last := others[..|others| - 1], others[|others| - 1];
      FlattenFirst(first, init);
      assert [first] + others == ([first] + init) + [last] && others == init + [last];
      FlattenAppend([first] + init, last);
      FlattenAppend(init, last);
    }
  }

  // ---- Lines short enough to be written whole ----

  /** No line, finished or not, has `MAX_PENDING_LINE_BYTES` bytes before its newline. */
  ghost predicate ShortLines(input: bytes) {
    && (forall a, b :: LineAt(input, a, b) ==> b - a < MAX_PENDING_LINE_BYTES)
    && |input| - TailStart(input) < MAX_PENDING_LINE_BYTES
  }

  lemma ShortLinesOfPrefix(input: bytes, more: bytes)
    requires ShortLines(input + more)
    ensures ShortLines(input)
  {
    var whole := input + more;
    forall a, b | LineAt(input, a, b) ensures b - a < MAX_PENDING_LINE_BYTES {
      assert forall k :: a <= k <= b ==> whole[k] == input[k];
      assert 0 < a ==> whole[a - 1] == input[a - 1];
      assert LineAt(whole, a, b);
    }
    var t := TailStart(input);
    assert 0 < t ==> whole[t - 1] == input[t - 1];
    var end := if 0 <= IndexFrom(whole, t) then IndexFrom(whole, t) else |whole|;
    IndexFromIsFirst(whole, t);
    assert forall k :: t <= k < |input| ==> whole[k] == input[k];
    if end < |whole| {
      assert LineAt(whole, t, end);
    } else {
      assert TailStart(whole) <= t;
    }
  }

  /**
    When the stream has only short lines and what was consumed so far ends a line,
    the next unit is exactly the next line with its newline.
   */
  lemma NextUnitIsLine(consumed: bytes, pending: bytes)
    requires Aligned(consumed) && ShortLines(consumed + pending)
    ensures Aligned(pending[..NextUnit(pending)])
    ensures NextUnit(pending) == IndexNewline(pending) + 1
  {
    FirstLineIsShort(consumed, pending);
    IndexFromIsFirst(pending, 0);
    hide LinesFrom, IndexFrom, ShortLines;
  }

  lemma FirstLineIsShort(consumed: bytes, pending: bytes)
    requires Aligned(consumed) && ShortLines(consumed + pending)
    ensures IndexNewline(pending) < MAX_PENDING_LINE_BYTES
    ensures IndexNewline(pending) < 0 ==> |pending| < MAX_PENDING_LINE_BYTES
  {
    hide LinesFrom, LastIndexNewline, IndexFrom;
    IndexFromIsFirst(pending, 0);
    if 0 <= IndexNewline(pending) {
      FirstLineIsLine(consumed, pending, IndexNewline(pending));
    } else {
      CompleteLinesConcat(consumed, pending, 0);
      NoNewlineNoLine(pending, 0);
    }
  }

  lemma FirstLineIsLine(consumed: bytes, pending: bytes, i: nat)
    requires Aligned(consumed) && i < |pending| && pending[i] == NL && NoNewline(pending[..i])
    ensures LineAt(consumed + pending, |consumed|, |consumed| + i)
  {
    var whole := consumed + pending;
    assert 0 < |consumed| ==> whole[|consumed| - 1] == NL;
    forall k | |consumed| <= k < |consumed| + i ensures whole[k] != NL {
      assert whole[k] == pending[..i][k - |consumed|];
    }
  }

  ghost predicate EachAligned(contents: seq<bytes>) {
    forall i :: 0 <= i < |contents| ==> Aligned(contents[i])
  }

  lemma {:induction false} AlignedFlatten(contents: seq<bytes>)
    requires EachAligned(contents)
    ensures Aligned(Flatten(contents))
  {
    if contents != [] {
      AlignedFlatten(contents[..|contents| - 1]);
    }
  }

  // ---- Days ----

  /** The day each byte of a file was written on; None for what was there before the log was opened. */
  type Days = seq<Option<Date>>

  /** These bytes were all written on one day, as far as they were written here. */
  predicate OnDay(days: Days, day: Date) {
    forall k :: 0 <= k < |days| ==> days[k] == None || days[k] == Some(day)
  }

  function Repeat(day: Option<Date>, n: nat): Days {
    seq(n, _ => day)
  }

  // ---- The writer ----

  class SegmentedLogWriter {
    // The directory, as the process sees it.
    var files: map<FileName, bytes>
    var journalExists: bool

    var fileOpen: bool
    var size: int
    const maxSize: int
    /** No disk operation ever fails. */
    const reliable: bool
    var pending: bytes
    var segment: nat
    var openDate: Date

    /** Names of the segments this writer sealed, oldest first, and their bytes. */
    ghost var sealedNames: seq<FileName>
    ghost var sealedContents: seq<bytes>
    /** The day on which each of these bytes, and each of the active file, was written. */
    ghost var sealedDays: seq<Days>
    ghost var activeDays: Days
    /** The initial active bytes and everything passed to Write since. */
    ghost var input: bytes
    /** No disk operation has failed so far. */
    ghost var healthy: bool
    ghost const startedAligned: bool

    ghost function ActiveBytes(): bytes
      reads this`files
    {
      if Active in files then files[Active] else []
    }

    /** Contents of this writer's segments, oldest first, then the active file. */
    ghost function Contents(): seq<bytes>
      reads this`files, this`sealedContents
    {
      sealedContents + [ActiveBytes()]
    }

    ghost function Stored(): bytes
      reads this`files, this`sealedContents
    {
      Flatten(Contents())
    }

    ghost predicate SegmentsOnDisk()
      reads this`files, this`sealedNames, this`sealedContents
    {
      && |sealedNames| == |sealedContents|
      && (forall i :: 0 <= i < |sealedNames| ==>
            && sealedNames[i].Sealed?
            && sealedNames[i] in files
            && files[sealedNames[i]] == sealedContents[i])
    }

    /** What stands in a segment was written on the day in its name, and what is in the active file on its day. */
    ghost predicate Dated()
      reads this`files, this`openDate, this`sealedNames, this`sealedContents, this`sealedDays, this`activeDays
    {
      && |sealedDays| == |sealedNames| == |sealedContents|
      && (forall i :: 0 <= i < |sealedNames| ==>
            && sealedNames[i].Sealed?
            && |sealedDays[i]| == |sealedContents[i]|
            && OnDay(sealedDays[i], sealedNames[i].day))
      && |activeDays| == |ActiveBytes()|
      && OnDay(activeDays, openDate)
    }

    ghost predicate Sound()
      reads this
    {
      && SegmentsOnDisk()
      && Dated()
      && (fileOpen ==> Active in files && size == |files[Active]|)
    }

    ghost predicate Valid()
      reads this
    {
      && Sound()
      && Faithful()
      && (healthy ==> NoNewline(pending) && |pending| < MAX_PENDING_LINE_BYTES)
    }

    /** As long as nothing failed, every byte is stored or pending, and files end at line ends. */
    ghost predicate Faithful()
      reads this
    {
      healthy ==>
        && fileOpen
        && !journalExists
        && Stored() + pending == input
        && (startedAligned && ShortLines(input) ==> EachAligned(Contents()))
    }

    /** Opening after recovery has finished: no journal is left. */
    constructor AfterRecovery(onDisk: map<FileName, bytes>, maxSize: int, today: Date, reliable: bool)
      ensures Valid() && healthy && pending == [] && openDate == today
      ensures this.maxSize == maxSize && this.reliable == reliable
      ensures activeDays == Repeat(None, |input|)
      ensures sealedContents == [] && input == Stored() == InitialBytes(onDisk)
      ensures files == if Active in onDisk then onDisk else onDisk[Active := []]
      ensures segment == SealedCount(onDisk)
      ensures startedAligned == Aligned(input)
    {
      hide LinesFrom, LastIndexNewline, IndexFrom, ShortLines, Flatten, Aligned, SealedCount;
      files := if Active in onDisk then onDisk else onDisk[Active := []];
      journalExists := false;
      fileOpen := true;
      size := |InitialBytes(onDisk)|;
      this.maxSize := maxSize;
      this.reliable := reliable;
      pending := [];
      segment := SealedCount(onDisk);
      openDate := today;
      sealedNames, sealedContents, sealedDays := [], [], [];
      activeDays := Repeat(None, |InitialBytes(onDisk)|);
      input := InitialBytes(onDisk);
      healthy := true;
      startedAligned := Aligned(InitialBytes(onDisk));
      new;
      OneFile(input);
    }

    /** The condition under which a unit must not go into the current active file. */
    predicate MustSeal(unit: bytes, today: Date)
      reads this
    {
      (maxSize > 0 && size > 0 && size + |unit| > maxSize) || today != openDate
    }

    /** Sealing succeeded: the old active bytes stand under one fresh name, and a new empty file is open. */
    twostate predicate SealedInto(today: Date)
      reads this
    {
      var name := Sealed(old(openDate), segment);
      && old(segment) < segment
      && name !in old(files)
      && (forall g :: old(segment) < g < segment ==> Sealed(old(openDate), g) in old(files))
      && Active in old(files)
      && files == old(files)[name := old(files[Active])][Active := []]
      && sealedNames == old(sealedNames) + [name]
      && sealedContents == old(sealedContents) + [old(files[Active])]
      && sealedDays == old(sealedDays) + [old(activeDays)] && activeDays == []
      && fileOpen && !journalExists && size == 0 && openDate == today
    }

    /** Whether the next disk operation fails. */
    method Fault() returns (failed: bool)
      ensures reliable ==> !failed
    {
      failed := *;
      failed := failed && !reliable;
    }

    /** Picks the first unused generation: `w.segment++` until the candidate does not exist. */
    method NextGeneration() returns (ok: bool)
      modifies this`segment
      ensures old(segment) <= segment
      ensures forall g :: old(segment) < g < segment ==> Sealed(openDate, g) in files
      ensures ok ==> old(segment) < segment && Sealed(openDate, segment) !in files
      ensures reliable ==> ok
    {
      ghost var taken := set name | name in files && name.Sealed? && name.generation > segment;
      while true
        invariant old(segment) <= segment
        invariant forall g :: old(segment) < g <= segment ==> Sealed(openDate, g) in files
        invariant taken == set name | name in files && name.Sealed? && name.generation > segment
        decreases |taken|
      {
        segment := segment + 1;
        var statFails := Fault();
        if statFails {
          return false;
        }
        if Sealed(openDate, segment) !in files {
          return true;
        }
        assert Sealed(openDate, segment) in taken;
        ghost var fewer := set name | name in files && name.Sealed? && name.generation > segment;
        assert fewer <= taken - {Sealed(openDate, segment)};
        CardinalityDrops(fewer, taken, Sealed(openDate, segment));
        taken := fewer;
      }
    }

    static lemma CardinalityDrops(fewer: set<FileName>, more: set<FileName>, x: FileName)
      requires fewer <= more - {x} && x in more
      ensures |fewer| < |more|
    {
      var rest := (more - {x}) - fewer;
      assert more - {x} == fewer + rest;
      assert |more - {x}| == |more| - 1;
    }

    /**
      A seal failed and left its journal, or the file closed. Nothing but a restart mends
      that: no segment is sealed any more.
     */
    twostate predicate StaysStuck()
      reads this
    {
      && (old(journalExists) || !old(fileOpen) ==>
            sealedNames == old(sealedNames) && sealedContents == old(sealedContents))
      && (old(journalExists) ==> journalExists)
      && (!old(fileOpen) ==> !fileOpen && files == old(files))
    }

    /** `os.Rename` of the closed active file onto the journalled name. */
    method RenameActive(name: FileName)
      requires Sound() && !fileOpen && Active in files && name.Sealed? && name !in files
      requires name.day == openDate
      modifies this`files, this`sealedNames, this`sealedContents, this`sealedDays, this`activeDays
      ensures Sound()
      ensures sealedDays == old(sealedDays) + [old(activeDays)] && activeDays == []
      ensures files == (old(files) - {Active})[name := old(files)[Active]]
      ensures sealedNames == old(sealedNames) + [name] && sealedContents == old(sealedContents) + [old(files)[Active]]
      ensures Stored() == old(Stored())
    {
      hide Flatten;
      var moved := files[Active];
      files := (files - {Active})[name := moved];
      sealedNames := sealedNames + [name];
      sealedContents := sealedContents + [moved];
      sealedDays, activeDays := sealedDays + [activeDays], [];
      FlattenAppend(sealedContents, []);
      assert sealedContents == old(Contents());
    }

    /** A new, empty active file. */
    method OpenNew(today: Date)
      requires Sound() && Active !in files
      modifies this`files, this`fileOpen, this`size, this`openDate
      ensures Sound() && Stored() == old(Stored())
      ensures files == old(files)[Active := []] && fileOpen && size == 0 && openDate == today
    {
      hide Flatten;
      files := files[Active := []];
      fileOpen := true;
      size := 0;
      openDate := today;
    }

    method Seal(today: Date) returns (ok: bool)
      requires Sound()
      modifies this`files, this`journalExists, this`fileOpen, this`size, this`segment, this`openDate,
               this`sealedNames, this`sealedContents, this`sealedDays, this`activeDays
      ensures Sound()
      ensures ok ==> old(fileOpen) && !old(journalExists) && SealedInto(today)
      ensures !ok ==> Stored() == old(Stored())
      ensures StaysStuck()
      ensures reliable && old(fileOpen) && !old(journalExists) ==> ok
    {
      hide Flatten, SegmentsOnDisk, Dated;
      var failed := Fault();
      if !fileOpen || failed {
        return false;
      }
      var found := NextGeneration();
      if !found {
        return false;
      }
      var sealedName := Sealed(openDate, segment);
      failed := Fault();
      if journalExists || failed {
        return false;
      }
      journalExists := true;
      failed := Fault();
      if failed {
        return false;
      }
      ok := MoveAway(sealedName, today);
      Renamed(old(files), sealedName);
    }

    /** The part of seal after the journal: the active file gets its sealed name, and a new one is opened. */
    method MoveAway(name: FileName, today: Date) returns (ok: bool)
      requires Sound() && fileOpen && journalExists && name.Sealed? && name !in files && name.day == openDate
      modifies this`files, this`journalExists, this`fileOpen, this`size, this`openDate,
               this`sealedNames, this`sealedContents, this`sealedDays, this`activeDays
      ensures Sound() && Stored() == old(Stored())
      ensures reliable ==> ok
      ensures ok ==>
                && files == (old(files) - {Active})[name := old(files)[Active]][Active := []]
                && sealedNames == old(sealedNames) + [name]
                && sealedContents == old(sealedContents) + [old(files)[Active]]
                && sealedDays == old(sealedDays) + [old(activeDays)] && activeDays == []
                && fileOpen && !journalExists && size == 0 && openDate == today
    {
      hide Flatten, SegmentsOnDisk, Dated;
      fileOpen := false;
      var failed := Fault();
      if failed {
        return false;
      }
      RenameActive(name);
      failed := Fault();
      if failed {
        return false;
      }
      journalExists := false;
      failed := Fault();
      if failed {
        return false;
      }
      OpenNew(today);
      return true;
    }

    static lemma Renamed(files: map<FileName, bytes>, name: FileName)
      requires Active in files && name != Active
      ensures (files - {Active})[name := files[Active]][Active := []] == files[name := files[Active]][Active := []]
    {
    }

    /** `file.Write`: on an I/O error a proper prefix of `line` may have reached the active file. */
    method AppendToActive(line: bytes, ghost today: Date) returns (ok: bool, ghost written: nat)
      requires Sound() && today == openDate
      modifies this`files, this`size, this`activeDays
      ensures Sound()
      ensures activeDays == old(activeDays) + Repeat(Some(today), written)
      ensures ok ==> fileOpen
      ensures StaysStuck()
      ensures ok ==> Contents() == sealedContents + [old(ActiveBytes()) + line]
      ensures written <= |line| && Stored() == old(Stored()) + line[..written]
      ensures ok ==> written == |line|
      ensures reliable && fileOpen ==> ok
    {
      hide Flatten;
      var n: int := *;
      if !fileOpen || n < 0 {
        n := 0;
      } else if |line| < n {
        n := |line|;
      }
      var failed := Fault();
      if fileOpen && !failed {
        n := |line|;
      }
      ghost var before := ActiveBytes();
      if fileOpen {
        files := files[Active := files[Active] + line[..n]];
        activeDays := activeDays + Repeat(Some(today), n);
      }
      size := size + n;
      FlattenAppend(sealedContents, before);
      FlattenAppend(sealedContents, ActiveBytes());
      assert ActiveBytes() == before + line[..n];
      assert Stored() == old(Stored()) + line[..n];
      written := n;
      ok := fileOpen && n == |line|;
      assert ok ==> line[..n] == line;
    }

    /** Before a unit is written: the active file is sealed when it must be. */
    method MakeRoom(line: bytes, today: Date) returns (ok: bool)
      requires Sound()
      modifies this`files, this`journalExists, this`fileOpen, this`size, this`segment, this`openDate,
               this`sealedNames, this`sealedContents, this`sealedDays, this`activeDays
      ensures Sound() && StaysStuck() && Stored() == old(Stored())
      ensures ok && !old(journalExists) ==> !journalExists
      ensures ok ==> openDate == today
      ensures ok && old(MustSeal(line, today)) ==>
                && sealedContents == old(Contents()) && ActiveBytes() == [] && fileOpen
                && sealedNames == old(sealedNames) + [Sealed(old(openDate), segment)] && activeDays == []
      ensures !old(MustSeal(line, today)) ==>
                && ok && sealedNames == old(sealedNames) && activeDays == old(activeDays)
                && sealedContents == old(sealedContents) && files == old(files) && openDate == old(openDate)
                && size == old(size) && fileOpen == old(fileOpen)
      ensures reliable && old(fileOpen) && !old(journalExists) ==> ok && fileOpen
    {
      hide Flatten;
      ok := true;
      if (maxSize > 0 && size > 0 && size + |line| > maxSize) || today != openDate {
        ok := Seal(today);
        FlattenAppend(sealedContents, []);
      }
    }

    /** Writes one unit, sealing the active file first when it must. */
    method WriteLine(line: bytes, today: Date) returns (ok: bool, ghost written: nat)
      requires Sound() && line != []
      modifies this`files, this`journalExists, this`fileOpen, this`size, this`segment, this`openDate,
               this`sealedNames, this`sealedContents, this`sealedDays, this`activeDays
      ensures Sound()
      ensures ok ==> fileOpen && Stored() == old(Stored()) + line
      ensures ok && !old(journalExists) ==> !journalExists
      ensures StaysStuck() && (!old(fileOpen) ==> !ok)
      ensures ok ==> openDate == today
      ensures ok && today == old(openDate) && (maxSize <= 0 || old(size) <= 0 || old(size) + |line| <= maxSize) ==>
                && sealedNames == old(sealedNames) && Contents() == old(sealedContents) + [old(ActiveBytes()) + line]
                && activeDays == old(activeDays) + Repeat(Some(today), |line|)
      ensures ok && !(today == old(openDate) && (maxSize <= 0 || old(size) <= 0 || old(size) + |line| <= maxSize)) ==>
                && sealedNames == old(sealedNames) + [Sealed(old(openDate), segment)]
                && Contents() == old(Contents()) + [line]
                && activeDays == Repeat(Some(today), |line|)
      ensures ok && maxSize > 0 ==> |ActiveBytes()| <= maxSize || ActiveBytes() == line
      ensures written <= |line| && (!ok ==> Stored() == old(Stored()) + line[..written])
      ensures reliable && old(fileOpen) && !old(journalExists) ==> ok
    {
      hide Flatten, SegmentsOnDisk;
      ok := MakeRoom(line, today);
      if !ok {
        assert line[..0] == [];
        return ok, 0;
      }
      ghost var active := ActiveBytes();
      ok, written := AppendToActive(line, today);
      assert ok ==> ActiveBytes() == Contents()[|sealedContents|] == active + line;
      assert [] + line == line && line[..|line|] == line;
    }

    /** Inside Write: the first `i` of the bytes `all` are stored after `base`, the others are pending. */
    ghost predicate Consumed(all: bytes, i: int, base: bytes)
      reads this
    {
      && Sound()
      && 0 <= i <= |all|
      && pending == all[i..]
      && Stored() == base + all[..i]
      && Rest(pending) == Rest(all)
      && (forall unit :: unit in Units(pending) ==> unit in Units(all))
      && (i > 0 && 0 < maxSize ==> |ActiveBytes()| <= maxSize || ActiveBytes() in Units(all))
      && Faithful()
    }

    /** Writes the first `n` pending bytes as one unit. */
    method WriteFirst(n: nat) returns (ok: bool, ghost part: nat)
      requires Sound() && 0 < n <= |pending|
      modifies this
      ensures Sound() && StaysStuck() && input == old(input) && part <= n
      ensures ok ==>
                && old(fileOpen) && fileOpen && (!old(journalExists) ==> !journalExists) && healthy == old(healthy)
                && pending == old(pending)[n..]
                && Stored() == old(Stored()) + old(pending)[..n]
                && (|| Contents() == old(Contents()) + [old(pending)[..n]]
                    || Contents() == old(sealedContents) + [old(ActiveBytes()) + old(pending)[..n]])
                && (0 < maxSize ==> |ActiveBytes()| <= maxSize || ActiveBytes() == old(pending)[..n])
      ensures !ok ==> !healthy && pending == old(pending) && Stored() == old(Stored()) + old(pending)[..part]
      ensures reliable && old(fileOpen) && !old(journalExists) ==> ok
    {
      hide Flatten, SegmentsOnDisk, Dated;
      var line := pending[..n];
      var today: Date := *;
      ok, part := WriteLine(line, today);
      if ok {
        pending := pending[n..];
      } else {
        healthy := false;
        assert line[..part] == pending[..part];
      }
    }

    /** One round of Write's loop: the next unit moves from the pending bytes to the log. */
    method WriteUnit(n: nat, ghost all: bytes, ghost i: int, ghost base: bytes) returns (ok: bool, ghost m: int)
      requires Consumed(all, i, base) && n == NextUnit(pending) && 0 < n
      modifies this
      ensures input == old(input)
      ensures ok ==> healthy == old(healthy) && Consumed(all, i + n, base) && |pending| < |old(pending)|
      ensures !ok ==> !healthy && Valid() && pending == all[i..]
      ensures !ok ==> i <= m <= |all| && Stored() == base + all[..m]
      ensures StaysStuck() && (!old(fileOpen) ==> !ok && pending == old(pending))
      ensures reliable && old(healthy) ==> ok
    {
      hide Flatten, Units, Rest, NextUnit, IndexFrom, LastIndexNewline, LinesFrom, ShortLines, Aligned, SegmentsOnDisk;
      UnitStep(pending);
      ghost var before, stored, was := Contents(), Stored(), pending;
      assert was[..n] in Units(was);
      ghost var part;
      ok, part := WriteFirst(n);
      m := i + part;
      MoveBytes(base, all, i, if ok then n else part);
      if ok && healthy && startedAligned && ShortLines(input) {
        AlignedFlatten(before);
        NextUnitIsLine(stored, was);
        KeepsAligned(before, Contents(), was[..n]);
      }
    }

    /**
      Appends `p` to the pending bytes and writes every unit that is complete.
      After an error the failed unit stays pending, so bytes may be stored twice
      but none is dropped.
     */
    method Write(p: bytes) returns (ok: bool)
      requires Valid()
      modifies this
      ensures Valid()
      ensures input == old(input) + p
      ensures old(healthy) ==> healthy == ok
      ensures ok ==> pending == Rest(old(pending) + p)
      ensures ok ==> Stored() + pending == old(Stored()) + (old(pending) + p)
      ensures ok && 0 < maxSize && |pending| < |old(pending) + p| ==>
                |ActiveBytes()| <= maxSize || ActiveBytes() in Units(old(pending) + p)
      ensures !ok ==> exists i, n :: 0 <= i <= n <= |old(pending) + p|
                        && pending == (old(pending) + p)[i..]
                        && Stored() == old(Stored()) + (old(pending) + p)[..n]
      ensures StaysStuck() && (!old(fileOpen) ==> pending == old(pending) + p)
      ensures reliable && old(healthy) ==> ok
    {
      hide Units, Rest, LinesFrom, IndexFrom, Consumed, Valid;
      ghost var base := Stored();
      Accept(p);
      ghost var all, i := pending, 0;
      while true
        invariant Consumed(all, i, base) && 0 <= i
        invariant healthy == old(healthy) && input == old(input) + p
        invariant StaysStuck() && (!old(fileOpen) ==> pending == old(pending) + p)
        decreases |pending|
      {
        var n: int;
        var index := IndexNewline(pending);
        if index >= MAX_PENDING_LINE_BYTES {
          n := MAX_PENDING_LINE_BYTES;
        } else if index < 0 {
          if |pending| < MAX_PENDING_LINE_BYTES {
            Finished(all, i, base);
            return true;
          }
          n := |pending|;
        } else {
          n := index + 1;
        }
        ghost var stored;
        var written;
        written, stored := WriteUnit(n, all, i, base);
        if !written {
          return false;
        }
        i := i + n;
      }
    }

    method Accept(p: bytes)
      requires Valid()
      modifies this`pending, this`input
      ensures pending == old(pending) + p && input == old(input) + p
      ensures Consumed(pending, 0, Stored())
    {
      hide Flatten, Units, Rest, IndexFrom, LastIndexNewline, LinesFrom, ShortLines;
      if healthy && ShortLines(input + p) {
        ShortLinesOfPrefix(input, p);
      }
      assert Stored() + pending + p == Stored() + (pending + p);
      pending := pending + p;
      input := input + p;
      assert pending[..0] == [] && pending[0..] == pending;
    }

    lemma Finished(all: bytes, i: int, base: bytes)
      requires Consumed(all, i, base) && NextUnit(pending) == 0
      ensures Valid() && pending == Rest(all) && Stored() + pending == base + all
      ensures 0 < maxSize && |pending| < |all| ==> |ActiveBytes()| <= maxSize || ActiveBytes() in Units(all)
    {
      hide Flatten, Units, Rest, NextUnit, IndexFrom, LastIndexNewline, LinesFrom, ShortLines, EachAligned;
      UnitStep(pending);
      RestIsShort(pending);
      Rejoin(base, all, i);
    }

    /** Flushes the pending bytes into the active file, whatever the day, and closes it. */
    method Close() returns (ok: bool)
      requires Valid()
      modifies this
      ensures sealedNames == old(sealedNames) && sealedContents == old(sealedContents)
      ensures ok ==> Stored() == old(Stored()) + old(pending) && pending == [] && !fileOpen
      ensures !ok ==> exists n :: 0 <= n <= |old(pending)| && Stored() == old(Stored()) + old(pending)[..n]
      ensures !ok && pending != old(pending) ==> pending == [] && Stored() == old(Stored()) + old(pending)
      ensures ok && old(healthy) ==> Stored() == old(input)
      ensures reliable && old(fileOpen) ==> ok
    {
      hide Flatten, LastIndexNewline, LinesFrom, ShortLines;
      ghost var kept, before := pending, ActiveBytes();
      FlattenAppend(sealedContents, before);
      assert kept[..0] == [] && kept[..|kept|] == kept;
      if |pending| > 0 {
        var n: int := *;
        if !fileOpen || n < 0 {
          n := 0;
        } else if |pending| < n {
          n := |pending|;
        }
        var short := Fault();
        if fileOpen && !short {
          n := |pending|;
        }
        if fileOpen {
          files := files[Active := files[Active] + pending[..n]];
          ghost var today: Date := *;
          activeDays := activeDays + Repeat(Some(today), n);
          FlattenAppend(sealedContents, ActiveBytes());
        }
        assert Stored() == old(Stored()) + kept[..n];
        if n < |pending| {
          return false;
        }
        pending := [];
      }
      assert Stored() == old(Stored()) + kept[..|kept|];
      var failed := Fault();
      if !fileOpen || failed {
        return false;
      }
      fileOpen := false;
      return true;
    }
  }

  // ---- What a reader of all segments sees ----

  /** The lines the reader's splitter finds in each file, one file after the other. */
  function LinesPerFile(contents: seq<bytes>): seq<bytes> {
    if contents == [] then []
    else LinesPerFile(contents[..|contents| - 1]) + Texts(CompleteLines(contents[|contents| - 1], 0))
  }

  lemma {:induction false} LinesOfAlignedFiles(contents: seq<bytes>)
    requires EachAligned(contents)
    ensures LinesPerFile(contents) == Texts(CompleteLines(Flatten(contents), 0))
  {
    hide LinesFrom;
    if contents == [] {
      NoNewlineNoLine([], 0);
    } else {
      var init, last := contents[..|contents| - 1], contents[|contents| - 1];
      LinesOfAlignedFiles(init);
      AlignedFlatten(init);
      CompleteLinesConcat(Flatten(init), last, 0);
      TextsConcat(CompleteLines(Flatten(init), 0), CompleteLines(last, |Flatten(init)|));
      TextsIgnoreBase(last, 0, 0, |Flatten(init)|);
    }
  }

  /**
    Rotation and reading together lose and split no line. Valid() holds after opening
    and after every Write, so this is a statement about every run of the writer in which
    no disk operation failed: reading its segments in the order they were sealed, and
    then the active file, gives exactly the lines of the whole byte stream.
   */
  lemma RotationSplitsNoLine(w: SegmentedLogWriter)
    requires w.Valid() && w.healthy && w.startedAligned && ShortLines(w.input)
    ensures LinesPerFile(w.Contents()) == Texts(CompleteLines(w.input, 0))
    ensures w.pending == w.input[TailStart(w.input)..]
  {
    hide LinesFrom, LastIndexNewline, Flatten, ShortLines;
    var stored := w.Stored();
    LinesOfAlignedFiles(w.Contents());
    AlignedFlatten(w.Contents());
    CompleteLinesConcat(stored, w.pending, 0);
    NoNewlineNoLine(w.pending, |stored|);
    assert w.input == stored + w.pending;
  }

  /** Retention removes no byte of a day that had not begun before the cutoff. */
  lemma RetentionKeepsLaterDays(w: SegmentedLogWriter, active: Name, i: nat, k: nat, cutoff: Instant,
                                allowed: set<Name>)
    requires w.Valid() && i < |w.sealedNames| && k < |w.sealedDays[i]| && w.sealedDays[i][k].Some?
    requires var name := w.sealedNames[i];
             IsDay(name.day) && Eligible(active, cutoff, allowed, SegmentName(active, name.day, name.generation))
    ensures w.sealedDays[i][k].value.year <= cutoff.day.year
    ensures w.sealedDays[i][k].value.year == cutoff.day.year ==> w.sealedDays[i][k].value.month <= cutoff.day.month
    ensures w.sealedDays[i][k].value.year == cutoff.day.year && w.sealedDays[i][k].value.month == cutoff.day.month ==>
              && w.sealedDays[i][k].value.day <= cutoff.day.day
              && (w.sealedDays[i][k].value.day == cutoff.day.day ==> cutoff.afterMidnight)
  {
    var name := w.sealedNames[i];
    EligibleReadsWritersDay(active, name.day, name.generation, cutoff, allowed);
    hide Eligible, SegmentName, Flatten, ShortLines, LinesFrom;
  }

  lemma Rejoin(base: bytes, all: bytes, i: nat)
    requires i <= |all|
    ensures base + all[..i] + all[i..] == base + all
  {
  }

  lemma MoveBytes(base: bytes, all: bytes, i: nat, n: nat)
    requires i + n <= |all|
    ensures base + all[..i] + all[i..][..n] == base + all[..i + n]
    ensures all[i..][n..] == all[i + n..]
    ensures base + all[..i] + all[i..] == base + all[..i + n] + all[i + n..]
  {
  }

  lemma KeepsAligned(before: seq<bytes>, after: seq<bytes>, line: bytes)
    requires before != []
    requires after == before + [line] || after == before[..|before| - 1] + [before[|before| - 1] + line]
    ensures EachAligned(before) && Aligned(line) ==> EachAligned(after)
  {
  }
}
