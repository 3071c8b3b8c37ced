/**
  The audit-log reader: one chunk of a log file that may be growing, and the
  dashboard's way of following `NextOffset` through it.
 */
module ChunkReader {
  import opened Wrappers
  import opened Lines

  const DEFAULT_INITIAL_TAIL_BYTES := 1_000_000
  const DEFAULT_MAX_READ_BYTES := 5_000_000
  const INT64_LIMIT := 0x8000_0000_0000_0000

  type Timestamp = int

  /** A file as one read sees it: its size when it was examined, and its bytes when it was read. */
  datatype LogFile = LogFile(inode: string, size: nat, content: bytes)

  datatype Request = Request(
    endOffset: Option<int>,
    expectedInode: string,
    fromTimestamp: Option<Timestamp>,
    initialTailBytes: int,
    maxReadBytes: int,
    offset: Option<int>)

  datatype Chunk = Chunk(
    inode: Option<string>,
    lines: seq<bytes>,
    lineOffsets: seq<int>,
    nextOffset: int,
    readStart: int,
    totalSize: int)

  datatype ReadError = InodeChanged | ReadFailed

  /** int64 addition wraps around. */
  function Wrap64(x: int): (r: int)
    ensures -INT64_LIMIT <= r < INT64_LIMIT
    ensures -INT64_LIMIT <= x < INT64_LIMIT ==> r == x
  {
    (x + INT64_LIMIT) % (2 * INT64_LIMIT) - INT64_LIMIT
  }

  function Min(a: int, b: int): int { if a < b then a else b }
  function Max(a: int, b: int): int { if a < b then b else a }

  // ---- Which bytes are read ----

  predicate IsInitialTail(size: nat, request: Request) {
    request.offset.None? || request.offset.value > size
  }

  /** The window [start, end) of the file, before partial first lines are dropped. */
  datatype Window = Window(start: int, end: int, snapshotEnd: int)

  function ReadWindow(size: nat, request: Request): (w: Window)
    ensures 0 <= w.start && 0 <= w.snapshotEnd <= size && w.end <= w.snapshotEnd
  {
    var tail := if request.initialTailBytes <= 0 then DEFAULT_INITIAL_TAIL_BYTES else request.initialTailBytes;
    var max := if request.maxReadBytes <= 0 then DEFAULT_MAX_READ_BYTES else request.maxReadBytes;
    var requested := if IsInitialTail(size, request) then size - tail else request.offset.value;
    var start := Max(requested, 0);
    var snapshotEnd := if request.endOffset.Some? then Max(Min(request.endOffset.value, size), 0) else size;
    Window(start, Min(Wrap64(start + max), snapshotEnd), snapshotEnd)
  }

  /** An initial tail usually starts inside a line, which must not be reported as a whole one. */
  function DropPartialFirstLine(text: bytes, readStart: int): (r: (bytes, int))
    ensures |r.0| <= |text|
    ensures r.1 + |r.0| <= readStart + |text|
  {
    if (|text| >= 1 && text[0] == NL) || (|text| >= 2 && text[0] == CR && text[1] == NL) then (text, readStart)
    else
      var newline := IndexNewline(text);
      if newline < 0 then ([], readStart) else (text[newline + 1..], readStart + newline + 1)
  }

  /** Text and start offset handed to the line splitter. */
  function TextOf(file: LogFile, request: Request): (bytes, int)
    requires file.size <= |file.content|
    requires var w := ReadWindow(file.size, request); w.start < w.end
  {
    var w := ReadWindow(file.size, request);
    var text := file.content[w.start..w.end];
    if IsInitialTail(file.size, request) && 0 < w.start then DropPartialFirstLine(text, w.start) else (text, w.start)
  }

  predicate Recent(line: bytes, request: Request, stamp: bytes -> Option<Timestamp>) {
    request.fromTimestamp.None? || stamp(line).None? || request.fromTimestamp.value <= stamp(line).value
  }

  function KeepRecent(lines: seq<Line>, request: Request, stamp: bytes -> Option<Timestamp>): seq<Line> {
    if lines == [] then []
    else
      var init, last := lines[..|lines| - 1], lines[|lines| - 1];
      KeepRecent(init, request, stamp) + (if Recent(last.text, request, stamp) then [last] else [])
  }

  // ---- What a reader of the log is promised ----

  /** How much of the end of the log a first request wants, and how much one request reads at most. */
  function TailBytes(request: Request): int {
    if request.initialTailBytes <= 0 then 1_000_000 else request.initialTailBytes
  }

  function ReadBytes(request: Request): int {
    if request.maxReadBytes <= 0 then 5_000_000 else request.maxReadBytes
  }

  /** A request for this very file and for lines of any age. */
  predicate Asks(file: LogFile, request: Request) {
    (request.expectedInode == "" || request.expectedInode == file.inode) && request.fromTimestamp.None?
  }

  /** A first request, of the newest lines: its read reaches the end of the log, and no int64 overflows. */
  predicate WantsNewest(file: LogFile, request: Request) {
    && (request.offset.None? || file.size < request.offset.value)
    && request.endOffset.None?
    && TailBytes(request) <= ReadBytes(request) < 0x8000_0000_0000_0000
    && file.size - TailBytes(request) + ReadBytes(request) < 0x8000_0000_0000_0000
  }

  /**
    The newest lines: those that start inside the last TailBytes of the log, but not on
    the first of these bytes; all of them when the log is no longer than that.
   */
  ghost predicate AreNewest(reported: seq<Line>, next: int, file: LogFile, request: Request)
    requires file.size <= |file.content|
  {
    var text := file.content[..file.size];
    var all := CompleteLines(text, 0);
    var cut := file.size - TailBytes(request);
    if cut <= 0 then reported == all && next == TailStart(text)
    else
      && |reported| <= |all| && reported == all[|all| - |reported|..]
      && (forall i :: 0 <= i < |all| ==> (cut < all[i].offset <==> |all| - |reported| <= i))
      && next == if cut < TailStart(text) then TailStart(text) else cut
  }

  /** A request from an offset the log has, which overflows no int64. */
  predicate WantsFrom(file: LogFile, request: Request) {
    && request.offset.Some? && request.offset.value <= file.size
    && ReadBytes(request) < 0x8000_0000_0000_0000
    && request.offset.value + ReadBytes(request) < 0x8000_0000_0000_0000
  }

  /** The complete lines of the bytes from that offset to the end asked for, the end of the log or the limit. */
  predicate AreFrom(reported: seq<Line>, next: int, file: LogFile, request: Request)
    requires file.size <= |file.content| && WantsFrom(file, request)
  {
    var from := if request.offset.value < 0 then 0 else request.offset.value;
    var end := if request.endOffset.None? || file.size < request.endOffset.value then file.size
               else if request.endOffset.value < 0 then 0 else request.endOffset.value;
    var stop := if from + ReadBytes(request) < end then from + ReadBytes(request) else end;
    if stop <= from then reported == [] && next == end
    else
      var text := file.content[from..stop];
      reported == CompleteLines(text, from) && next == from + TailStart(text)
  }

  ghost predicate Answers(reported: seq<Line>, next: int, file: LogFile, request: Request)
    requires file.size <= |file.content|
  {
    && (WantsNewest(file, request) ==> AreNewest(reported, next, file, request))
    && (WantsFrom(file, request) ==> AreFrom(reported, next, file, request))
  }

  /** What the window and the text of a request amount to for its reader. */
  lemma WhatIsRead(file: LogFile, request: Request, stamp: bytes -> Option<Timestamp>)
    requires file.size <= |file.content| && Asks(file, request)
    ensures var w := ReadWindow(file.size, request);
            var (reported, next) :=
              if w.end <= w.start then ([], w.snapshotEnd)
              else var (text, start) := TextOf(file, request);
                   (KeepRecent(CompleteLines(text, start), request, stamp), start + TailStart(text));
            Answers(reported, next, file, request)
  {
    hide CompleteLines, TailStart, KeepRecent, TextOf, AreNewest, AreFrom, WantsNewest, WantsFrom, ReadWindow;
    var w := ReadWindow(file.size, request);
    if w.start < w.end {
      KeepAllRecent(CompleteLines(TextOf(file, request).0, TextOf(file, request).1), request, stamp);
    }
    if WantsNewest(file, request) {
      NewestAreRead(file, request);
    }
    if WantsFrom(file, request) {
      RestIsRead(file, request);
    }
  }

  lemma NewestAreRead(file: LogFile, request: Request)
    requires file.size <= |file.content| && WantsNewest(file, request)
    ensures var w := ReadWindow(file.size, request);
            if w.end <= w.start then AreNewest([], w.snapshotEnd, file, request)
            else var (text, start) := TextOf(file, request);
                 AreNewest(CompleteLines(text, start), start + TailStart(text), file, request)
  {
    hide CompleteLines, TailStart, DropPartialFirstLine;
    var cut := file.size - TailBytes(request);
    var w := ReadWindow(file.size, request);
    assert w == Window(Max(cut, 0), file.size, file.size);
    assert IsInitialTail(file.size, request);
    hide ReadWindow, WantsNewest, Wrap64;
    if file.size == 0 {
      NoNewlineNoLine(file.content[..0], 0);
    } else if cut <= 0 {
      assert file.content[0..file.size] == file.content[..file.size];
    } else {
      CutTail(file.content[..file.size], cut);
      assert file.content[cut..file.size] == file.content[..file.size][cut..];
    }
  }

  /** The text from `cut` on, after dropping, holds the lines that start beyond `cut`. */
  lemma CutTail(whole: bytes, cut: int)
    requires 0 < cut < |whole|
    ensures var (text, start) := DropPartialFirstLine(whole[cut..], cut);
            var all := CompleteLines(whole, 0);
            var reported := CompleteLines(text, start);
            && |reported| <= |all| && reported == all[|all| - |reported|..]
            && (forall i :: 0 <= i < |all| ==> (cut < all[i].offset <==> |all| - |reported| <= i))
            && start + TailStart(text) == if cut < TailStart(whole) then TailStart(whole) else cut
  {
    hide CompleteLines, TailStart, DropPartialFirstLine;
    var d := DropLandsOnLineStart(whole[cut..], cut);
    var c := cut + d;
    assert whole[cut..][d..] == whole[c..];
    LinesBeyond(whole, cut, c);
    TailBeyond(whole, cut);
  }

  lemma LinesBeyond(whole: bytes, cut: int, c: int)
    requires 0 < cut < c <= |whole|
    requires c == |whole| || whole[c - 1] == NL
    requires forall k :: cut <= k < c - 1 ==> whole[k] != NL
    ensures var all, reported := CompleteLines(whole, 0), CompleteLines(whole[c..], c);
            && |reported| <= |all| && reported == all[|all| - |reported|..]
            && (forall i :: 0 <= i < |all| ==> (cut < all[i].offset <==> |all| - |reported| <= i))
  {
    hide CompleteLines, TailStart;
    CutLines(whole, c);
    LinesStartAfter(whole[c..], c);
    NoLineStartsBetween(whole[..c], cut);
    hide *;
    SuffixBeyond(CompleteLines(whole[..c], 0), CompleteLines(whole[c..], c), cut);
  }

  lemma CutLines(whole: bytes, c: int)
    requires 0 < c <= |whole| && (c == |whole| || whole[c - 1] == NL)
    ensures CompleteLines(whole, 0) == CompleteLines(whole[..c], 0) + CompleteLines(whole[c..], c)
  {
    if c == |whole| {
      NoNewlineNoLine(whole[c..], c);
      assert whole[..c] == whole;
    } else {
      CutAfterNewline(whole, 0, c);
    }
    hide *;
  }

  lemma LinesStartAfter(text: bytes, base: int)
    ensures forall i :: 0 <= i < |CompleteLines(text, base)| ==> base <= CompleteLines(text, base)[i].offset
  {
    hide LinesFrom;
    OffsetsIncrease(text, 0, base);
  }

  lemma SuffixBeyond(first: seq<Line>, second: seq<Line>, cut: int)
    requires forall i :: 0 <= i < |first| ==> first[i].offset <= cut
    requires forall i :: 0 <= i < |second| ==> cut < second[i].offset
    ensures var all := first + second;
            && second == all[|all| - |second|..]
            && (forall i :: 0 <= i < |all| ==> (cut < all[i].offset <==> |all| - |second| <= i))
  {
  }

  lemma TailBeyond(whole: bytes, cut: int)
    requires 0 < cut < |whole|
    ensures cut + TailStart(whole[cut..]) == if cut < TailStart(whole) then TailStart(whole) else cut
  {
    hide LastIndexNewline;
    var i, j := LastIndexNewline(whole), LastIndexNewline(whole[cut..]);
    assert 0 <= j ==> whole[cut + j] == NL;
    assert cut <= i ==> whole[cut..][i - cut] == NL;
  }

  /** A text without a newline from `cut` on, but perhaps its last byte, has no line that starts beyond `cut`. */
  lemma NoLineStartsBetween(text: bytes, cut: int)
    requires 0 < cut < |text|
    requires forall k :: cut <= k < |text| - 1 ==> text[k] != NL
    ensures forall i :: 0 <= i < |CompleteLines(text, 0)| ==> CompleteLines(text, 0)[i].offset <= cut
  {
    hide CompleteLines;
    forall i | 0 <= i < |CompleteLines(text, 0)|
      ensures CompleteLines(text, 0)[i].offset <= cut
    {
      var line := CompleteLines(text, 0)[i];
      CompleteLinesExact(text, 0, line);
      var a, b :| LineAt(text, a, b) && line == Line(0 + a, TrimCR(text[a..b])) && line.text != [];
    }
  }

  lemma RestIsRead(file: LogFile, request: Request)
    requires file.size <= |file.content| && WantsFrom(file, request)
    ensures var w := ReadWindow(file.size, request);
            if w.end <= w.start then AreFrom([], w.snapshotEnd, file, request)
            else var (text, start) := TextOf(file, request);
                 AreFrom(CompleteLines(text, start), start + TailStart(text), file, request)
  {
    hide CompleteLines, TailStart, DropPartialFirstLine;
  }

  // ---- One read ----

  /** The part of ReadChunk that decides which bytes to read. */
  method ChooseWindow(size: nat, request: Request)
    returns (isInitialTail: bool, readStart: int, readEnd: int, snapshotEnd: int)
    ensures isInitialTail == IsInitialTail(size, request)
    ensures ReadWindow(size, request) == Window(readStart, readEnd, snapshotEnd)
  {
    hide Wrap64;
    var initialTailBytes := request.initialTailBytes;
    if initialTailBytes <= 0 {
      initialTailBytes := DEFAULT_INITIAL_TAIL_BYTES;
    }
    var maxReadBytes := request.maxReadBytes;
    if maxReadBytes <= 0 {
      maxReadBytes := DEFAULT_MAX_READ_BYTES;
    }
    var requestedOffset := 0;
    isInitialTail := request.offset.None? || request.offset.value > size;
    if isInitialTail {
      requestedOffset := size - initialTailBytes;
      if requestedOffset < 0 {
        requestedOffset := 0;
      }
    } else {
      requestedOffset := request.offset.value;
    }
    snapshotEnd := size;
    if request.endOffset.Some? && request.endOffset.value < snapshotEnd {
      snapshotEnd := request.endOffset.value;
    }
    if snapshotEnd < 0 {
      snapshotEnd := 0;
    }
    if requestedOffset < 0 {
      requestedOffset := 0;
    }
    readStart := requestedOffset;
    readEnd := snapshotEnd;
    var candidate := Wrap64(readStart + maxReadBytes);
    if candidate < readEnd {
      readEnd := candidate;
    }
  }

  /**
    One read. The file may have grown between Stat and ReadAt, so `file.content`
    may be longer than `file.size`; `readFails` is an I/O error of ReadAt.
   */
  method ReadChunk(file: Option<LogFile>, request: Request, stamp: bytes -> Option<Timestamp>, readFails: bool)
    returns (result: Result<Chunk, ReadError>)
    requires file.Some? ==> file.value.size <= |file.value.content|
    ensures file.None? ==> result == Ok(Chunk(None, [], [], 0, 0, 0))
    ensures file.Some? && request.expectedInode != "" && request.expectedInode != file.value.inode ==>
              result == Err(InodeChanged)
    ensures file.Some? && (request.expectedInode == "" || request.expectedInode == file.value.inode) ==>
              var w := ReadWindow(file.value.size, request);
              if w.end <= w.start then
                result == Ok(Chunk(Some(file.value.inode), [], [], w.snapshotEnd, w.start, w.snapshotEnd))
              else if readFails then
                result == Err(ReadFailed)
              else
                var (text, start) := TextOf(file.value, request);
                && result.Ok?
                && result.value.inode == Some(file.value.inode)
                && result.value.readStart == start
                && result.value.totalSize == w.snapshotEnd
                && result.value.nextOffset == start + TailStart(text)
                && |result.value.lines| == |result.value.lineOffsets|
                && Zip(result.value.lineOffsets, result.value.lines)
                   == KeepRecent(CompleteLines(text, start), request, stamp)
    ensures file.Some? && !readFails && Asks(file.value, request) ==>
              && result.Ok? && |result.value.lines| == |result.value.lineOffsets|
              && Answers(Zip(result.value.lineOffsets, result.value.lines), result.value.nextOffset,
                         file.value, request)
  {
    hide ReadWindow, TextOf, Answers, KeepRecent, CompleteLines, TailStart, Zip;
    if file.None? {
      return Ok(Chunk(None, [], [], 0, 0, 0));
    }
    var log := file.value;
    if request.expectedInode != "" && request.expectedInode != log.inode {
      return Err(InodeChanged);
    }
    result := ReadLog(log, request, stamp, readFails);
    if Asks(log, request) {
      WhatIsRead(log, request, stamp);
    }
  }

  /** The part of ReadChunk that reads them. */
  method ReadLog(log: LogFile, request: Request, stamp: bytes -> Option<Timestamp>, readFails: bool)
    returns (result: Result<Chunk, ReadError>)
    requires log.size <= |log.content|
    ensures var w := ReadWindow(log.size, request);
            if w.end <= w.start then
              && result == Ok(Chunk(Some(log.inode), [], [], w.snapshotEnd, w.start, w.snapshotEnd))
              && Zip(result.value.lineOffsets, result.value.lines) == []
            else if readFails then
              result == Err(ReadFailed)
            else
              var (text, start) := TextOf(log, request);
              && result.Ok?
              && result.value.inode == Some(log.inode)
              && result.value.readStart == start
              && result.value.totalSize == w.snapshotEnd
              && result.value.nextOffset == start + TailStart(text)
              && |result.value.lines| == |result.value.lineOffsets|
              && Zip(result.value.lineOffsets, result.value.lines)
                 == KeepRecent(CompleteLines(text, start), request, stamp)
  {
    hide CompleteLines, TailStart, KeepRecent, DropPartialFirstLine;
    var isInitialTail, readStart, readEnd, snapshotEnd := ChooseWindow(log.size, request);
    hide ReadWindow;
    if readStart >= readEnd {
      return Ok(Chunk(Some(log.inode), [], [], snapshotEnd, readStart, snapshotEnd));
    }
    hide Zip;
    if readFails {
      return Err(ReadFailed);
    }
    var text := log.content[readStart..readEnd];
    if isInitialTail && readStart > 0 {
      var dropped := DropPartialFirstLine(text, readStart);
      text, readStart := dropped.0, dropped.1;
    }
    var lines, lineOffsets, nextOffset := SplitCompleteLinesWithOffsets(text, readStart);
    lines, lineOffsets := FilterByTimestamp(lines, lineOffsets, request, stamp);
    return Ok(Chunk(Some(log.inode), lines, lineOffsets, nextOffset, readStart, snapshotEnd));
  }

  method FilterByTimestamp(lines: seq<bytes>, offsets: seq<int>, request: Request, stamp: bytes -> Option<Timestamp>)
    returns (keptLines: seq<bytes>, keptOffsets: seq<int>)
    requires |lines| == |offsets|
    ensures |keptLines| == |keptOffsets|
    ensures Zip(keptOffsets, keptLines) == KeepRecent(Zip(offsets, lines), request, stamp)
  {
    if request.fromTimestamp.None? {
      KeepAllRecent(Zip(offsets, lines), request, stamp);
      return lines, offsets;
    }
    keptLines, keptOffsets := [], [];
    ghost var all := Zip(offsets, lines);
    for i := 0 to |lines|
      invariant |keptLines| == |keptOffsets|
      invariant Zip(keptOffsets, keptLines) == KeepRecent(all[..i], request, stamp)
    {
      assert all[..i + 1][..i] == all[..i] && all[..i + 1][i] == Line(offsets[i], lines[i]);
      ZipAppend(keptOffsets, keptLines, offsets[i], lines[i]);
      if Recent(lines[i], request, stamp) {
        keptLines := keptLines + [lines[i]];
        keptOffsets := keptOffsets + [offsets[i]];
      }
    }
    assert all[..|lines|] == all;
  }

  lemma {:induction false} KeepAllRecent(lines: seq<Line>, request: Request, stamp: bytes -> Option<Timestamp>)
    requires request.fromTimestamp.None?
    ensures KeepRecent(lines, request, stamp) == lines
  {
    if lines != [] {
      KeepAllRecent(lines[..|lines| - 1], request, stamp);
    }
  }

  /** The filter keeps the lines that are not older than the timestamp, and those that bear none. */
  lemma {:induction false} RecentLinesStay(lines: seq<Line>, request: Request, stamp: bytes -> Option<Timestamp>,
                                           line: Line)
    ensures line in KeepRecent(lines, request, stamp) <==>
            && line in lines
            && (request.fromTimestamp.Some? && stamp(line.text).Some? ==>
                  !(stamp(line.text).value < request.fromTimestamp.value))
  {
    if lines != [] {
      var init, last := lines[..|lines| - 1], lines[|lines| - 1];
      assert lines == init + [last];
      RecentLinesStay(init, request, stamp, line);
    }
  }

  /** ... in their order. */
  lemma {:induction false} RecentLinesStayInOrder(a: seq<Line>, b: seq<Line>, request: Request,
                                                  stamp: bytes -> Option<Timestamp>)
    ensures KeepRecent(a + b, request, stamp) == KeepRecent(a, request, stamp) + KeepRecent(b, request, stamp)
  {
    if b == [] {
      assert a + b == a;
    } else {
      var init := b[..|b| - 1];
      RecentLinesStayInOrder(a, init, request, stamp);
      assert (a + b)[..|a + b| - 1] == a + init;
    }
  }

  // ---- The initial tail reports whole lines only ----

  /** After dropping, the text reads like the raw bytes from some line start on (or holds no line). */
  lemma DropLandsOnLineStart(raw: bytes, at: int) returns (d: int)
    ensures 0 <= d <= |raw|
    ensures var (text, start) := DropPartialFirstLine(raw, at);
            && CompleteLines(text, start) == CompleteLines(raw[d..], at + d)
            && start + TailStart(text) == at + TailStart(raw)
    ensures d == |raw| || (0 < d && raw[d - 1] == NL)
    ensures forall k :: 0 <= k < d - 1 ==> raw[k] != NL
  {
    hide CompleteLines, TailStart, IndexFrom;
    if (|raw| >= 1 && raw[0] == NL) || (|raw| >= 2 && raw[0] == CR && raw[1] == NL) {
      d := if raw[0] == NL then 1 else 2;
      DropBlankLine(raw, at, d);
    } else {
      var newline := IndexNewline(raw);
      IndexFromIsFirst(raw, 0);
      if newline < 0 {
        d := |raw|;
        NoNewlineNoLine(raw, at);
        NoNewlineNoLine(raw[d..], at + d);
        NoNewlineNoLine([], at);
      } else {
        d := newline + 1;
        CutAfterNewline(raw, at, d);
      }
    }
  }

  lemma CutAfterNewline(raw: bytes, at: int, d: nat)
    requires 0 < d <= |raw| && raw[d - 1] == NL
    ensures CompleteLines(raw, at) == CompleteLines(raw[..d], at) + CompleteLines(raw[d..], at + d)
    ensures TailStart(raw) == d + TailStart(raw[d..])
  {
    assert raw == raw[..d] + raw[d..];
    CompleteLinesConcat(raw[..d], raw[d..], at);
    hide *;
  }

  lemma DropBlankLine(raw: bytes, at: int, d: nat)
    requires 0 < d <= |raw| && (raw[..d] == [NL] || raw[..d] == [CR, NL])
    ensures CompleteLines(raw, at) == CompleteLines(raw[d..], at + d)
  {
    CutAfterNewline(raw, at, d);
    BlankLine(raw[..d], at);
    hide *;
  }

  /**
    Whatever window an initial tail reads, the lines it reports, with their
    offsets, are the last lines of the file up to the end of that window.
   */
  lemma InitialTailIsSuffix(file: LogFile, request: Request)
    requires file.size <= |file.content| && IsInitialTail(file.size, request)
    requires var w := ReadWindow(file.size, request); w.start < w.end
    ensures var w := ReadWindow(file.size, request);
            var (text, start) := TextOf(file, request);
            var all := CompleteLines(file.content[..w.end], 0);
            var reported := CompleteLines(text, start);
            |reported| <= |all| && reported == all[|all| - |reported|..]
  {
    hide CompleteLines, TailStart, DropPartialFirstLine;
    var w := ReadWindow(file.size, request);
    hide ReadWindow;
    var whole := file.content[..w.end];
    if w.start == 0 {
      assert file.content[w.start..w.end] == whole;
    } else {
      CutTail(whole, w.start);
      assert file.content[w.start..w.end] == whole[w.start..];
    }
  }

  lemma BlankLine(raw: bytes, at: int)
    requires raw == [NL] || raw == [CR, NL]
    ensures CompleteLines(raw, at) == []
  {
    var i := |raw| - 1;
    assert IndexFrom(raw, 0) == i by {
      if i == 1 {
        assert IndexFrom(raw, 1) == 1;
      }
    }
    assert TrimCR(raw[..i]) == [];
    Unfold(raw, 0, at);
    assert LinesFrom(raw, |raw|, at) == [];
  }

  // ---- Following NextOffset ----

  /** One poll of a follower: how the file looks by then, and the size limit of this read. */
  datatype Poll = Poll(file: LogFile, maxReadBytes: int)

  function Follow(off: int, end: int, max: int): Request {
    Request(Some(end), "", None, 0, max, Some(off))
  }

  /** A poll at which the file still starts with `prefix`. */
  predicate SeesPrefix(poll: Poll, prefix: bytes) {
    |prefix| <= poll.file.size <= |poll.file.content| && poll.file.content[..|prefix|] == prefix
  }

  /** The limit a request asks for, or the default where it asks for none. */
  function Limit(maxReadBytes: int): int {
    if maxReadBytes <= 0 then DEFAULT_MAX_READ_BYTES else maxReadBytes
  }

  /** Every poll sees `prefix`, and no offset plus limit overflows an int64. */
  predicate AllSeePrefix(polls: seq<Poll>, prefix: bytes) {
    forall i :: 0 <= i < |polls| ==>
          SeesPrefix(polls[i], prefix) && |prefix| + Limit(polls[i].maxReadBytes) < INT64_LIMIT
  }

  predicate Readable(polls: seq<Poll>) {
    forall i :: 0 <= i < |polls| ==> polls[i].file.size <= |polls[i].file.content|
  }

  /** Lines collected by a run of polls, and the offset it has reached. */
  datatype Progress = Progress(lines: seq<Line>, off: int)

  function PollOnce(p: Progress, poll: Poll, end: int): (q: Progress)
    requires poll.file.size <= |poll.file.content|
  {
    var request := Follow(p.off, end, poll.maxReadBytes);
    var w := ReadWindow(poll.file.size, request);
    if w.end <= w.start then Progress(p.lines, w.snapshotEnd)
    else
      var (text, start) := TextOf(poll.file, request);
      Progress(p.lines + CompleteLines(text, start), start + TailStart(text))
  }

  function PollAll(polls: seq<Poll>, end: int): Progress
    requires Readable(polls)
  {
    if polls == [] then Progress([], 0)
    else PollOnce(PollAll(polls[..|polls| - 1], end), polls[|polls| - 1], end)
  }

  /** PollOnce is what ReadChunk reports for a follower's request. */
  method FollowOnce(p: Progress, poll: Poll, end: int, stamp: bytes -> Option<Timestamp>) returns (q: Progress)
    requires poll.file.size <= |poll.file.content|
    ensures q == PollOnce(p, poll, end)
  {
    var request := Follow(p.off, end, poll.maxReadBytes);
    var result := ReadChunk(Some(poll.file), request, stamp, false);
    ghost var w := ReadWindow(poll.file.size, request);
    if w.start < w.end {
      var (text, start) := TextOf(poll.file, request);
      KeepAllRecent(CompleteLines(text, start), request, stamp);
    }
    q := Progress(p.lines + Zip(result.value.lineOffsets, result.value.lines), result.value.nextOffset);
  }

  /** A follower that has collected exactly the lines before its offset, which is a line start. */
  predicate Exact(p: Progress, prefix: bytes) {
    && 0 <= p.off <= |prefix|
    && Aligned(prefix[..p.off])
    && p.lines == CompleteLines(prefix[..p.off], 0)
  }

  lemma ExactMeansAllLines(p: Progress, prefix: bytes)
    requires Exact(p, prefix)
    ensures CompleteLines(prefix, 0) == p.lines + CompleteLines(prefix[p.off..], p.off)
    ensures TailStart(prefix) == p.off + TailStart(prefix[p.off..])
  {
    assert prefix == prefix[..p.off] + prefix[p.off..];
    CompleteLinesConcat(prefix[..p.off], prefix[p.off..], 0);
    hide *;
  }

  /** What a poll reads from a file that starts with `prefix`. */
  lemma PollReads(p: Progress, poll: Poll, prefix: bytes) returns (text: bytes)
    requires 0 <= p.off <= |prefix|
    requires SeesPrefix(poll, prefix) && p.off + Limit(poll.maxReadBytes) < INT64_LIMIT
    ensures text == prefix[p.off..Min(p.off + Limit(poll.maxReadBytes), |prefix|)]
    ensures PollOnce(p, poll, |prefix|) == Progress(p.lines + CompleteLines(text, p.off), p.off + TailStart(text))
  {
    hide LinesFrom, LastIndexNewline;
    var end := Min(p.off + Limit(poll.maxReadBytes), |prefix|);
    var w := ReadWindow(poll.file.size, Follow(p.off, |prefix|, poll.maxReadBytes));
    assert w == Window(p.off, end, |prefix|);
    text := prefix[p.off..end];
    assert text == poll.file.content[..|prefix|][p.off..end] == poll.file.content[p.off..end];
    if end <= p.off {
      NoNewlineNoLine(text, p.off);
    }
  }

  lemma PollKeepsExact(p: Progress, poll: Poll, prefix: bytes)
    requires Exact(p, prefix) && SeesPrefix(poll, prefix) && p.off + Limit(poll.maxReadBytes) < INT64_LIMIT
    ensures Exact(PollOnce(p, poll, |prefix|), prefix)
    ensures p.off <= PollOnce(p, poll, |prefix|).off
  {
    hide LinesFrom, LastIndexNewline, PollOnce;
    var text := PollReads(p, poll, prefix);
    var t := TailStart(text);
    TailIsIrrelevant(text, p.off);
    AlignedTail(text);
    var before, read := prefix[..p.off], text[..t];
    assert prefix[..p.off + t] == before + read;
    CompleteLinesConcat(before, read, 0);
  }

  lemma AlignedTail(text: bytes)
    ensures Aligned(text[..TailStart(text)])
  {
  }

  /**
    Safety, whatever the read limits are: after any run of polls against a growing
    file, what was collected is exactly the lines before the offset reached, so the
    rest of a one-shot split of the first `end` bytes is exactly what is still to come.
   */
  lemma {:induction false} FollowingLosesNothing(polls: seq<Poll>, prefix: bytes)
    requires AllSeePrefix(polls, prefix)
    ensures Readable(polls)
    ensures var p := PollAll(polls, |prefix|);
            && Exact(p, prefix)
            && CompleteLines(prefix, 0) == p.lines + CompleteLines(prefix[p.off..], p.off)
  {
    if polls == [] {
      assert prefix[..0] == [];
      NoNewlineNoLine([], 0);
    } else {
      var before := polls[..|polls| - 1];
      FollowingLosesNothing(before, prefix);
      PollKeepsExact(PollAll(before, |prefix|), polls[|polls| - 1], prefix);
    }
    ExactMeansAllLines(PollAll(polls, |prefix|), prefix);
  }

  /** No line of `prefix`, with its newline, is longer than `max` bytes. */
  ghost predicate LinesFit(prefix: bytes, max: int) {
    forall a, b :: LineAt(prefix, a, b) ==> b - a + 1 <= max
  }

  lemma PollProgresses(p: Progress, poll: Poll, prefix: bytes)
    requires Exact(p, prefix) && SeesPrefix(poll, prefix) && p.off + Limit(poll.maxReadBytes) < INT64_LIMIT
    requires LinesFit(prefix, Limit(poll.maxReadBytes)) && p.off < TailStart(prefix)
    ensures p.off < PollOnce(p, poll, |prefix|).off
  {
    hide LinesFrom, PollOnce;
    var text := PollReads(p, poll, prefix);
    var i := NextLine(prefix, p.off);
    assert text[i - p.off] == prefix[i];
  }

  lemma NextLine(prefix: bytes, at: nat) returns (i: int)
    requires at < TailStart(prefix) && Aligned(prefix[..at])
    ensures LineAt(prefix, at, i)
  {
    i := IndexFrom(prefix, at);
    IndexFromIsFirst(prefix, at);
    assert prefix[TailStart(prefix) - 1] == NL;
    assert 0 < at ==> prefix[..at][at - 1] == NL;
  }

  /** Every poll's limit admits the longest line. */
  ghost predicate LimitsFit(polls: seq<Poll>, prefix: bytes) {
    forall i :: 0 <= i < |polls| ==> LinesFit(prefix, Limit(polls[i].maxReadBytes))
  }

  /** A poll that has not reached the tail gets at least one byte further. */
  lemma PollAdvances(q: Progress, poll: Poll, prefix: bytes, n: nat)
    requires Exact(q, prefix) && SeesPrefix(poll, prefix) && q.off + Limit(poll.maxReadBytes) < INT64_LIMIT
    requires LinesFit(prefix, Limit(poll.maxReadBytes)) && (TailStart(prefix) <= q.off || n <= q.off)
    ensures var p := PollOnce(q, poll, |prefix|); Exact(p, prefix) && (TailStart(prefix) <= p.off || n + 1 <= p.off)
  {
    PollKeepsExact(q, poll, prefix);
    if q.off < TailStart(prefix) {
      PollProgresses(q, poll, prefix);
    }
    hide PollOnce, TailStart, Exact, LinesFit, SeesPrefix;
  }

  lemma TailReached(p: Progress, prefix: bytes)
    requires Exact(p, prefix) && TailStart(prefix) <= p.off
    ensures p.lines == CompleteLines(prefix, 0)
  {
    hide LinesFrom;
    ExactMeansAllLines(p, prefix);
    NoNewlineNoLine(prefix[p.off..], p.off);
  }

  /**
    Liveness: when every read limit admits the longest line, as many polls as there
    are bytes reach the unterminated tail, and then the collected lines and offsets
    are those of one split of the first `end` bytes.
   */
  lemma {:induction false} FollowingRefinesOneShot(polls: seq<Poll>, prefix: bytes)
    requires AllSeePrefix(polls, prefix)
    requires LimitsFit(polls, prefix)
    ensures Readable(polls)
    ensures var p := PollAll(polls, |prefix|);
            && Exact(p, prefix)
            && (TailStart(prefix) <= p.off || |polls| <= p.off)
            && (TailStart(prefix) <= |polls| ==> p.lines == CompleteLines(prefix, 0))
  {
    FollowingLosesNothing(polls, prefix);
    if polls == [] {
      NothingFollowed(prefix);
    } else {
      var before, last := polls[..|polls| - 1], polls[|polls| - 1];
      LastPoll(polls, prefix);
      hide *;
      FollowingRefinesOneShot(before, prefix);
      PollAdvances(PollAll(before, |prefix|), last, prefix, |before|);
    }
    AtMostAllBytes(polls, prefix);
    hide *;
    if TailStart(prefix) <= PollAll(polls, |prefix|).off {
      TailReached(PollAll(polls, |prefix|), prefix);
    }
  }

  lemma LastPoll(polls: seq<Poll>, prefix: bytes)
    requires polls != [] && AllSeePrefix(polls, prefix)
    requires LimitsFit(polls, prefix)
    ensures var before, last := polls[..|polls| - 1], polls[|polls| - 1];
            && AllSeePrefix(before, prefix) && Readable(before) && Readable(polls)
            && LimitsFit(before, prefix)
            && SeesPrefix(last, prefix) && LinesFit(prefix, Limit(last.maxReadBytes))
            && PollAll(before, |prefix|).off + Limit(last.maxReadBytes) < INT64_LIMIT
            && PollAll(polls, |prefix|) == PollOnce(PollAll(before, |prefix|), last, |prefix|)
  {
    var before, last := polls[..|polls| - 1], polls[|polls| - 1];
    hide LinesFit, PollOnce, LinesFrom;
    assert SeesPrefix(last, prefix);
    FollowingLosesNothing(before, prefix);
  }

  lemma AtMostAllBytes(polls: seq<Poll>, prefix: bytes)
    requires Readable(polls) && Exact(PollAll(polls, |prefix|), prefix)
    ensures PollAll(polls, |prefix|).off <= |prefix| && TailStart(prefix) <= |prefix|
  {
  }

  lemma NothingFollowed(prefix: bytes)
    ensures Exact(Progress([], 0), prefix)
  {
    NoNewlineNoLine([], 0);
    assert prefix[..0] == [];
  }

  // ---- The int64 bound ----

  /** The greatest limit a request to the audit endpoint may ask for. */
  const MAX_AUDIT_READ_BYTES := 50_000_000

  /** Requests as the audit endpoint lets them through, on a log of less than 2^62 bytes. */
  predicate Admitted(polls: seq<Poll>, prefix: bytes) {
    && |prefix| < 0x4000_0000_0000_0000
    && forall i :: 0 <= i < |polls| ==> SeesPrefix(polls[i], prefix) && polls[i].maxReadBytes <= MAX_AUDIT_READ_BYTES
  }

  lemma AdmittedNeverWraps(polls: seq<Poll>, prefix: bytes)
    requires Admitted(polls, prefix)
    ensures AllSeePrefix(polls, prefix)
  {
  }

  /** Both run theorems for every follower the program can serve: no bound is left to check. */
  lemma ServedFollowerIsExact(polls: seq<Poll>, prefix: bytes)
    requires Admitted(polls, prefix)
    ensures Readable(polls)
    ensures var p := PollAll(polls, |prefix|);
            && Exact(p, prefix)
            && CompleteLines(prefix, 0) == p.lines + CompleteLines(prefix[p.off..], p.off)
            && (LimitsFit(polls, prefix) && TailStart(prefix) <= |polls| ==> p.lines == CompleteLines(prefix, 0))
  {
    AdmittedNeverWraps(polls, prefix);
    FollowingLosesNothing(polls, prefix);
    if LimitsFit(polls, prefix) {
      FollowingRefinesOneShot(polls, prefix);
    }
  }

  /**
    The boundary of the exported function, beyond any request the endpoint admits: with
    lines left to read, a poll stays exact if and only if offset plus limit fits an int64.
    Otherwise it reports no line and moves on to the end.
   */
  lemma WrappedLimitSkipsLines(p: Progress, poll: Poll, prefix: bytes)
    requires Exact(p, prefix) && SeesPrefix(poll, prefix)
    requires poll.file.size < INT64_LIMIT && Limit(poll.maxReadBytes) < INT64_LIMIT
    requires CompleteLines(prefix[p.off..], p.off) != []
    ensures Exact(PollOnce(p, poll, |prefix|), prefix) <==> p.off + Limit(poll.maxReadBytes) < INT64_LIMIT
  {
    hide CompleteLines, PollOnce;
    ExactMeansAllLines(p, prefix);
    if p.off + Limit(poll.maxReadBytes) < INT64_LIMIT {
      PollKeepsExact(p, poll, prefix);
    } else {
      WrappedPoll(p, poll, prefix);
      assert prefix[..|prefix|] == prefix;
    }
  }

  lemma WrappedPoll(p: Progress, poll: Poll, prefix: bytes)
    requires 0 <= p.off <= |prefix| && SeesPrefix(poll, prefix)
    requires poll.file.size < INT64_LIMIT && Limit(poll.maxReadBytes) < INT64_LIMIT
    requires INT64_LIMIT <= p.off + Limit(poll.maxReadBytes)
    ensures PollOnce(p, poll, |prefix|) == Progress(p.lines, |prefix|)
  {
    WrapsDown(p.off + Limit(poll.maxReadBytes));
    hide Wrap64, LinesFrom, TextOf, TailStart;
    var w := ReadWindow(poll.file.size, Follow(p.off, |prefix|, poll.maxReadBytes));
    assert w.start == p.off && w.snapshotEnd == |prefix|;
  }

  lemma WrapsDown(x: int)
    requires INT64_LIMIT <= x < 2 * INT64_LIMIT
    ensures Wrap64(x) < 0
  {
  }

  lemma OneLine(text: bytes)
    requires text == [0x61, NL]
    ensures CompleteLines(text, 1) == [Line(1, [0x61])]
  {
    assert IndexFrom(text, 0) == 1 by { assert IndexFrom(text, 1) == 1; }
    assert text[0..1] == [0x61];
    Unfold(text, 0, 1);
    assert LinesFrom(text, 2, 1) == [];
    hide LinesFrom, IndexFrom;
  }

  lemma InstanceLines(text: bytes)
    requires text == [NL, 0x61, NL]
    ensures CompleteLines(text, 0) == [Line(1, [0x61])] && CompleteLines(text[..1], 0) == []
  {
    hide CompleteLines;
    assert text[..1] == [NL] && [NL] + [0x61, NL] == text;
    BlankLine([NL], 0);
    OneLine([0x61, NL]);
    CompleteLinesConcat([NL], [0x61, NL], 0);
  }

  /** Such a call: a file of one empty and one other line, the second of which is never reported. */
  lemma WrappedLimitInstance(p: Progress, poll: Poll)
    requires p == Progress([], 1) && poll == Poll(LogFile("", 3, [NL, 0x61, NL]), INT64_LIMIT - 1)
    ensures Exact(p, poll.file.content) && CompleteLines(poll.file.content, 0) == [Line(1, [0x61])]
    ensures PollOnce(p, poll, 3) == Progress([], 3)
  {
    hide CompleteLines, PollOnce;
    InstanceLines(poll.file.content);
    WrappedPoll(p, poll, poll.file.content);
  }
}
