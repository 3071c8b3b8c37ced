/**
  Bytes and lines. Both halves of the log pipeline (the writer that rotates at
  line boundaries and the reader that reports complete lines with offsets) are
  stated over this vocabulary.
 */
module Lines {
  newtype byte = b: int | 0 <= b < 256
  type bytes = seq<byte>

  const NL: byte := 10
  const CR: byte := 13

  /** A reported line: the file offset of its first byte, and its text. */
  datatype Line = Line(offset: int, text: bytes)

  /** Position of the first newline at or after `at`, or -1. */
  function IndexFrom(s: bytes, at: nat): (i: int)
    requires at <= |s|
    ensures i == -1 || (at <= i < |s| && s[i] == NL)
    decreases |s| - at
  {
    if at == |s| then -1 else if s[at] == NL then at else IndexFrom(s, at + 1)
  }

  /** `bytes.IndexByte(s, '\n')`. */
  function IndexNewline(s: bytes): (i: int) {
    IndexFrom(s, 0)
  }

  /** `strings.LastIndexByte(s, '\n')`. */
  function LastIndexNewline(s: bytes): (i: int)
    ensures -1 <= i < |s|
    ensures 0 <= i ==> s[i] == NL
    ensures forall k :: i < k < |s| ==> s[k] != NL
  {
    if s == [] then -1
    else if s[|s| - 1] == NL then |s| - 1
    else LastIndexNewline(s[..|s| - 1])
  }

  function TrimCR(raw: bytes): bytes {
    if raw != [] && raw[|raw| - 1] == CR then raw[..|raw| - 1] else raw
  }

  /** The line reported for the raw bytes before one newline: blank lines are skipped. */
  function Reported(raw: bytes, offset: int): seq<Line> {
    if TrimCR(raw) == [] then [] else [Line(offset, TrimCR(raw))]
  }

  function LinesFrom(text: bytes, at: nat, base: int): seq<Line>
    requires at <= |text|
    decreases |text| - at
  {
    var i := IndexFrom(text, at);
    if i < 0 then [] else Reported(text[at..i], base + at) + LinesFrom(text, i + 1, base)
  }

  /** Every complete line of `text`, whose first byte stands at file offset `base`. */
  function CompleteLines(text: bytes, base: int): seq<Line> {
    LinesFrom(text, 0, base)
  }

  /** Where the unterminated tail of `text` starts. */
  function TailStart(text: bytes): (t: int)
    ensures 0 <= t <= |text|
  {
    LastIndexNewline(text) + 1
  }

  /** Empty or newline-terminated: cutting here cuts no line. */
  predicate Aligned(text: bytes) {
    text == [] || text[|text| - 1] == NL
  }

  predicate NoNewline(text: bytes) {
    forall k :: 0 <= k < |text| ==> text[k] != NL
  }

  /** The bytes `text[a..b]` are one line of `text`, with its newline at `b`. */
  predicate LineAt(text: bytes, a: int, b: int) {
    && 0 <= a <= b < |text|
    && text[b] == NL
    && (forall k :: a <= k < b ==> text[k] != NL)
    && (a == 0 || text[a - 1] == NL)
  }

  function Texts(lines: seq<Line>): seq<bytes> {
    seq(|lines|, i requires 0 <= i < |lines| => lines[i].text)
  }

  function Flatten(parts: seq<bytes>): bytes {
    if parts == [] then [] else Flatten(parts[..|parts| - 1]) + parts[|parts| - 1]
  }

  lemma FlattenAppend(a: seq<bytes>, x: bytes)
    ensures Flatten(a + [x]) == Flatten(a) + x
  {
    assert (a + [x])[..|a|] == a;
  }

  // ---- Positions of newlines ----

  lemma {:induction false} IndexFromIsFirst(s: bytes, at: nat)
    requires at <= |s|
    ensures forall k :: at <= k < (if IndexFrom(s, at) < 0 then |s| else IndexFrom(s, at)) ==> s[k] != NL
    decreases |s| - at
  {
    if at < |s| && s[at] != NL {
      IndexFromIsFirst(s, at + 1);
    }
  }

  lemma {:induction false} IndexInPrefix(a: bytes, b: bytes, at: nat)
    requires at <= |a| && 0 <= IndexFrom(a, at)
    ensures IndexFrom(a + b, at) == IndexFrom(a, at)
    decreases |a| - at
  {
    assert (a + b)[at] == a[at];
    if a[at] != NL {
      IndexInPrefix(a, b, at + 1);
    }
  }

  lemma {:induction false} IndexInSuffix(a: bytes, b: bytes, k: nat)
    requires k <= |b|
    ensures IndexFrom(a + b, |a| + k) == if IndexFrom(b, k) < 0 then -1 else |a| + IndexFrom(b, k)
    decreases |b| - k
  {
    if k < |b| {
      assert (a + b)[|a| + k] == b[k];
      if b[k] != NL {
        IndexInSuffix(a, b, k + 1);
      }
    }
  }

  lemma {:induction false} IndexAbsent(s: bytes, at: nat)
    requires at <= |s| && forall k :: at <= k < |s| ==> s[k] != NL
    ensures IndexFrom(s, at) == -1
  {
    IndexFromIsFirst(s, at);
  }

  lemma AlignedHasNewline(a: bytes, at: nat)
    requires at < |a| && Aligned(a)
    ensures 0 <= IndexFrom(a, at)
  {
    IndexFromIsFirst(a, at);
  }

  // ---- Cutting at a line boundary ----

  lemma Unfold(text: bytes, at: nat, base: int)
    requires at <= |text|
    ensures var i := IndexFrom(text, at);
            LinesFrom(text, at, base) ==
              if i < 0 then [] else Reported(text[at..i], base + at) + LinesFrom(text, i + 1, base)
  {
    hide Reported, IndexFrom;
  }

  lemma NothingBeyond(text: bytes, base: int)
    ensures LinesFrom(text, |text|, base) == []
  {
  }

  lemma {:induction false} LinesOfSuffix(a: bytes, b: bytes, k: nat, base: int)
    requires k <= |b|
    ensures LinesFrom(a + b, |a| + k, base) == LinesFrom(b, k, base + |a|)
    decreases |b| - k
  {
    hide Reported, LinesFrom;
    Unfold(a + b, |a| + k, base);
    Unfold(b, k, base + |a|);
    IndexInSuffix(a, b, k);
    var i := IndexFrom(b, k);
    if 0 <= i {
      assert (a + b)[|a| + k..|a| + i] == b[k..i];
      LinesOfSuffix(a, b, i + 1, base);
    }
  }

  lemma {:induction false} LinesOfConcat(a: bytes, b: bytes, at: nat, base: int)
    requires at <= |a| && Aligned(a)
    ensures LinesFrom(a + b, at, base) == LinesFrom(a, at, base) + CompleteLines(b, base + |a|)
    decreases |a| - at
  {
    hide Reported, LinesFrom, IndexFrom;
    if at == |a| {
      NothingBeyond(a, base);
      LinesOfSuffix(a, b, 0, base);
    } else {
      UnfoldConcat(a, b, at, base);
      LinesOfConcat(a, b, IndexFrom(a, at) + 1, base);
    }
  }

  lemma UnfoldConcat(a: bytes, b: bytes, at: nat, base: int)
    requires at < |a| && Aligned(a)
    ensures var i := IndexFrom(a, at);
            && at <= i < |a|
            && LinesFrom(a, at, base) == Reported(a[at..i], base + at) + LinesFrom(a, i + 1, base)
            && LinesFrom(a + b, at, base) == Reported(a[at..i], base + at) + LinesFrom(a + b, i + 1, base)
  {
    hide Reported, LinesFrom;
    Unfold(a, at, base);
    Unfold(a + b, at, base);
    AlignedHasNewline(a, at);
    IndexInPrefix(a, b, at);
    var i := IndexFrom(a, at);
    assert (a + b)[at..i] == a[at..i];
  }

  /** Splitting at an aligned cut loses, splits and invents no line. */
  lemma CompleteLinesConcat(a: bytes, b: bytes, base: int)
    requires Aligned(a)
    ensures CompleteLines(a + b, base) == CompleteLines(a, base) + CompleteLines(b, base + |a|)
    ensures TailStart(a + b) == |a| + TailStart(b)
  {
    hide LinesFrom;
    LinesOfConcat(a, b, 0, base);
    var i, j := LastIndexNewline(a + b), LastIndexNewline(b);
    assert 0 <= j ==> (a + b)[|a| + j] == NL;
    assert 0 < |a| ==> (a + b)[|a| - 1] == NL;
    assert |a| <= i ==> b[i - |a|] == NL;
  }

  lemma NoNewlineNoLine(text: bytes, base: int)
    requires NoNewline(text)
    ensures CompleteLines(text, base) == [] && TailStart(text) == 0
  {
    IndexAbsent(text, 0);
  }

  /** The unterminated tail contributes no line. */
  lemma TailIsIrrelevant(text: bytes, base: int)
    ensures CompleteLines(text, base) == CompleteLines(text[..TailStart(text)], base)
  {
    var t := TailStart(text);
    CompleteLinesConcat(text[..t], text[t..], base);
    NoNewlineNoLine(text[t..], base + t);
    assert text == text[..t] + text[t..];
  }

  // ---- What CompleteLines means ----

  /**
    A line is reported exactly when its bytes run from a line start to a newline;
    it is reported with that start as its offset, one trailing CR removed, and
    blank lines are skipped.
   */
  lemma CompleteLinesExact(text: bytes, base: int, line: Line)
    ensures line in CompleteLines(text, base) <==>
            exists a, b :: LineAt(text, a, b) && line == Line(base + a, TrimCR(text[a..b])) && line.text != []
  {
    if line in CompleteLines(text, base) {
      var a, b := ReportedLinesAreLines(text, 0, base, line);
    }
    forall a, b | LineAt(text, a, b) && line == Line(base + a, TrimCR(text[a..b])) && line.text != []
      ensures line in CompleteLines(text, base)
    {
      LinesAreReported(text, 0, base, a, b);
    }
  }

  lemma {:induction false} ReportedLinesAreLines(text: bytes, at: nat, base: int, line: Line) returns (a: int, b: int)
    requires at <= |text| && (at == 0 || text[at - 1] == NL)
    requires line in LinesFrom(text, at, base)
    ensures LineAt(text, a, b) && line == Line(base + a, TrimCR(text[a..b])) && line.text != []
    decreases |text| - at
  {
    hide LinesFrom, IndexFrom, TrimCR;
    var i := IndexFrom(text, at);
    IndexFromIsFirst(text, at);
    Unfold(text, at, base);
    assert 0 <= i;
    assert LinesFrom(text, at, base) == Reported(text[at..i], base + at) + LinesFrom(text, i + 1, base);
    if line in Reported(text[at..i], base + at) {
      a, b := at, i;
    } else {
      a, b := ReportedLinesAreLines(text, i + 1, base, line);
    }
  }

  lemma {:induction false} LinesAreReported(text: bytes, at: nat, base: int, a: int, b: int)
    requires LineAt(text, a, b) && at <= a && TrimCR(text[a..b]) != []
    ensures Line(base + a, TrimCR(text[a..b])) in LinesFrom(text, at, base)
    decreases |text| - at
  {
    hide TrimCR, LinesFrom;
    Unfold(text, at, base);
    var i := IndexFrom(text, at);
    IndexFromIsFirst(text, at);
    assert text[b] == NL;
    if at == a {
      assert i == b;
    } else {
      assert text[a - 1] == NL;
      LinesAreReported(text, i + 1, base, a, b);
    }
  }

  /**
    One line alone, with its newline: a carriage return before the newline is no part of
    it, and a blank line, with or without one, is no line at all. With CompleteLinesConcat
    and TailIsIrrelevant this determines the lines of every text.
   */
  lemma LineAlone(raw: bytes, base: int)
    requires NoNewline(raw)
    ensures CompleteLines(raw + [10], base) ==
            if raw == [] || raw == [13] then []
            else if raw[|raw| - 1] == 13 then [Line(base, raw[..|raw| - 1])]
            else [Line(base, raw)]
  {
    var text := raw + [10];
    IndexFromIsFirst(text, 0);
    assert text[|raw|] == NL;
    assert IndexFrom(text, 0) == |raw|;
    assert text[0..|raw|] == raw;
    hide IndexFrom, LinesFrom;
    Unfold(text, 0, base);
    NothingBeyond(text, base);
  }

  /** Offsets strictly increase and stay in the half-open range [lo, hi). */
  predicate Increasing(lines: seq<Line>, lo: int, hi: int) {
    && (forall k :: 0 <= k < |lines| ==> lo <= lines[k].offset < hi)
    && (forall j, k :: 0 <= j < k < |lines| ==> lines[j].offset < lines[k].offset)
  }

  lemma IncreasingConcat(a: seq<Line>, b: seq<Line>, lo: int, mid: int, hi: int)
    requires lo <= mid <= hi && Increasing(a, lo, mid) && Increasing(b, mid, hi)
    ensures Increasing(a + b, lo, hi)
  {
  }

  lemma {:induction false} OffsetsIncrease(text: bytes, at: nat, base: int)
    requires at <= |text|
    ensures Increasing(LinesFrom(text, at, base), base + at, base + |text|)
    decreases |text| - at
  {
    hide TrimCR, LinesFrom;
    Unfold(text, at, base);
    var i := IndexFrom(text, at);
    if 0 <= i {
      OffsetsIncrease(text, i + 1, base);
      IncreasingConcat(Reported(text[at..i], base + at), LinesFrom(text, i + 1, base),
                       base + at, base + i + 1, base + |text|);
    }
  }

  lemma {:induction false} TextsIgnoreBase(text: bytes, at: nat, base: int, other: int)
    requires at <= |text|
    ensures Texts(LinesFrom(text, at, base)) == Texts(LinesFrom(text, at, other))
    decreases |text| - at
  {
    hide Reported, LinesFrom, Texts;
    Unfold(text, at, base);
    Unfold(text, at, other);
    var i := IndexFrom(text, at);
    if 0 <= i {
      TextsIgnoreBase(text, i + 1, base, other);
      TextsConcat(Reported(text[at..i], base + at), LinesFrom(text, i + 1, base));
      TextsConcat(Reported(text[at..i], other + at), LinesFrom(text, i + 1, other));
      ReportedIgnoresBase(text[at..i], base + at, other + at);
    }
  }

  lemma ReportedIgnoresBase(raw: bytes, base: int, other: int)
    ensures Texts(Reported(raw, base)) == Texts(Reported(raw, other))
  {
  }

  lemma TextsConcat(a: seq<Line>, b: seq<Line>)
    ensures Texts(a + b) == Texts(a) + Texts(b)
  {
  }

  // ---- The splitter ----

  /** `strings.Split(s[at..], "\n")`. */
  function SplitNewlines(s: bytes, at: nat): (parts: seq<bytes>)
    requires at <= |s|
    ensures |parts| > 0
    decreases |s| - at
  {
    var i := IndexFrom(s, at);
    if i < 0 then [s[at..]] else [s[at..i]] + SplitNewlines(s, i + 1)
  }

  function Zip(offsets: seq<int>, texts: seq<bytes>): seq<Line>
    requires |offsets| == |texts|
  {
    seq(|texts|, i requires 0 <= i < |texts| => Line(offsets[i], texts[i]))
  }

  lemma ZipAppend(offsets: seq<int>, texts: seq<bytes>, at: int, text: bytes)
    requires |offsets| == |texts|
    ensures Zip(offsets + [at], texts + [text]) == Zip(offsets, texts) + [Line(at, text)]
  {
  }

  /** The reader's line splitter. */
  method SplitCompleteLinesWithOffsets(text: bytes, readStart: int)
    returns (lines: seq<bytes>, offsets: seq<int>, next: int)
    ensures |lines| == |offsets|
    ensures Zip(offsets, lines) == CompleteLines(text, readStart)
    ensures next == readStart + TailStart(text)
  {
    hide LinesFrom, SplitNewlines, IndexFrom, LastIndexNewline, TrimCR;
    var lastNewline := LastIndexNewline(text);
    TailIsIrrelevant(text, readStart);
    if lastNewline < 0 {
      NoNewlineNoLine(text, readStart);
      return [], [], readStart;
    }
    var complete := text[..lastNewline + 1];
    var parts := SplitNewlines(complete, 0);
    lines, offsets := [], [];
    var position := readStart;
    var k := 0;
    ghost var at: nat := 0;
    while k < |parts|
      invariant 0 <= k <= |parts| && |lines| == |offsets| && at <= |complete|
      invariant k < |parts| ==> parts[k..] == SplitNewlines(complete, at) && position == readStart + at
      invariant k == |parts| ==> at == |complete|
      invariant Zip(offsets, lines) + LinesFrom(complete, at, readStart) == CompleteLines(complete, readStart)
    {
      var raw := parts[k];
      var line := TrimCR(raw);
      ghost var next := SplitStep(complete, at, readStart, parts[k..]);
      assert parts[k + 1..] == parts[k..][1..];
      ZipAppend(offsets, lines, position, line);
      if line != [] {
        lines := lines + [line];
        offsets := offsets + [position];
      }
      position := position + |raw| + 1;
      at := next;
      k := k + 1;
    }
    Unfold(complete, at, readStart);
    return lines, offsets, readStart + |complete|;
  }

  /** One part of the split: the line it yields and where the next part starts. */
  lemma SplitStep(complete: bytes, at: nat, base: int, parts: seq<bytes>) returns (next: nat)
    requires at <= |complete| && Aligned(complete) && parts == SplitNewlines(complete, at)
    ensures next <= |complete|
    ensures LinesFrom(complete, at, base) ==
            (if TrimCR(parts[0]) == [] then [] else [Line(base + at, TrimCR(parts[0]))])
                + LinesFrom(complete, next, base)
    ensures if |parts| == 1 then next == |complete|
            else parts[1..] == SplitNewlines(complete, next) && next == at + |parts[0]| + 1
  {
    var i := IndexFrom(complete, at);
    if at < |complete| {
      AlignedHasNewline(complete, at);
      next := i + 1;
    } else {
      assert Reported(complete[at..], base + at) == [];
      next := at;
    }
  }
}
