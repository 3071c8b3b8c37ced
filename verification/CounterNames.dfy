/**
  Xray counter names. A counter is spelled `kind>>>name>>>traffic>>>direction`, or,
  by older cores, `kind>>>name>>>direction`.
 */
module CounterNames {
  import opened Wrappers

  const SEP := ">>>"

  datatype CounterKey = CounterKey(kind: string, name: string, direction: string)

  /** The separator stands at position `i` of `s`. */
  predicate SepAt(s: string, i: int) {
    0 <= i && i + 3 <= |s| && s[i] == '>' && s[i + 1] == '>' && s[i + 2] == '>'
  }

  function IndexSep(s: string, from: nat): (i: int)
    ensures i == -1 || (from <= i && SepAt(s, i))
    ensures forall k :: from <= k && (i == -1 || k < i) ==> !SepAt(s, k)
    decreases |s| - from
  {
    if |s| < from + 3 then -1 else if SepAt(s, from) then from else IndexSep(s, from + 1)
  }

  /** `strings.Split(s[from..], ">>>")`. */
  function Split(s: string, from: nat): (parts: seq<string>)
    requires from <= |s|
    ensures |parts| > 0
    decreases |s| - from
  {
    var i := IndexSep(s, from);
    if i < 0 then [s[from..]] else [s[from..i]] + Split(s, i + 3)
  }

  predicate IsKind(kind: string) {
    kind == "user" || kind == "inbound" || kind == "outbound"
  }

  predicate IsDirection(direction: string) {
    direction == "downlink" || direction == "uplink"
  }

  /** `parseAccountingCounterName`. */
  function Parse(raw: string): Option<CounterKey> {
    var parts := Split(raw, 0);
    if |parts| < 3 then None
    else if !IsKind(parts[0]) then None
    else if !IsDirection(parts[|parts| - 1]) then None
    else
      var middle := parts[1..|parts| - 1];
      if |middle| == 2 && middle[1] == "traffic" && middle[0] != "" then
        Some(CounterKey(parts[0], middle[0], parts[|parts| - 1]))
      else if |middle| == 1 && middle[0] != "" then
        Some(CounterKey(parts[0], middle[0], parts[|parts| - 1]))
      else None
  }

  /** `isAccountingCounterName`: the text before the first separator is a counter kind. */
  predicate IsAccounting(raw: string) {
    IsKind(Split(raw, 0)[0])
  }

  // ---- Spellings ----

  function Legacy(key: CounterKey): string {
    key.kind + SEP + key.name + SEP + key.direction
  }

  function Canonical(key: CounterKey): string {
    key.kind + SEP + key.name + SEP + "traffic" + SEP + key.direction
  }

  /** A part that a following separator ends exactly where the part ends. */
  ghost predicate Clean(part: string) {
    && (forall k :: !SepAt(part, k))
    && (part != "" ==> part[|part| - 1] != '>')
  }

  ghost predicate ValidKey(key: CounterKey) {
    IsKind(key.kind) && IsDirection(key.direction) && key.name != "" && Clean(key.name)
  }

  function Join(parts: seq<string>): string
    requires |parts| > 0
  {
    if |parts| == 1 then parts[0] else parts[0] + SEP + Join(parts[1..])
  }

  lemma {:induction false} SplitFrom(s: string, from: nat)
    requires from <= |s|
    ensures Split(s, from) == Split(s[from..], 0)
    ensures Join(Split(s, from)) == s[from..]
    decreases |s| - from
  {
    hide IndexSep, Split;
    var i, j := IndexSep(s, from), IndexSep(s[from..], 0);
    ShiftSep(s, from);
    UnfoldSplit(s, from);
    UnfoldSplit(s[from..], 0);
    if 0 <= i {
      CutAtSep(s, from, i);
      assert s[from..][0..] == s[from..];
      hide SepAt, Join;
      SplitFrom(s, i + 3);
      SplitFrom(s[from..], j + 3);
      JoinMore(s[from..i], Split(s, i + 3));
    } else {
      assert s[from..][0..] == s[from..];
    }
  }

  lemma CutAtSep(s: string, from: nat, i: int)
    requires from <= i && SepAt(s, i)
    ensures s[from..] == s[from..i] + SEP + s[i + 3..]
    ensures s[from..][0..i - from] == s[from..i] && s[from..][i - from + 3..] == s[i + 3..]
  {
  }

  lemma JoinMore(first: string, later: seq<string>)
    requires |later| > 0
    ensures Join([first] + later) == first + SEP + Join(later)
  {
    assert ([first] + later)[1..] == later;
  }

  lemma UnfoldSplit(s: string, from: nat)
    requires from <= |s|
    ensures var i := IndexSep(s, from);
            Split(s, from) == if i < 0 then [s[from..]] else [s[from..i]] + Split(s, i + 3)
  {
    hide IndexSep;
  }

  lemma ShiftSep(s: string, from: nat)
    requires from <= |s|
    ensures IndexSep(s, from) == if IndexSep(s[from..], 0) < 0 then -1 else from + IndexSep(s[from..], 0)
  {
    var i, j := IndexSep(s, from), IndexSep(s[from..], 0);
    forall k | 0 <= k ensures SepAt(s, from + k) <==> SepAt(s[from..], k) {
    }
    if 0 <= i { assert SepAt(s[from..], i - from); }
    if 0 <= j { assert SepAt(s, from + j); }
  }

  /** The parts before the last one are clean: a separator follows each of them. */
  lemma {:induction false} SplitPartsAreClean(s: string, from: nat)
    requires from <= |s|
    ensures forall k :: 0 <= k < |Split(s, from)| - 1 ==> Clean(Split(s, from)[k])
    decreases |s| - from
  {
    hide Split;
    UnfoldSplit(s, from);
    var i := IndexSep(s, from);
    if 0 <= i {
      SplitPartsAreClean(s, i + 3);
      var part := s[from..i];
      forall k ensures !SepAt(part, k) {
        assert SepAt(part, k) ==> SepAt(s, from + k);
      }
      assert part != "" && part[|part| - 1] == '>' ==> SepAt(s, i - 1);
    }
  }

  lemma SplitOfClean(part: string, rest: string)
    requires Clean(part)
    ensures Split(part + SEP + rest, 0) == [part] + Split(rest, 0)
  {
    hide Split;
    var s := part + SEP + rest;
    forall k | 0 <= k < |part| ensures !SepAt(s, k) {
      if k + 3 <= |part| {
        assert SepAt(s, k) ==> SepAt(part, k);
      } else {
        assert s[|part| - 1] == part[|part| - 1];
      }
    }
    assert SepAt(s, |part|);
    assert IndexSep(s, 0) == |part|;
    UnfoldSplit(s, 0);
    assert s[0..|part|] == part && s[|part| + 3..] == rest;
    SplitFrom(s, |part| + 3);
  }

  lemma SplitOfLast(part: string)
    requires forall k :: !SepAt(part, k)
    ensures Split(part, 0) == [part]
  {
    UnfoldSplit(part, 0);
  }

  lemma WordsAreClean()
    ensures forall w :: IsKind(w) || IsDirection(w) || w == "traffic" ==> Clean(w)
  {
  }

  /**
    Exactly two spellings parse to a key, and only keys whose name is not empty, holds
    no separator and does not end in `>` have any: other names are not recognised.
   */
  lemma ParseExact(raw: string, key: CounterKey)
    ensures Parse(raw) == Some(key) <==> ValidKey(key) && (raw == Legacy(key) || raw == Canonical(key))
  {
    hide IndexSep, Split;
    var parts := Split(raw, 0);
    SplitFrom(raw, 0);
    assert raw[0..] == raw;
    SplitPartsAreClean(raw, 0);
    if Parse(raw) == Some(key) {
      assert parts[|parts| - 1] == key.direction;
      if |parts| == 3 {
        assert parts == [key.kind, key.name, key.direction];
        JoinThree(key.kind, key.name, key.direction);
      } else {
        assert parts == [key.kind, key.name, "traffic", key.direction];
        JoinFour(key.kind, key.name, "traffic", key.direction);
      }
    }
    if ValidKey(key) {
      SpellingsParse(key);
    }
  }

  lemma JoinThree(a: string, b: string, c: string)
    ensures Join([a, b, c]) == a + SEP + b + SEP + c
  {
    assert [a, b, c][1..] == [b, c] && [b, c][1..] == [c];
    assert Join([b, c]) == b + SEP + c;
    assert a + SEP + (b + SEP + c) == a + SEP + b + SEP + c;
  }

  lemma JoinFour(a: string, b: string, c: string, d: string)
    ensures Join([a, b, c, d]) == a + SEP + b + SEP + c + SEP + d
  {
    assert [a, b, c, d][1..] == [b, c, d];
    JoinThree(b, c, d);
    assert a + SEP + (b + SEP + c + SEP + d) == a + SEP + b + SEP + c + SEP + d;
  }

  lemma SpellingsParse(key: CounterKey)
    requires ValidKey(key)
    ensures Parse(Legacy(key)) == Some(key) && Parse(Canonical(key)) == Some(key)
  {
    hide IndexSep, Split, IsKind, IsDirection, Clean;
    var k, n, d := key.kind, key.name, key.direction;
    CleanParts(key);
    SplitOfLast(d);
    SplitOfClean(n, d);
    SplitOfClean(k, n + SEP + d);
    assert Legacy(key) == k + SEP + (n + SEP + d);
    assert Split(Legacy(key), 0) == [k, n, d];
    SplitOfClean("traffic", d);
    SplitOfClean(n, "traffic" + SEP + d);
    SplitOfClean(k, n + SEP + ("traffic" + SEP + d));
    assert Canonical(key) == k + SEP + (n + SEP + ("traffic" + SEP + d));
    assert Split(Canonical(key), 0) == [k, n, "traffic", d];
    hide Legacy, Canonical;
    ParsedParts(Legacy(key), key, [k, n, d]);
    ParsedParts(Canonical(key), key, [k, n, "traffic", d]);
  }

  lemma ParsedParts(raw: string, key: CounterKey, parts: seq<string>)
    requires Split(raw, 0) == parts && key.name != "" && IsKind(key.kind) && IsDirection(key.direction)
    requires parts == [key.kind, key.name, key.direction] || parts == [key.kind, key.name, "traffic", key.direction]
    ensures Parse(raw) == Some(key)
  {
    hide Split, IsKind, IsDirection;
  }

  lemma CleanParts(key: CounterKey)
    requires ValidKey(key)
    ensures IsKind(key.kind) && IsDirection(key.direction) && key.name != ""
    ensures Clean(key.kind) && Clean(key.name) && Clean(key.direction) && Clean("traffic")
    ensures forall k :: !SepAt(key.direction, k)
  {
    WordsAreClean();
  }

  /** Two keys never share a spelling, and a key's two spellings differ. */
  lemma SpellingsAreDistinct(key: CounterKey, other: CounterKey)
    requires ValidKey(key) && ValidKey(other)
    ensures Legacy(key) != Canonical(other)
    ensures key != other ==> Legacy(key) != Legacy(other) && Canonical(key) != Canonical(other)
  {
    hide Parse, ValidKey;
    ParseExact(Legacy(key), key);
    ParseExact(Canonical(key), key);
    ParseExact(Legacy(other), other);
    ParseExact(Canonical(other), other);
    assert key == other ==> |Canonical(other)| == |Legacy(key)| + 10;
  }

  /** What is recognised, in letters: six pairs of a kind and a direction, each spelt in two ways. */
  lemma SpelledNamesParse(kind: string, name: string, direction: string)
    requires kind in {"user", "inbound", "outbound"} && direction in {"downlink", "uplink"}
    requires name != "" && Clean(name)
    ensures Parse(kind + ">>>" + name + ">>>" + direction) == Some(CounterKey(kind, name, direction))
    ensures Parse(kind + ">>>" + name + ">>>" + "traffic" + ">>>" + direction) ==
              Some(CounterKey(kind, name, direction))
  {
    hide Parse, Clean;
    SpellingsParse(CounterKey(kind, name, direction));
  }

  predicate StartsWith(s: string, prefix: string) {
    |prefix| <= |s| && s[..|prefix|] == prefix
  }

  /** Which names are counted as unsupported when they do not parse: those of the three kinds. */
  lemma AccountingNamesAre(raw: string)
    ensures IsAccounting(raw) <==>
            || raw in {"user", "inbound", "outbound"}
            || StartsWith(raw, "user>>>") || StartsWith(raw, "inbound>>>") || StartsWith(raw, "outbound>>>")
  {
    hide Split, IndexSep;
    WordsAreClean();
    UnfoldSplit(raw, 0);
    FirstPart(raw, "user");
    FirstPart(raw, "inbound");
    FirstPart(raw, "outbound");
    assert "user" + SEP == "user>>>" && "inbound" + SEP == "inbound>>>" && "outbound" + SEP == "outbound>>>";
  }

  lemma FirstPart(raw: string, kind: string)
    requires Clean(kind) && |kind| > 0
    ensures Split(raw, 0)[0] == kind <==> raw == kind || StartsWith(raw, kind + SEP)
  {
    hide Split, IndexSep;
    UnfoldSplit(raw, 0);
    var i := IndexSep(raw, 0);
    assert raw[0..] == raw;
    if Split(raw, 0)[0] == kind && 0 <= i {
      assert raw[..i + 3] == raw[0..i] + SEP;
    }
    if StartsWith(raw, kind + SEP) {
      var rest := raw[|kind| + 3..];
      assert raw == kind + SEP + rest;
      SplitOfClean(kind, rest);
    }
    if raw == kind {
      SplitOfLast(kind);
    }
  }

  // ---- Row keys ----

  /** The key under which the two directions of one user, inbound or outbound are collected. */
  function RowKey(kind: string, name: string): string {
    kind + SEP + name
  }

  lemma RowKeyInjective(kind: string, name: string, kind': string, name': string)
    requires IsKind(kind) && IsKind(kind')
    requires RowKey(kind, name) == RowKey(kind', name')
    ensures kind == kind' && name == name'
  {
    hide Split;
    WordsAreClean();
    SplitOfClean(kind, name);
    SplitOfClean(kind', name');
    assert ([kind] + Split(name, 0))[0] == ([kind'] + Split(name', 0))[0];
    assert RowKey(kind, name)[|kind| + 3..] == name && RowKey(kind', name')[|kind'| + 3..] == name';
  }
}
