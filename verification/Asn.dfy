/**
  The ASN database: a header, an index sorted by ASN, and the prefixes, in little-endian
  binary; and the lookup that binary-searches the index.
 */
module Asn {
  import opened Wrappers
  import Lines

  type byte = Lines.byte
  type bytes = seq<byte>

  /** `netip.Prefix`: an address of 4 or 16 bytes and a length, -1 in an invalid prefix. */
  datatype Prefix = Prefix(addr: bytes, bits: int)

  datatype Entry = Entry(asn: nat, ipv4: seq<Prefix>, ipv6: seq<Prefix>)

  const MAGIC: bytes := [0x52, 0x57, 0x41, 0x53, 0x4E, 0x44, 0x42, 0x01]
  const HEADER := 16
  const ENTRY := 16
  const U16 := 0x1_0000
  const U32 := 0x1_0000_0000
  const U64 := 0x1_0000_0000_0000_0000
  const I64 := 0x8000_0000_0000_0000

  // ---- Little-endian numbers ----

  function Power256(k: nat): nat {
    if k == 0 then 1 else 256 * Power256(k - 1)
  }

  function LittleEndian(n: nat, width: nat): (s: bytes)
    ensures |s| == width
  {
    if width == 0 then [] else [(n % 256) as byte] + LittleEndian(n / 256, width - 1)
  }

  function Value(s: bytes): nat {
    if s == [] then 0 else s[0] as nat + 256 * Value(s[1..])
  }

  lemma {:induction false} LittleEndianReads(n: nat, width: nat)
    requires n < Power256(width)
    ensures Value(LittleEndian(n, width)) == n
  {
    if width > 0 {
      LittleEndianReads(n / 256, width - 1);
      assert LittleEndian(n, width)[1..] == LittleEndian(n / 256, width - 1);
    }
  }

  lemma Powers()
    ensures Power256(2) == U16 && Power256(4) == U32 && Power256(8) == U64
  {
    assert Power256(3) == 0x100_0000 && Power256(5) == 0x100_0000_0000 && Power256(6) == 0x1_0000_0000_0000;
  }

  // ---- Prefixes ----

  predicate IsValid(p: Prefix) {
    (|p.addr| == 4 || |p.addr| == 16) && 0 <= p.bits <= 8 * |p.addr|
  }

  /** 2 to the number of bits of a byte that are not kept. */
  function Granule(keep: nat): (n: nat)
    ensures n >= 1
  {
    if keep == 0 then 256
    else if keep == 1 then 128
    else if keep == 2 then 64
    else if keep == 3 then 32
    else if keep == 4 then 16
    else if keep == 5 then 8
    else if keep == 6 then 4
    else if keep == 7 then 2
    else 1
  }

  /** The first `keep` bits of a byte. */
  function MaskByte(b: byte, keep: nat): byte {
    (b as nat - b as nat % Granule(keep)) as byte
  }

  /** How many bits of byte `i` belong to the first `bits`. */
  function Kept(bits: nat, i: nat): nat {
    if bits <= 8 * i then 0 else bits - 8 * i
  }

  function Masked(p: Prefix): (r: Prefix)
    requires IsValid(p)
    ensures IsValid(r) && |r.addr| == |p.addr| && r.bits == p.bits
  {
    Prefix(seq(|p.addr|, i requires 0 <= i < |p.addr| => MaskByte(p.addr[i], Kept(p.bits, i))), p.bits)
  }

  predicate Wanted(p: Prefix, width: nat) {
    IsValid(p) && |p.addr| == width
  }

  /** The valid prefixes of one family, masked, in order. */
  function Normalized(prefixes: seq<Prefix>, width: nat): (out: seq<Prefix>) {
    if prefixes == [] then []
    else
      var last := prefixes[|prefixes| - 1];
      var front := Normalized(prefixes[..|prefixes| - 1], width);
      if Wanted(last, width) then front + [Masked(last)] else front
  }

  predicate AllWanted(prefixes: seq<Prefix>, width: nat) {
    forall i :: 0 <= i < |prefixes| ==> Wanted(prefixes[i], width)
  }

  lemma {:induction false} NormalizedIsWanted(prefixes: seq<Prefix>, width: nat)
    ensures AllWanted(Normalized(prefixes, width), width)
    ensures |Normalized(prefixes, width)| <= |prefixes|
  {
    if prefixes != [] {
      NormalizedIsWanted(prefixes[..|prefixes| - 1], width);
    }
  }

  /** Rounding down twice is rounding down once. */
  lemma RoundedTwice(n: nat)
    ensures (n - n % 256) % 256 == 0 && (n - n % 128) % 128 == 0 && (n - n % 64) % 64 == 0
    ensures (n - n % 32) % 32 == 0 && (n - n % 16) % 16 == 0 && (n - n % 8) % 8 == 0
    ensures (n - n % 4) % 4 == 0 && (n - n % 2) % 2 == 0
  {
  }

  lemma MaskByteTwice(b: byte, keep: nat)
    ensures MaskByte(MaskByte(b, keep), keep) == MaskByte(b, keep)
  {
    RoundedTwice(b as nat);
    var rounded := MaskByte(b, keep) as nat;
    assert rounded % Granule(keep) == 0;
    hide Granule;
  }

  lemma MaskedTwice(p: Prefix)
    requires IsValid(p)
    ensures Masked(Masked(p)) == Masked(p)
  {
    forall i | 0 <= i < |p.addr| ensures Masked(Masked(p)).addr[i] == Masked(p).addr[i] {
      MaskByteTwice(p.addr[i], Kept(p.bits, i));
    }
    assert Masked(Masked(p)).addr == Masked(p).addr;
  }

  /** Writing what was read changes nothing. */
  lemma {:induction false} NormalizedTwice(prefixes: seq<Prefix>, width: nat)
    ensures Normalized(Normalized(prefixes, width), width) == Normalized(prefixes, width)
  {
    if prefixes != [] {
      var last := prefixes[|prefixes| - 1];
      var front := Normalized(prefixes[..|prefixes| - 1], width);
      NormalizedTwice(prefixes[..|prefixes| - 1], width);
      if Wanted(last, width) {
        assert (front + [Masked(last)])[..|front|] == front;
        MaskedTwice(last);
      }
    }
  }

  // ---- The file ----

  function Record(p: Prefix): bytes
    requires IsValid(p)
  {
    p.addr + [p.bits as byte]
  }

  /** The size of `n` records. */
  function Size(n: nat, width: nat): nat {
    n * (width + 1)
  }

  lemma SizeNext(n: nat, width: nat)
    ensures Size(n + 1, width) == Size(n, width) + width + 1
  {
  }

  lemma SizeGrows(i: nat, n: nat, width: nat)
    requires i <= n
    ensures Size(i, width) <= Size(n, width)
  {
    if i < n {
      SizeGrows(i, n - 1, width);
      SizeNext(n - 1, width);
    }
  }

  function Records(prefixes: seq<Prefix>, width: nat): (s: bytes)
    requires AllWanted(prefixes, width)
    ensures |s| == Size(|prefixes|, width)
  {
    if prefixes == [] then []
    else
      assert Wanted(prefixes[|prefixes| - 1], width);
      Records(prefixes[..|prefixes| - 1], width) + Record(prefixes[|prefixes| - 1])
  }

  function V4(e: Entry): seq<Prefix> { Normalized(e.ipv4, 4) }
  function V6(e: Entry): seq<Prefix> { Normalized(e.ipv6, 16) }

  function Blob(e: Entry): bytes {
    NormalizedIsWanted(e.ipv4, 4);
    NormalizedIsWanted(e.ipv6, 16);
    Records(V4(e), 4) + Records(V6(e), 16)
  }

  function BlobSize(e: Entry): nat {
    |V4(e)| * 5 + |V6(e)| * 17
  }

  function DataSize(entries: seq<Entry>): nat {
    if entries == [] then 0 else DataSize(entries[..|entries| - 1]) + BlobSize(entries[|entries| - 1])
  }

  function Data(entries: seq<Entry>): bytes {
    if entries == [] then [] else Data(entries[..|entries| - 1]) + Blob(entries[|entries| - 1])
  }

  function IndexEntry(e: Entry, dataOff: nat): (s: bytes)
    ensures |s| == ENTRY
  {
    LittleEndian(e.asn, 4) + LittleEndian(dataOff % U64, 8) + LittleEndian(|V4(e)| % U16, 2)
        + LittleEndian(|V6(e)| % U16, 2)
  }

  function Index(entries: seq<Entry>, dataOff: nat): (s: bytes)
    ensures |s| == |entries| * ENTRY
  {
    if entries == [] then []
    else
      var front := entries[..|entries| - 1];
      Index(front, dataOff) + IndexEntry(entries[|entries| - 1], dataOff + DataSize(front))
  }

  function Header(count: nat): (s: bytes)
    ensures |s| == HEADER
  {
    MAGIC + LittleEndian(count % U32, 4) + [0, 0, 0, 0]
  }

  function DataStart(entries: seq<Entry>): nat {
    HEADER + |entries| % U32 * ENTRY
  }

  /** The whole database for entries in index order. */
  function Image(entries: seq<Entry>): bytes {
    Header(|entries|) + Index(entries, DataStart(entries)) + Data(entries)
  }

  predicate Ordered(entries: seq<Entry>) {
    forall i, j :: 0 <= i < j < |entries| ==> entries[i].asn <= entries[j].asn
  }

  // ---- The writer ----

  /** Inserts into an ordered sequence; `sort.Slice` promises no particular order of equal ASNs. */
  function Insert(e: Entry, entries: seq<Entry>): seq<Entry> {
    if entries == [] || e.asn <= entries[0].asn then [e] + entries else [entries[0]] + Insert(e, entries[1..])
  }

  predicate AtLeast(asn: nat, entries: seq<Entry>) {
    forall i :: 0 <= i < |entries| ==> asn <= entries[i].asn
  }

  lemma {:induction false} InsertAtLeast(asn: nat, e: Entry, entries: seq<Entry>)
    requires AtLeast(asn, entries) && asn <= e.asn
    ensures AtLeast(asn, Insert(e, entries))
  {
    if !(entries == [] || e.asn <= entries[0].asn) {
      InsertAtLeast(asn, e, entries[1..]);
    }
  }

  lemma {:induction false} InsertOrdered(e: Entry, entries: seq<Entry>)
    requires Ordered(entries)
    ensures Ordered(Insert(e, entries))
  {
    if !(entries == [] || e.asn <= entries[0].asn) {
      InsertOrdered(e, entries[1..]);
      InsertAtLeast(entries[0].asn, e, entries[1..]);
    }
  }

  lemma {:induction false} InsertKeeps(e: Entry, entries: seq<Entry>)
    ensures multiset(Insert(e, entries)) == multiset(entries) + multiset{e}
  {
    if !(entries == [] || e.asn <= entries[0].asn) {
      InsertKeeps(e, entries[1..]);
      assert entries == [entries[0]] + entries[1..];
    }
  }

  method SortByASN(entries: seq<Entry>) returns (sorted: seq<Entry>)
    ensures Ordered(sorted) && multiset(sorted) == multiset(entries)
  {
    sorted := [];
    for i := 0 to |entries|
      invariant Ordered(sorted) && multiset(sorted) == multiset(entries[..i])
    {
      InsertKeeps(entries[i], sorted);
      InsertOrdered(entries[i], sorted);
      assert entries[..i + 1] == entries[..i] + [entries[i]];
      sorted := Insert(entries[i], sorted);
    }
    assert entries[..|entries|] == entries;
  }

  /** `normalizePrefixes` */
  method NormalizePrefixes(prefixes: seq<Prefix>, wantV4: bool) returns (out: seq<Prefix>)
    ensures out == Normalized(prefixes, if wantV4 then 4 else 16)
  {
    out := [];
    for i := 0 to |prefixes|
      invariant out == Normalized(prefixes[..i], if wantV4 then 4 else 16)
    {
      assert prefixes[..i + 1][..i] == prefixes[..i];
      var p := prefixes[i];
      if IsValid(p) {
        p := Masked(p);
        if (|p.addr| == 4) == wantV4 {
          out := out + [p];
        }
      }
    }
    assert prefixes[..|prefixes|] == prefixes;
  }

  /** One round of the writer's loop: the index entry and the blob of one entry. */
  method Serialize(e: Entry, dataOff: nat) returns (entry: bytes, blob: bytes, next: nat)
    requires dataOff < U64
    ensures entry == IndexEntry(e, dataOff) && blob == Blob(e) && next == (dataOff + BlobSize(e)) % U64
  {
    hide LittleEndian, V4, V6, Blob;
    var v4, v6;
    v4, v6, blob := SerializePrefixes(e);
    entry :=
      LittleEndian(e.asn, 4) + LittleEndian(dataOff, 8) + LittleEndian(|v4| % U16, 2) + LittleEndian(|v6| % U16, 2);
    next := (dataOff + |v4| * 5 + |v6| * 17) % U64;
  }

  method SerializePrefixes(e: Entry) returns (v4: seq<Prefix>, v6: seq<Prefix>, blob: bytes)
    ensures v4 == V4(e) && v6 == V6(e) && blob == Blob(e)
  {
    hide Normalized, Records;
    v4 := NormalizePrefixes(e.ipv4, true);
    v6 := NormalizePrefixes(e.ipv6, false);
    NormalizedIsWanted(e.ipv4, 4);
    NormalizedIsWanted(e.ipv6, 16);
    blob := AppendRecords([], v4, 4);
    blob := AppendRecords(blob, v6, 16);
  }

  method AppendRecords(data: bytes, prefixes: seq<Prefix>, width: nat) returns (out: bytes)
    requires AllWanted(prefixes, width)
    ensures out == data + Records(prefixes, width)
  {
    out := data;
    for i := 0 to |prefixes|
      invariant out == data + Records(prefixes[..i], width)
    {
      assert prefixes[..i + 1][..i] == prefixes[..i];
      assert Wanted(prefixes[i], width);
      out := out + prefixes[i].addr;
      out := out + [prefixes[i].bits as byte];
    }
    assert prefixes[..|prefixes|] == prefixes;
  }

  /** What `w` got: each write may fail and leave part of its bytes; `room` is what it is sure to take. */
  method WriteTo(out: bytes, more: bytes, room: nat) returns (out': bytes, ok: bool)
    ensures out <= out' <= out + more && (ok ==> out' == out + more)
    ensures |out + more| <= room ==> ok
  {
    ok := *;
    ok := ok || |out + more| <= room;
    var n: int := *;
    out' := if ok then out + more else if 0 <= n <= |more| then out + more[..n] else out;
  }

  /** `Write` */
  method Write(entries: seq<Entry>, room: nat) returns (out: bytes, ok: bool)
    ensures exists sorted :: Ordered(sorted) && multiset(sorted) == multiset(entries)
              && out <= Image(sorted) && (ok ==> out == Image(sorted)) && (|Image(sorted)| <= room ==> ok)
  {
    hide LittleEndian, Index, Data, DataStart, Ordered;
    var sorted := SortByASN(entries);
    var header := MAGIC + LittleEndian(|sorted| % U32, 4) + [0, 0, 0, 0];
    out, ok := WriteTo([], header, room);
    var index, data := Serialized(sorted);
    assert Image(sorted) == header + index + data;
    hide Image;
    assert [] + header == header;
    PrefixOfThree(header, index, data, out);
    if !ok {
      return;
    }
    out, ok := WriteTo(out, index, room);
    PrefixOfThree(header, index, data, out);
    if !ok {
      return;
    }
    out, ok := WriteTo(out, data, room);
  }

  lemma PrefixOfThree(a: bytes, b: bytes, c: bytes, out: bytes)
    ensures out <= a ==> out <= a + b + c
    ensures out <= a + b ==> out <= a + b + c
  {
  }

  method Serialized(sorted: seq<Entry>) returns (index: bytes, data: bytes)
    ensures index == Index(sorted, DataStart(sorted)) && data == Data(sorted)
  {
    hide Blob, BlobSize, IndexEntry, Index, Data, DataSize;
    index, data := [], [];
    Nothing(DataStart(sorted));
    var dataOff := HEADER + |sorted| % U32 * ENTRY;
    for i := 0 to |sorted|
      invariant index == Index(sorted[..i], DataStart(sorted)) && data == Data(sorted[..i])
      invariant dataOff == (DataStart(sorted) + DataSize(sorted[..i])) % U64
    {
      var entry, blob, next := Serialize(sorted[i], dataOff);
      IndexEntryWraps(sorted[i], DataStart(sorted) + DataSize(sorted[..i]));
      assert sorted[..i + 1] == sorted[..i] + [sorted[i]];
      OneMore(sorted[..i], sorted[i], DataStart(sorted));
      index := index + entry;
      data := data + blob;
      dataOff := next;
    }
    assert sorted[..|sorted|] == sorted;
  }

  lemma Nothing(dataOff: nat)
    ensures Index([], dataOff) == [] && Data([]) == [] && DataSize([]) == 0
  {
  }

  lemma OneMore(entries: seq<Entry>, e: Entry, dataOff: nat)
    ensures Index(entries + [e], dataOff) == Index(entries, dataOff) + IndexEntry(e, dataOff + DataSize(entries))
    ensures Data(entries + [e]) == Data(entries) + Blob(e)
    ensures DataSize(entries + [e]) == DataSize(entries) + BlobSize(e)
  {
    assert (entries + [e])[..|entries|] == entries;
  }

  lemma IndexEntryWraps(e: Entry, dataOff: nat)
    ensures IndexEntry(e, dataOff % U64) == IndexEntry(e, dataOff)
  {
    hide LittleEndian, V4, V6;
    assert dataOff % U64 % U64 == dataOff % U64;
  }

  // ---- The reader ----

  datatype DB = DB(file: bytes, count: nat)

  /** `Open` */
  function Open(file: bytes): Option<DB> {
    if |file| < HEADER || file[..8] != MAGIC then None else Some(DB(file, Value(file[8..12])))
  }

  /** `os.File.ReadAt`: all the bytes asked for, or an error. */
  function ReadAt(file: bytes, off: int, n: nat): (r: Option<bytes>)
    ensures r.Some? ==> |r.value| == n
  {
    if off < 0 then None
    else if n == 0 then Some([])
    else if off + n <= |file| then Some(file[off..off + n])
    else None
  }

  /** `netip.PrefixFrom` */
  function PrefixFrom(addr: bytes, bits: nat): Prefix {
    if bits <= 8 * |addr| then Prefix(addr, bits) else Prefix(addr, -1)
  }

  /** The first `n` records from `start` on. */
  function Decoded(buf: bytes, start: nat, n: nat, width: nat): (out: seq<Prefix>)
    requires start + Size(n, width) <= |buf|
    ensures |out| == n
  {
    if n == 0 then []
    else
      SizeNext(n - 1, width);
      var pos := start + Size(n - 1, width);
      Decoded(buf, start, n - 1, width) + [PrefixFrom(buf[pos..pos + width], buf[pos + width] as nat)]
  }

  type Prefixes = (seq<Prefix>, seq<Prefix>)

  function ReadBlob(file: bytes, off: int, v4n: nat, v6n: nat): (r: Prefixes)
    ensures |r.0| == v4n || r == ([], [])
    ensures |r.1| == v6n || r == ([], [])
  {
    var buf := ReadAt(file, off, v4n * 5 + v6n * 17);
    if buf.None? then ([], []) else (Decoded(buf.value, 0, v4n, 4), Decoded(buf.value, v4n * 5, v6n, 16))
  }

  /** `int64(n)` */
  function Int64(n: nat): int {
    if n < I64 then n else n - U64
  }

  /** What an index entry points to. */
  function Follow(file: bytes, entry: bytes): Prefixes
    requires |entry| == ENTRY
  {
    ReadBlob(file, Int64(Value(entry[4..12])), Value(entry[12..14]), Value(entry[14..16]))
  }

  function EntryAt(db: DB, i: nat): (r: Option<bytes>)
    ensures r.Some? ==> |r.value| == ENTRY
  {
    ReadAt(db.file, HEADER + i * ENTRY, ENTRY)
  }

  /** The binary search between `lo` and `hi`. */
  function Search(db: DB, asn: nat, lo: nat, hi: nat): Prefixes
    decreases hi - lo
  {
    if lo >= hi then ([], [])
    else
      var mid := lo + (hi - lo) / 2;
      var entry := EntryAt(db, mid);
      if entry.None? then ([], [])
      else
        var cur := Value(entry.value[0..4]);
        if cur < asn then Search(db, asn, mid + 1, hi)
        else if cur > asn then Search(db, asn, lo, mid)
        else Follow(db.file, entry.value)
  }

  function Lookup(db: DB, asn: nat): Prefixes {
    Search(db, asn, 0, db.count)
  }

  method ReadFile(file: bytes, off: int, n: nat, reliable: bool) returns (buf: Option<bytes>)
    ensures buf == ReadAt(file, off, n) || buf == None
    ensures reliable ==> buf == ReadAt(file, off, n)
  {
    var fails: bool := *;
    buf := if fails && !reliable then None else ReadAt(file, off, n);
  }

  /** `PrefixesByASN`: the lookup, or nothing when a read fails, which no read does of a reliable file. */
  method PrefixesByASN(db: DB, asn: nat, reliable: bool) returns (ipv4: seq<Prefix>, ipv6: seq<Prefix>)
    ensures (ipv4, ipv6) == Lookup(db, asn) || (ipv4, ipv6) == ([], [])
    ensures reliable ==> (ipv4, ipv6) == Lookup(db, asn)
  {
    hide Follow, Search, EntryAt, Value;
    if db.count == 0 {
      SearchEnds(db, asn, 0, 0);
      return [], [];
    }
    var lo, hi := 0, db.count;
    while lo < hi
      invariant 0 <= lo <= hi && Lookup(db, asn) == Search(db, asn, lo, hi)
    {
      var mid := lo + (hi - lo) / 2;
      UnfoldSearch(db, asn, lo, hi);
      var entry := ReadEntry(db, mid, reliable);
      if entry.None? {
        return [], [];
      }
      var cur := Value(entry.value[0..4]);
      if cur < asn {
        lo := mid + 1;
      } else if cur > asn {
        hi := mid;
      } else {
        ipv4, ipv6 := FollowEntry(db.file, entry.value, reliable);
        return;
      }
    }
    SearchEnds(db, asn, lo, hi);
    return [], [];
  }

  lemma UnfoldSearch(db: DB, asn: nat, lo: nat, hi: nat)
    requires lo < hi
    ensures var mid := lo + (hi - lo) / 2;
            var entry := EntryAt(db, mid);
            entry.Some? ==>
              && |entry.value| == ENTRY
              && (var cur := Value(entry.value[0..4]);
                  Search(db, asn, lo, hi) ==
                    if cur < asn then Search(db, asn, mid + 1, hi)
                    else if cur > asn then Search(db, asn, lo, mid)
                    else Follow(db.file, entry.value))
    ensures EntryAt(db, lo + (hi - lo) / 2).None? ==> Search(db, asn, lo, hi) == ([], [])
  {
  }

  method ReadEntry(db: DB, i: nat, reliable: bool) returns (entry: Option<bytes>)
    ensures entry == EntryAt(db, i) || entry == None
    ensures reliable ==> entry == EntryAt(db, i)
  {
    entry := ReadFile(db.file, HEADER + i * ENTRY, ENTRY, reliable);
  }

  method FollowEntry(file: bytes, entry: bytes, reliable: bool) returns (ipv4: seq<Prefix>, ipv6: seq<Prefix>)
    requires |entry| == ENTRY
    ensures (ipv4, ipv6) == Follow(file, entry) || (ipv4, ipv6) == ([], [])
    ensures reliable ==> (ipv4, ipv6) == Follow(file, entry)
  {
    var dataOff, v4n, v6n := Value(entry[4..12]), Value(entry[12..14]), Value(entry[14..16]);
    var buf := ReadFile(file, Int64(dataOff), v4n * 5 + v6n * 17, reliable);
    if buf.None? {
      return [], [];
    }
    var pos;
    ipv4, pos := ReadRecords(buf.value, 0, v4n, 4);
    ipv6, pos := ReadRecords(buf.value, pos, v6n, 16);
  }

  method ReadRecords(buf: bytes, start: nat, n: nat, width: nat) returns (out: seq<Prefix>, pos: nat)
    requires start + Size(n, width) <= |buf|
    ensures out == Decoded(buf, start, n, width) && pos == start + Size(n, width)
  {
    out, pos := [], start;
    for i := 0 to n
      invariant pos == start + Size(i, width) <= |buf|
      invariant out == Decoded(buf, start, i, width)
    {
      SizeNext(i, width);
      SizeGrows(i + 1, n, width);
      hide Size;
      out := out + [PrefixFrom(buf[pos..pos + width], buf[pos + width] as nat)];
      pos := pos + (width + 1);
    }
  }

  // ---- What was written is what is read ----

  predicate Distinct(entries: seq<Entry>) {
    forall i, j :: 0 <= i < j < |entries| ==> entries[i].asn != entries[j].asn
  }

  lemma BlobHasItsSize(e: Entry)
    ensures |Blob(e)| == BlobSize(e)
  {
    NormalizedIsWanted(e.ipv4, 4);
    NormalizedIsWanted(e.ipv6, 16);
  }

  lemma {:induction false} IndexHas(entries: seq<Entry>, dataOff: nat, i: nat)
    requires i < |entries|
    ensures Index(entries, dataOff)[i * ENTRY..i * ENTRY + ENTRY] ==
              IndexEntry(entries[i], dataOff + DataSize(entries[..i]))
  {
    hide IndexEntry, DataSize, Index;
    var n := |entries| - 1;
    assert entries == entries[..n] + [entries[n]];
    OneMore(entries[..n], entries[n], dataOff);
    if i < n {
      IndexHas(entries[..n], dataOff, i);
      assert entries[..n][..i] == entries[..i];
    }
  }

  lemma {:induction false} DataHas(entries: seq<Entry>, i: nat)
    requires i < |entries|
    ensures |Data(entries)| == DataSize(entries)
    ensures DataSize(entries[..i]) + BlobSize(entries[i]) <= DataSize(entries)
    ensures Data(entries)[DataSize(entries[..i])..][..BlobSize(entries[i])] == Blob(entries[i])
  {
    hide Data, DataSize, Blob, BlobSize;
    var n := |entries| - 1;
    assert entries == entries[..n] + [entries[n]];
    OneMore(entries[..n], entries[n], 0);
    BlobHasItsSize(entries[n]);
    if n == 0 {
      Nothing(0);
      assert entries[..0] == [];
    } else {
      DataHas(entries[..n], if i < n then i else 0);
      if i < n {
        assert entries[..n][..i] == entries[..i];
      }
    }
  }

  lemma RecordsNext(prefixes: seq<Prefix>, width: nat)
    requires prefixes != [] && AllWanted(prefixes, width)
    ensures var front, last := prefixes[..|prefixes| - 1], prefixes[|prefixes| - 1];
            && Wanted(last, width) && AllWanted(front, width) && prefixes == front + [last]
            && Records(prefixes, width) == Records(front, width) + Record(last)
  {
    assert Wanted(prefixes[|prefixes| - 1], width);
  }

  lemma DecodedNext(buf: bytes, pos: nat, start: nat, n: nat, width: nat)
    requires start + Size(n + 1, width) <= |buf| && pos == start + Size(n, width)
    ensures pos + width + 1 == start + Size(n + 1, width)
    ensures Decoded(buf, start, n + 1, width) ==
              Decoded(buf, start, n, width) + [PrefixFrom(buf[pos..pos + width], buf[pos + width] as nat)]
  {
    SizeNext(n, width);
  }

  /** Records read back, whatever follows them. */
  lemma {:induction false} RecordsRead(before: bytes, prefixes: seq<Prefix>, width: nat, after: bytes)
    requires AllWanted(prefixes, width)
    ensures Decoded(before + Records(prefixes, width) + after, |before|, |prefixes|, width) == prefixes
  {
    if prefixes != [] {
      hide Size, Records, Decoded, Record;
      var front, last := prefixes[..|prefixes| - 1], prefixes[|prefixes| - 1];
      RecordsNext(prefixes, width);
      RecordsRead(before, front, width, Record(last) + after);
      var head, buf := before + Records(front, width), before + Records(prefixes, width) + after;
      assert head + (Record(last) + after) == buf;
      DecodedNext(buf, |head|, |before|, |front|, width);
      RecordIn(head, last, after);
    }
  }

  lemma RecordIn(before: bytes, p: Prefix, after: bytes)
    requires IsValid(p)
    ensures var buf, pos, width := before + (Record(p) + after), |before|, |p.addr|;
            && |buf| > pos + width && buf[pos..pos + width] == p.addr && buf[pos + width] as nat == p.bits
            && PrefixFrom(p.addr, p.bits) == p
  {
    var buf, pos, width := before + (Record(p) + after), |before|, |p.addr|;
    assert buf[pos..pos + width] == p.addr;
    assert buf[pos + width] == p.bits as byte;
  }

  lemma BlobReads(e: Entry)
    ensures var blob := Blob(e);
            && |blob| == |V4(e)| * 5 + |V6(e)| * 17
            && Decoded(blob, 0, |V4(e)|, 4) == V4(e)
            && Decoded(blob, |V4(e)| * 5, |V6(e)|, 16) == V6(e)
  {
    hide Normalized, Records, Decoded;
    NormalizedIsWanted(e.ipv4, 4);
    NormalizedIsWanted(e.ipv6, 16);
    RecordsRead([], V4(e), 4, Records(V6(e), 16));
    RecordsRead(Records(V4(e), 4), V6(e), 16, []);
    assert [] + Records(V4(e), 4) + Records(V6(e), 16) == Blob(e);
    assert Records(V4(e), 4) + Records(V6(e), 16) + [] == Blob(e);
  }

  /** The fields of an index entry read back; its counts are the lengths modulo 65536. */
  lemma IndexEntryReads(e: Entry, dataOff: nat)
    requires e.asn < U32 && dataOff < U64
    ensures var entry := IndexEntry(e, dataOff);
            && Value(entry[0..4]) == e.asn && Value(entry[4..12]) == dataOff
            && Value(entry[12..14]) == |V4(e)| % U16 && Value(entry[14..16]) == |V6(e)| % U16
  {
    hide LittleEndian, Value, Power256;
    Powers();
    LittleEndianReads(e.asn, 4);
    LittleEndianReads(dataOff, 8);
    LittleEndianReads(|V4(e)| % U16, 2);
    LittleEndianReads(|V6(e)| % U16, 2);
    var entry := IndexEntry(e, dataOff);
    assert entry[0..4] == LittleEndian(e.asn, 4) && entry[4..12] == LittleEndian(dataOff % U64, 8);
    assert entry[12..14] == LittleEndian(|V4(e)| % U16, 2) && entry[14..16] == LittleEndian(|V6(e)| % U16, 2);
  }

  /** The index of `db` lists these ASNs. */
  ghost predicate IndexLists(db: DB, entries: seq<Entry>) {
    && db.count == |entries|
    && forall i :: 0 <= i < |entries| ==> EntryAt(db, i).Some? && Value(EntryAt(db, i).value[0..4]) == entries[i].asn
  }

  /** In an ordered index the binary search finds an entry with the ASN exactly when there is one. */
  lemma {:induction false} SearchFinds(db: DB, entries: seq<Entry>, asn: nat, lo: nat, hi: nat)
    requires IndexLists(db, entries) && Ordered(entries) && lo <= hi <= |entries|
    requires forall i :: 0 <= i < lo ==> entries[i].asn < asn
    requires forall i :: hi <= i < |entries| ==> asn < entries[i].asn
    ensures if exists i :: 0 <= i < |entries| && entries[i].asn == asn then
              exists i :: 0 <= i < |entries| && entries[i].asn == asn
                  && Search(db, asn, lo, hi) == Follow(db.file, EntryAt(db, i).value)
            else
              Search(db, asn, lo, hi) == ([], [])
    decreases hi - lo
  {
    hide Follow, EntryAt, Value, Search;
    if lo < hi {
      var mid := lo + (hi - lo) / 2;
      UnfoldSearch(db, asn, lo, hi);
      if entries[mid].asn < asn {
        SearchFinds(db, entries, asn, mid + 1, hi);
      } else if entries[mid].asn > asn {
        SearchFinds(db, entries, asn, lo, mid);
      }
    } else {
      SearchEnds(db, asn, lo, hi);
    }
  }

  lemma SearchEnds(db: DB, asn: nat, lo: nat, hi: nat)
    requires lo >= hi
    ensures Search(db, asn, lo, hi) == ([], [])
  {
  }

  predicate AsnsFit(entries: seq<Entry>) {
    forall i :: 0 <= i < |entries| ==> entries[i].asn < U32
  }

  function Written(entries: seq<Entry>): DB {
    DB(Image(entries), |entries|)
  }

  lemma ImageOpens(entries: seq<Entry>)
    requires |entries| < U32
    ensures Open(Image(entries)) == Some(Written(entries))
    ensures DataStart(entries) == HEADER + |entries| * ENTRY
    ensures |Image(entries)| == DataStart(entries) + |Data(entries)|
  {
    hide Index, Data, LittleEndian, Value, Power256;
    Powers();
    LittleEndianReads(|entries|, 4);
    var image := Image(entries);
    assert image[..8] == MAGIC;
    assert image[8..12] == LittleEndian(|entries|, 4);
  }

  /** Where an entry's prefixes are. */
  function Offset(entries: seq<Entry>, i: nat): nat
    requires i < |entries|
  {
    DataStart(entries) + DataSize(entries[..i])
  }

  lemma ImageHas(entries: seq<Entry>, i: nat)
    requires |entries| < U32 && i < |entries|
    ensures EntryAt(Written(entries), i) == Some(IndexEntry(entries[i], Offset(entries, i)))
    ensures Offset(entries, i) + BlobSize(entries[i]) <= |Image(entries)|
    ensures Image(entries)[Offset(entries, i)..Offset(entries, i) + BlobSize(entries[i])] == Blob(entries[i])
  {
    hide Index, Data, Header, IndexEntry, Blob, BlobSize, DataSize, Image, DataStart;
    ImageOpens(entries);
    IndexHas(entries, DataStart(entries), i);
    DataHas(entries, i);
    var header, index, data := Header(|entries|), Index(entries, DataStart(entries)), Data(entries);
    assert Image(entries) == header + index + data by { ImageIs(entries); }
    var image := header + index + data;
    assert image[HEADER + i * ENTRY..HEADER + i * ENTRY + ENTRY] == index[i * ENTRY..i * ENTRY + ENTRY];
    var at, size := DataSize(entries[..i]), BlobSize(entries[i]);
    assert image[Offset(entries, i)..Offset(entries, i) + size] == data[at..][..size];
  }

  lemma ImageIs(entries: seq<Entry>)
    ensures Image(entries) == Header(|entries|) + Index(entries, DataStart(entries)) + Data(entries)
  {
  }

  lemma ReadBlobFits(file: bytes, off: nat, e: Entry)
    requires off + BlobSize(e) <= |file| && file[off..off + BlobSize(e)] == Blob(e)
    ensures ReadBlob(file, off, |V4(e)|, |V6(e)|) == (V4(e), V6(e))
  {
    hide Blob, Decoded, V4, V6;
    BlobReads(e);
    ReadWhole(file, off, Blob(e));
  }

  /** Following the entry that was written gives its prefixes back exactly when both counts fit in 16 bits. */
  lemma FollowWritten(entries: seq<Entry>, i: nat)
    requires AsnsFit(entries) && |entries| < U32 && i < |entries| && |Image(entries)| < I64
    ensures var e := entries[i];
            (Follow(Image(entries), IndexEntry(e, Offset(entries, i))) == (V4(e), V6(e)) <==>
                  |V4(e)| < U16 && |V6(e)| < U16)
  {
    hide Image, IndexEntry, Blob, Offset, V4, V6, Value, ReadBlob;
    var e, off := entries[i], Offset(entries, i);
    ImageHas(entries, i);
    IndexEntryReads(e, off);
    if |V4(e)| < U16 && |V6(e)| < U16 {
      ReadBlobFits(Image(entries), off, e);
    }
  }

  lemma ReadWhole(file: bytes, off: nat, blob: bytes)
    requires off + |blob| <= |file| && file[off..off + |blob|] == blob
    ensures ReadAt(file, off, |blob|) == Some(blob)
  {
  }

  lemma WrittenLists(entries: seq<Entry>)
    requires AsnsFit(entries) && |entries| < U32 && |Image(entries)| < I64
    ensures IndexLists(Written(entries), entries)
  {
    hide IndexEntry, Value, EntryAt, Offset, Image;
    forall i | 0 <= i < |entries|
      ensures EntryAt(Written(entries), i).Some? && Value(EntryAt(Written(entries), i).value[0..4]) == entries[i].asn
    {
      ImageHas(entries, i);
      IndexEntryReads(entries[i], Offset(entries, i));
    }
  }

  /**
    The round trip, whatever order the entries were given in: with distinct ASNs, a lookup
    gives an entry's valid prefixes of each family, masked and in order, if and only if
    neither list has more than 65535; an absent ASN gives nothing.
   */
  lemma RoundTrip(entries: seq<Entry>, sorted: seq<Entry>, e: Entry)
    requires multiset(sorted) == multiset(entries) && Ordered(sorted) && Distinct(sorted)
    requires AsnsFit(sorted) && |sorted| < U32 && |Image(sorted)| < I64
    requires e in entries
    ensures Open(Image(sorted)) == Some(Written(sorted))
    ensures Lookup(Written(sorted), e.asn) == (V4(e), V6(e)) <==> |V4(e)| < U16 && |V6(e)| < U16
  {
    hide Image, IndexEntry, Offset, Follow, EntryAt, Search;
    assert e in multiset(sorted);
    var k :| 0 <= k < |sorted| && sorted[k] == e;
    ImageOpens(sorted);
    WrittenLists(sorted);
    SearchFinds(Written(sorted), sorted, e.asn, 0, |sorted|);
    var i :| 0 <= i < |sorted| && sorted[i].asn == e.asn
             && Lookup(Written(sorted), e.asn) == Follow(Image(sorted), EntryAt(Written(sorted), i).value);
    assert i == k;
    ImageHas(sorted, k);
    FollowWritten(sorted, k);
  }

  lemma AbsentIsEmpty(entries: seq<Entry>, sorted: seq<Entry>, asn: nat)
    requires multiset(sorted) == multiset(entries) && Ordered(sorted)
    requires AsnsFit(sorted) && |sorted| < U32 && |Image(sorted)| < I64
    requires forall e :: e in entries ==> e.asn != asn
    ensures Lookup(Written(sorted), asn) == ([], [])
  {
    hide Image, Follow, EntryAt, Search;
    forall i | 0 <= i < |sorted| ensures sorted[i].asn != asn {
      assert sorted[i] in multiset(sorted);
    }
    WrittenLists(sorted);
    SearchFinds(Written(sorted), sorted, asn, 0, |sorted|);
  }

  lemma SameFirst(a: seq<Entry>, b: seq<Entry>)
    requires multiset(a) == multiset(b) && Ordered(a) && Ordered(b) && Distinct(a) && a != [] && b != []
    ensures a[0] == b[0]
  {
    assert a[0] in multiset(b) && b[0] in multiset(a);
    var i :| 0 <= i < |a| && a[i] == b[0];
    var j :| 0 <= j < |b| && b[j] == a[0];
    assert b[0].asn <= b[j].asn && a[0].asn <= a[i].asn;
    assert a[0].asn == a[i].asn;
  }

  lemma SameRest(a: seq<Entry>, b: seq<Entry>)
    requires multiset(a) == multiset(b) && a != [] && b != [] && a[0] == b[0]
    ensures multiset(a[1..]) == multiset(b[1..])
  {
    assert a == [a[0]] + a[1..] && b == [b[0]] + b[1..];
    assert multiset(a) == multiset{a[0]} + multiset(a[1..]) && multiset(b) == multiset{b[0]} + multiset(b[1..]);
    assert multiset(a[1..]) == multiset(a) - multiset{a[0]} && multiset(b[1..]) == multiset(b) - multiset{b[0]};
  }

  /** With distinct ASNs there is one index order, so the order the entries were given in makes no difference. */
  lemma {:induction false} OrderedIsUnique(a: seq<Entry>, b: seq<Entry>)
    requires multiset(a) == multiset(b) && Ordered(a) && Ordered(b) && Distinct(a)
    ensures a == b
  {
    assert |multiset(a)| == |a| && |multiset(b)| == |b|;
    if a != [] {
      SameFirst(a, b);
      SameRest(a, b);
      OrderedIsUnique(a[1..], b[1..]) by { hide *; TailOrdered(a); TailOrdered(b); }
      assert a == [a[0]] + a[1..] && b == [b[0]] + b[1..];
    }
  }

  lemma TailOrdered(a: seq<Entry>)
    requires a != []
    ensures Ordered(a) ==> Ordered(a[1..])
    ensures Distinct(a) ==> Distinct(a[1..])
  {
  }

  // ---- Bits and bytes ----

  function Power2(n: nat): nat {
    if n == 0 then 1 else 2 * Power2(n - 1)
  }

  /**
    Masking keeps the first bits of an address, as many as the prefix is long, and clears
    the others: with `n` of the eight bits of a byte beyond them, what is left of the byte is
    the greatest multiple of 2^n that it holds.
   */
  lemma MaskedIs(p: Prefix, i: nat, n: nat)
    requires IsValid(p) && i < |p.addr|
    requires n == if p.bits <= 8 * i then 8 else if 8 * i + 8 <= p.bits then 0 else 8 * i + 8 - p.bits
    ensures |Masked(p).addr| == |p.addr| && Masked(p).bits == p.bits
    ensures 0 < Power2(n) && Masked(p).addr[i] as nat == Power2(n) * (p.addr[i] as nat / Power2(n))
  {
    MaskByteIs(p.addr[i], Kept(p.bits, i), n);
    hide MaskByte, Power2;
  }

  lemma MaskByteIs(b: byte, keep: nat, n: nat)
    requires n == if 8 <= keep then 0 else 8 - keep
    ensures 0 < Power2(n) && MaskByte(b, keep) as nat == Power2(n) * (b as nat / Power2(n))
  {
    GranuleIsPower(keep, n);
    var g := Granule(keep);
    assert MaskByte(b, keep) as nat == b as nat - b as nat % g;
    hide *;
    assert b as nat == g * (b as nat / g) + b as nat % g;
  }

  lemma GranuleIsPower(keep: nat, n: nat)
    requires n == if 8 <= keep then 0 else 8 - keep
    ensures Granule(keep) == Power2(n)
  {
    assert Power2(1) == 2 && Power2(2) == 4 && Power2(3) == 8 && Power2(4) == 16;
    assert Power2(5) == 32 && Power2(6) == 64 && Power2(7) == 128 && Power2(8) == 256;
  }

  /** One prefix of either family: an invalid one, or one of the other family, is dropped. */
  lemma OneNormalized(p: Prefix)
    ensures Normalized([p], 4) == if |p.addr| == 4 && 0 <= p.bits <= 32 then [Masked(p)] else []
    ensures Normalized([p], 16) == if |p.addr| == 16 && 0 <= p.bits <= 128 then [Masked(p)] else []
  {
    assert [p][..0] == [];
    assert Normalized([], 4) == [] && Normalized([], 16) == [];
    hide Masked;
  }

  lemma {:induction false} NormalizedConcat(a: seq<Prefix>, b: seq<Prefix>, width: nat)
    ensures Normalized(a + b, width) == Normalized(a, width) + Normalized(b, width)
  {
    if b == [] {
      assert a + b == a;
    } else {
      var init, last := b[..|b| - 1], b[|b| - 1];
      NormalizedConcat(a, init, width);
      assert (a + b)[..|a + b| - 1] == a + init;
      hide Masked;
    }
  }

  /** The least significant byte stands first. */
  lemma ValuesAre(a: byte, b: byte, c: byte, d: byte)
    ensures Value([a, b]) == a as nat + 256 * b as nat
    ensures Value([a, b, c, d]) == a as nat + 256 * b as nat + 65536 * c as nat + 16777216 * d as nat
  {
    assert [a, b][1..] == [b] && [b][1..] == [];
    assert [a, b, c, d][1..] == [b, c, d] && [b, c, d][1..] == [c, d] && [c, d][1..] == [d] && [d][1..] == [];
    assert Value([b]) == b as nat && Value([d]) == d as nat;
    assert Value([c, d]) == c as nat + 256 * d as nat;
    hide Value;
  }

  /** A whole database of one ASN with one prefix, byte by byte. */
  lemma ImageInstance(e: Entry)
    requires e == Entry(13335, [Prefix([1, 1, 1, 9], 24)], [])
    ensures Image([e]) ==
            [0x52, 0x57, 0x41, 0x53, 0x4E, 0x44, 0x42, 1] + [1, 0, 0, 0] + [0, 0, 0, 0]
            + ([0x17, 0x34, 0, 0] + [32, 0, 0, 0, 0, 0, 0, 0] + [1, 0] + [0, 0])
            + ([1, 1, 1, 0] + [24])
  {
    PrefixesOfInstance(e);
    FrameOfInstance(e);
    ImageOfOne(e);
    hide *;
  }

  lemma ImageOfOne(e: Entry)
    ensures Image([e]) == Header(1) + IndexEntry(e, 32) + Blob(e)
  {
    hide IndexEntry, Index, Data, Header, Blob;
    OneMore([], e, 32);
    Nothing(32);
    assert [] + [e] == [e];
    assert [] + IndexEntry(e, 32) == IndexEntry(e, 32) && [] + Blob(e) == Blob(e);
  }

  lemma FrameOfInstance(e: Entry)
    requires e.asn == 13335 && |V4(e)| == 1 && |V6(e)| == 0
    ensures Header(1) == [0x52, 0x57, 0x41, 0x53, 0x4E, 0x44, 0x42, 1] + [1, 0, 0, 0] + [0, 0, 0, 0]
    ensures IndexEntry(e, 32) == [0x17, 0x34, 0, 0] + [32, 0, 0, 0, 0, 0, 0, 0] + [1, 0] + [0, 0]
  {
    NumbersOfInstance();
    hide LittleEndian, V4, V6;
  }

  lemma PrefixesOfInstance(e: Entry)
    requires e == Entry(13335, [Prefix([1, 1, 1, 9], 24)], [])
    ensures V4(e) == [Prefix([1, 1, 1, 0], 24)] && V6(e) == [] && Blob(e) == [1, 1, 1, 0] + [24]
  {
    OneNormalized(e.ipv4[0]);
    assert Masked(e.ipv4[0]).addr == [1, 1, 1, 0];
    assert V4(e)[..0] == [];
    assert Records(V4(e)[..0], 4) == [];
    assert [] + ([1, 1, 1, 0] + [24]) + [] == [1, 1, 1, 0] + [24];
  }

  lemma NumbersOfInstance()
    ensures LittleEndian(1, 4) == [1, 0, 0, 0] && LittleEndian(13335, 4) == [0x17, 0x34, 0, 0]
    ensures LittleEndian(32, 8) == [32, 0, 0, 0, 0, 0, 0, 0]
    ensures LittleEndian(1, 2) == [1, 0] && LittleEndian(0, 2) == [0, 0]
  {
    ZeroBytes();
    NextByte(1, 3, [0, 0, 0]);
    NextByte(52, 2, [0, 0]);
    NextByte(13335, 3, [52, 0, 0]);
    NextByte(32, 7, [0, 0, 0, 0, 0, 0, 0]);
    NextByte(1, 1, [0]);
    hide LittleEndian;
  }

  lemma NextByte(n: nat, width: nat, rest: bytes)
    requires LittleEndian(n / 256, width) == rest
    ensures LittleEndian(n, width + 1) == [(n % 256) as byte] + rest
  {
  }

  lemma ZeroBytes()
    ensures LittleEndian(0, 1) == [0] && LittleEndian(0, 2) == [0, 0] && LittleEndian(0, 3) == [0, 0, 0]
    ensures LittleEndian(0, 7) == [0, 0, 0, 0, 0, 0, 0]
  {
    assert LittleEndian(0, 4) == [0, 0, 0, 0] && LittleEndian(0, 5) == [0, 0, 0, 0, 0];
  }
}
