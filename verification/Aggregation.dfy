/**
  One accounting sample as rows: the counters of two snapshots are parsed, both
  spellings of a counter are summed, and each user, inbound and outbound gets one row
  of non-negative deltas. Maps are walked in arbitrary order.
 */
module Aggregation {
  import opened Wrappers
  import opened CounterNames

  /** A counter as stored in the journal: decimal text, or text that is no number. */
  datatype Decimal = Num(value: int) | Malformed

  type Counters = map<string, Decimal>

  /** Diagnostics keep their code; `count` is the number quoted in the message, if any. */
  datatype Diagnostic = Diagnostic(code: string, count: nat)

  datatype Pending = Pending(
    diagnostics: seq<Diagnostic>,
    from: Counters,
    generation: string,
    sampleId: string,
    to: Counters)

  datatype Traffic = Traffic(name: string, downlink: int, uplink: int)

  datatype Response = Response(
    diagnostics: seq<Diagnostic>,
    generation: string,
    sampleId: string,
    users: seq<Traffic>,
    inbounds: seq<Traffic>,
    outbounds: seq<Traffic>)

  // ---- The reference: one sum per key ----

  predicate Counted(m: Counters, names: set<string>, spelling: string) {
    spelling in names && spelling in m && m[spelling].Num?
  }

  function Amount(m: Counters, names: set<string>, spelling: string): int {
    if Counted(m, names, spelling) then m[spelling].value else 0
  }

  predicate Present(m: Counters, names: set<string>, key: CounterKey) {
    Counted(m, names, Legacy(key)) || Counted(m, names, Canonical(key))
  }

  /** The counter's value over both spellings, as far as `names` goes. */
  function Sum(m: Counters, names: set<string>, key: CounterKey): int {
    Amount(m, names, Legacy(key)) + Amount(m, names, Canonical(key))
  }

  function Total(m: Counters, key: CounterKey): int {
    Sum(m, m.Keys, key)
  }

  /** Traffic of one counter between two snapshots, as a row reports it. */
  ghost function Delta(from: Counters, to: Counters, key: CounterKey): (d: int)
    ensures 0 <= d
  {
    if ValidKey(key) && Present(to, to.Keys, key) then NonNegative(Total(to, key) - Total(from, key)) else 0
  }

  function NonNegative(x: int): int {
    if x < 0 then 0 else x
  }

  /** The row of one (kind, name). */
  ghost predicate IsRow(p: Pending, kind: string, t: Traffic) {
    && t.downlink == Delta(p.from, p.to, CounterKey(kind, t.name, "downlink"))
    && t.uplink == Delta(p.from, p.to, CounterKey(kind, t.name, "uplink"))
    && (t.downlink != 0 || t.uplink != 0)
  }

  /**
    `Delta` is max(0, To - From) for every key, except that a counter with no spelling
    left in To gives 0 even if its old sum was negative; exactly then the two differ.
   */
  lemma DeltaIsClampedDifference(from: Counters, to: Counters, key: CounterKey)
    requires ValidKey(key)
    ensures Delta(from, to, key) == NonNegative(Total(to, key) - Total(from, key)) <==>
            Present(to, to.Keys, key) || 0 <= Total(from, key)
  {
  }

  // ---- First and second pass: sums per key ----

  lemma CollectStep(m: Counters, names: set<string>, name: string)
    requires name in m && name !in names
    ensures forall key :: ValidKey(key) ==>
              (Present(m, names + {name}, key) <==>
                 Present(m, names, key) || (Parse(name) == Some(key) && m[name].Num?))
    ensures forall key :: ValidKey(key) ==>
              Sum(m, names + {name}, key) ==
                Sum(m, names, key) + (if Parse(name) == Some(key) && m[name].Num? then m[name].value else 0)
    ensures forall key :: Parse(name) == Some(key) ==> ValidKey(key)
  {
    forall key: CounterKey
      ensures Parse(name) == Some(key) ==> ValidKey(key)
      ensures ValidKey(key) ==> (Parse(name) == Some(key) <==> name == Legacy(key) || name == Canonical(key))
      ensures ValidKey(key) ==> Legacy(key) != Canonical(key)
    {
      hide Parse, ValidKey;
      ParseExact(name, key);
      if ValidKey(key) {
        SpellingsAreDistinct(key, key);
      }
    }
    hide Parse, ValidKey, Legacy, Canonical;
  }

  ghost predicate SumsUpTo(sums: map<CounterKey, int>, m: Counters, names: set<string>) {
    forall key ::
      && (key in sums <==> ValidKey(key) && Present(m, names, key))
      && (key in sums ==> sums[key] == Sum(m, names, key))
  }

  ghost function UnsupportedNames(names: set<string>): set<string> {
    set name | name in names && Parse(name).None? && IsAccounting(name)
  }

  method Collect(m: Counters) returns (sums: map<CounterKey, int>, unsupported: nat)
    ensures SumsUpTo(sums, m, m.Keys)
    ensures unsupported == |UnsupportedNames(m.Keys)|
  {
    hide Parse, ValidKey, Legacy, Canonical, Sum, Present, IsAccounting, SumsUpTo, UnsupportedNames;
    NothingCollected(m);
    sums, unsupported := map[], 0;
    var rest := m.Keys;
    ghost var done: set<string> := {};
    while rest != {}
      invariant done !! rest && done + rest == m.Keys
      invariant SumsUpTo(sums, m, done)
      invariant unsupported == |UnsupportedNames(done)|
      decreases |rest|
    {
      var name :| name in rest;
      OneMoreUnsupported(done, name);
      sums, unsupported := CollectOne(m, done, name, sums, unsupported);
      rest := rest - {name};
      done := done + {name};
    }
    assert done == m.Keys;
  }

  lemma NothingCollected(m: Counters)
    ensures SumsUpTo(map[], m, {}) && UnsupportedNames({}) == {}
  {
  }

  lemma OneMoreUnsupported(names: set<string>, name: string)
    requires name !in names
    ensures |UnsupportedNames(names + {name})| ==
            |UnsupportedNames(names)| + (if Parse(name).None? && IsAccounting(name) then 1 else 0)
  {
    hide Parse, IsAccounting;
    assert UnsupportedNames(names + {name}) ==
           UnsupportedNames(names) + (if Parse(name).None? && IsAccounting(name) then {name} else {});
  }

  method CollectOne(m: Counters, ghost done: set<string>, name: string, sums: map<CounterKey, int>, unsupported: nat)
    returns (sums': map<CounterKey, int>, unsupported': nat)
    requires name in m && name !in done && SumsUpTo(sums, m, done)
    ensures SumsUpTo(sums', m, done + {name})
    ensures unsupported' == unsupported + (if Parse(name).None? && IsAccounting(name) then 1 else 0)
  {
    CollectStep(m, done, name);
    hide Parse, ValidKey, Legacy, Canonical, Sum, Present, IsAccounting;
    sums', unsupported' := sums, unsupported;
    var key := Parse(name);
    if key.None? {
      if IsAccounting(name) {
        unsupported' := unsupported' + 1;
      }
      return;
    }
    var value := m[name];
    if value.Malformed? {
      return;
    }
    if key.value !in sums' {
      sums' := sums'[key.value := 0];
      AbsentSumIsZero(m, done, key.value);
    }
    sums' := sums'[key.value := sums'[key.value] + value.value];
  }

  lemma AbsentSumIsZero(m: Counters, names: set<string>, key: CounterKey)
    ensures !Present(m, names, key) ==> Sum(m, names, key) == 0
  {
  }

  // ---- Third pass: rows ----

  function DeltaOf(current: map<CounterKey, int>, previous: map<CounterKey, int>, keys: set<CounterKey>,
                   key: CounterKey): int {
    if key in keys && key in current
    then NonNegative(current[key] - (if key in previous then previous[key] else 0))
    else 0
  }

  predicate HasRow(keys: set<CounterKey>, kind: string, name: string) {
    CounterKey(kind, name, "downlink") in keys || CounterKey(kind, name, "uplink") in keys
  }

  function RowOf(current: map<CounterKey, int>, previous: map<CounterKey, int>, keys: set<CounterKey>,
                 kind: string, name: string): Traffic {
    Traffic(name,
            DeltaOf(current, previous, keys, CounterKey(kind, name, "downlink")),
            DeltaOf(current, previous, keys, CounterKey(kind, name, "uplink")))
  }

  ghost predicate RowsUpTo(rows: map<string, Traffic>, current: map<CounterKey, int>, previous: map<CounterKey, int>,
                           keys: set<CounterKey>) {
    && (forall kind, name :: IsKind(kind) ==>
          (RowKey(kind, name) in rows <==> HasRow(keys, kind, name)))
    && (forall kind, name :: IsKind(kind) && RowKey(kind, name) in rows ==>
          rows[RowKey(kind, name)] == RowOf(current, previous, keys, kind, name))
    && (forall r :: r in rows ==> exists key :: key in keys && r == RowKey(key.kind, key.name))
  }

  method Rows(current: map<CounterKey, int>, previous: map<CounterKey, int>) returns (rows: map<string, Traffic>)
    requires forall key :: key in current ==> IsKind(key.kind) && IsDirection(key.direction)
    ensures RowsUpTo(rows, current, previous, current.Keys)
  {
    rows := map[];
    var rest := current.Keys;
    ghost var done: set<CounterKey> := {};
    while rest != {}
      invariant done !! rest && done + rest == current.Keys
      invariant RowsUpTo(rows, current, previous, done)
      decreases |rest|
    {
      var key :| key in rest;
      rows := AddToRow(current, previous, done, key, rows);
      rest := rest - {key};
      done := done + {key};
    }
    assert done == current.Keys;
  }

  method AddToRow(current: map<CounterKey, int>, previous: map<CounterKey, int>, ghost done: set<CounterKey>,
                  key: CounterKey, rows: map<string, Traffic>)
    returns (rows': map<string, Traffic>)
    requires key in current && key !in done && IsKind(key.kind) && IsDirection(key.direction)
    requires RowsUpTo(rows, current, previous, done)
    ensures RowsUpTo(rows', current, previous, done + {key})
  {
    hide RowKey, IsKind;
    var before := if key in previous then previous[key] else 0;
    var delta := current[key] - before;
    if delta < 0 {
      delta := 0;
    }
    var rowKey := RowKey(key.kind, key.name);
    rows' := rows;
    if rowKey !in rows' {
      rows' := rows'[rowKey := Traffic(key.name, 0, 0)];
    }
    var row := rows'[rowKey];
    assert row == RowOf(current, previous, done, key.kind, key.name);
    if key.direction == "downlink" {
      rows' := rows'[rowKey := row.(downlink := row.downlink + delta)];
    } else {
      rows' := rows'[rowKey := row.(uplink := row.uplink + delta)];
    }
    assert rows' == rows[rowKey := RowOf(current, previous, done + {key}, key.kind, key.name)];
    RowsExtend(current, previous, done, key, rows);
  }

  lemma RowsExtend(current: map<CounterKey, int>, previous: map<CounterKey, int>, done: set<CounterKey>,
                   key: CounterKey, rows: map<string, Traffic>)
    requires key in current && key !in done && IsKind(key.kind) && IsDirection(key.direction)
    requires RowsUpTo(rows, current, previous, done)
    ensures RowsUpTo(rows[RowKey(key.kind, key.name) := RowOf(current, previous, done + {key}, key.kind, key.name)],
                     current, previous, done + {key})
  {
    var rowKey, all := RowKey(key.kind, key.name), done + {key};
    var rows' := rows[rowKey := RowOf(current, previous, all, key.kind, key.name)];
    forall kind, name | IsKind(kind)
      ensures RowKey(kind, name) in rows' <==> HasRow(all, kind, name)
      ensures RowKey(kind, name) in rows' ==> rows'[RowKey(kind, name)] == RowOf(current, previous, all, kind, name)
    {
      if RowKey(kind, name) == rowKey {
        RowKeyInjective(kind, name, key.kind, key.name);
      } else {
        RowUnchanged(current, previous, done, key, kind, name);
      }
    }
    hide RowKey;
    forall r | r in rows' ensures exists k :: k in all && r == RowKey(k.kind, k.name) {
      if r == rowKey {
        assert key in all;
      } else {
        var k :| k in done && r == RowKey(k.kind, k.name);
        assert k in all;
      }
    }
  }

  lemma RowUnchanged(current: map<CounterKey, int>, previous: map<CounterKey, int>, done: set<CounterKey>,
                     key: CounterKey, kind: string, name: string)
    requires kind != key.kind || name != key.name
    ensures HasRow(done + {key}, kind, name) <==> HasRow(done, kind, name)
    ensures RowOf(current, previous, done + {key}, kind, name) == RowOf(current, previous, done, kind, name)
  {
  }

  // ---- Sorting ----

  /** Lexicographic order, as `sort.Strings` uses it. */
  predicate Less(a: string, b: string) {
    b != "" && (a == "" || a[0] < b[0] || (a[0] == b[0] && Less(a[1..], b[1..])))
  }

  /** `a` is a proper beginning of `b`, or smaller where they first differ. */
  lemma {:induction false} LessIff(a: string, b: string)
    ensures Less(a, b) <==>
            exists n :: 0 <= n <= |a| && n < |b| && a[..n] == b[..n] && (n == |a| || a[n] < b[n])
  {
    if a == "" || b == "" || a[0] != b[0] {
      assert a[..0] == b[..0];
    } else {
      LessIff(a[1..], b[1..]);
      if Less(a, b) {
        var n :| 0 <= n <= |a[1..]| && n < |b[1..]| && a[1..][..n] == b[1..][..n]
                 && (n == |a[1..]| || a[1..][n] < b[1..][n]);
        assert a[..n + 1] == [a[0]] + a[1..][..n] && b[..n + 1] == [b[0]] + b[1..][..n];
      }
      if n :| 0 <= n <= |a| && n < |b| && a[..n] == b[..n] && (n == |a| || a[n] < b[n]) {
        assert n > 0;
        assert a[1..][..n - 1] == a[..n][1..] == b[..n][1..] == b[1..][..n - 1];
        assert n - 1 == |a[1..]| || a[1..][n - 1] < b[1..][n - 1];
      }
    }
  }

  lemma {:induction false} LessTransitive(a: string, b: string, c: string)
    requires Less(a, b) && Less(b, c)
    ensures Less(a, c)
  {
    if a != "" && a[0] == b[0] == c[0] {
      LessTransitive(a[1..], b[1..], c[1..]);
    }
  }

  lemma {:induction false} LessTotal(a: string, b: string)
    ensures a == b || Less(a, b) || Less(b, a)
  {
    if a != "" && b != "" && a[0] == b[0] {
      LessTotal(a[1..], b[1..]);
      assert a == [a[0]] + a[1..] && b == [b[0]] + b[1..];
    }
  }

  lemma {:induction false} LessIrreflexive(a: string)
    ensures !Less(a, a)
  {
    if a != "" {
      LessIrreflexive(a[1..]);
    }
  }

  lemma {:induction false} LessUnderPrefix(p: string, a: string, b: string)
    ensures Less(p + a, p + b) <==> Less(a, b)
  {
    if p == "" {
      assert p + a == a && p + b == b;
    } else {
      assert (p + a)[1..] == p[1..] + a && (p + b)[1..] == p[1..] + b;
      LessUnderPrefix(p[1..], a, b);
    }
  }

  predicate Sorted(s: seq<string>) {
    forall i, j :: 0 <= i < j < |s| ==> Less(s[i], s[j])
  }

  function Insert(s: seq<string>, x: string): seq<string> {
    if s == [] then [x]
    else if Less(s[|s| - 1], x) then s + [x]
    else Insert(s[..|s| - 1], x) + [s[|s| - 1]]
  }

  lemma {:induction false} InsertKeepsSorted(s: seq<string>, x: string)
    requires Sorted(s) && x !in s
    ensures Sorted(Insert(s, x))
    ensures forall y :: y in Insert(s, x) <==> y == x || y in s
  {
    hide Less;
    if s != [] {
      var last := s[|s| - 1];
      var init := s[..|s| - 1];
      assert s == init + [last];
      LessTotal(last, x);
      if Less(last, x) {
        forall i | 0 <= i < |s| ensures Less(s[i], x) {
          if i < |s| - 1 {
            LessTransitive(s[i], last, x);
          }
        }
      } else {
        InsertKeepsSorted(init, x);
        forall i | 0 <= i < |Insert(init, x)| ensures Less(Insert(init, x)[i], last) {
          assert Insert(init, x)[i] in Insert(init, x);
        }
      }
    }
  }

  method SortStrings(keys: set<string>) returns (s: seq<string>)
    ensures Sorted(s)
    ensures forall x :: x in s <==> x in keys
  {
    s := [];
    var rest := keys;
    while rest != {}
      invariant rest <= keys && Sorted(s)
      invariant forall x :: x in s <==> x in keys && x !in rest
      decreases |rest|
    {
      var x :| x in rest;
      InsertKeepsSorted(s, x);
      s := Insert(s, x);
      rest := rest - {x};
    }
  }

  // ---- The response ----

  predicate Zero(t: Traffic) {
    t.downlink == 0 && t.uplink == 0
  }

  /** The rows of one kind, in the order of `keys`. */
  function ListOf(keys: seq<string>, rows: map<string, Traffic>, prefix: string): seq<Traffic>
    requires forall k :: k in keys ==> k in rows
  {
    if keys == [] then []
    else
      var last := keys[|keys| - 1];
      ListOf(keys[..|keys| - 1], rows, prefix)
      + (if prefix <= last && !Zero(rows[last]) then [rows[last]] else [])
  }

  lemma {:induction false} ListMembers(keys: seq<string>, rows: map<string, Traffic>, prefix: string, t: Traffic)
    requires forall k :: k in keys ==> k in rows
    ensures t in ListOf(keys, rows, prefix) <==>
            exists k :: k in keys && prefix <= k && !Zero(rows[k]) && rows[k] == t
  {
    if keys != [] {
      var init := keys[..|keys| - 1];
      assert keys == init + [keys[|keys| - 1]];
      ListMembers(init, rows, prefix, t);
    }
  }

  predicate SortedByName(list: seq<Traffic>) {
    forall i, j :: 0 <= i < j < |list| ==> Less(list[i].name, list[j].name)
  }

  /** Every row key with this prefix is the prefix followed by its row's name. */
  predicate NamedAfterKey(rows: map<string, Traffic>, prefix: string) {
    forall k :: k in rows && prefix <= k ==> k == prefix + rows[k].name
  }

  lemma {:induction false} ListIsSorted(keys: seq<string>, rows: map<string, Traffic>, prefix: string)
    requires Sorted(keys) && NamedAfterKey(rows, prefix)
    requires forall k :: k in keys ==> k in rows
    ensures SortedByName(ListOf(keys, rows, prefix))
  {
    hide Less;
    if keys != [] {
      var last, init := keys[|keys| - 1], keys[..|keys| - 1];
      ListIsSorted(init, rows, prefix);
      var list := ListOf(init, rows, prefix);
      forall i | 0 <= i < |list| && prefix <= last ensures Less(list[i].name, rows[last].name) {
        ListMembers(init, rows, prefix, list[i]);
        var k :| k in init && prefix <= k && rows[k] == list[i];
        var j :| 0 <= j < |init| && init[j] == k;
        assert Less(keys[j], last);
        LessUnderPrefix(prefix, list[i].name, rows[last].name);
      }
    }
  }

  /** The response shows exactly the rows of the sample, one per name, sorted by name. */
  ghost predicate Renders(r: Response, p: Pending, extra: seq<Diagnostic>) {
    && r.generation == p.generation && r.sampleId == p.sampleId
    && (var unsupported := |UnsupportedNames(p.to.Keys)|;
        r.diagnostics == p.diagnostics + extra
          + (if unsupported > 0 then [Diagnostic("ACCOUNTING_COUNTER_FORMAT_UNSUPPORTED", unsupported)] else []))
    && (forall t :: t in r.users <==> IsRow(p, "user", t))
    && (forall t :: t in r.inbounds <==> IsRow(p, "inbound", t))
    && (forall t :: t in r.outbounds <==> IsRow(p, "outbound", t))
    && SortedByName(r.users) && SortedByName(r.inbounds) && SortedByName(r.outbounds)
  }

  /** These conditions leave no choice: two renderings of one sample are equal. */
  lemma RenderingIsUnique(r: Response, r': Response, p: Pending, extra: seq<Diagnostic>)
    requires Renders(r, p, extra) && Renders(r', p, extra)
    ensures r == r'
  {
    hide IsRow, Less;
    SortedListsAgree(r.users, r'.users);
    SortedListsAgree(r.inbounds, r'.inbounds);
    SortedListsAgree(r.outbounds, r'.outbounds);
  }

  lemma {:induction false} SortedListsAgree(a: seq<Traffic>, b: seq<Traffic>)
    requires SortedByName(a) && SortedByName(b)
    requires forall t :: t in a <==> t in b
    ensures a == b
  {
    hide Less;
    assert |a| > 0 ==> a[0] in a;
    assert |b| > 0 ==> b[0] in b;
    if a != [] && b != [] {
      var x, y := a[|a| - 1], b[|b| - 1];
      LastIsGreatest(a, y);
      LastIsGreatest(b, x);
      LessIrreflexive(x.name);
      if Less(x.name, y.name) && Less(y.name, x.name) {
        LessTransitive(x.name, y.name, x.name);
      }
      assert x == y;
      NotInInit(a);
      NotInInit(b);
      var a', b' := a[..|a| - 1], b[..|b| - 1];
      assert a == a' + [x] && b == b' + [x];
      forall t ensures t in a' <==> t in b' {
        assert t in a <==> t in a' || t == x;
        assert t in b <==> t in b' || t == x;
      }
      SortedListsAgree(a', b');
    }
  }

  lemma LastIsGreatest(a: seq<Traffic>, t: Traffic)
    requires SortedByName(a) && t in a
    ensures t == a[|a| - 1] || Less(t.name, a[|a| - 1].name)
  {
  }

  lemma NotInInit(a: seq<Traffic>)
    requires SortedByName(a) && a != []
    ensures a[|a| - 1] !in a[..|a| - 1]
  {
    hide Less;
    LessIrreflexive(a[|a| - 1].name);
  }

  /** A counter spelt in both ways at once counts as the sum of the two. */
  lemma SpellingsAdd(kind: string, name: string, direction: string, a: int, b: int)
    requires kind in {"user", "inbound", "outbound"} && direction in {"downlink", "uplink"}
    requires name != "" && Clean(name)
    ensures var legacy := kind + ">>>" + name + ">>>" + direction;
            var canonical := kind + ">>>" + name + ">>>" + "traffic" + ">>>" + direction;
            Total(map[legacy := Num(a), canonical := Num(b)], CounterKey(kind, name, direction)) == a + b
  {
    SpelledNamesParse(kind, name, direction);
    SpellingsAreDistinct(CounterKey(kind, name, direction), CounterKey(kind, name, direction));
  }

  // ---- The rows, in letters ----

  /** What a name stands for in a snapshot: nothing unless it is there with a number. */
  function ValueAt(m: Counters, name: string): int {
    if name in m && m[name].Num? then m[name].value else 0
  }

  predicate IsNumberAt(m: Counters, name: string) {
    name in m && m[name].Num?
  }

  /** By how much a counter has grown over both its spellings, if one of them is still there; never less than 0. */
  function Grown(p: Pending, kind: string, name: string, direction: string): int {
    var legacy := kind + ">>>" + name + ">>>" + direction;
    var canonical := kind + ">>>" + name + ">>>" + "traffic" + ">>>" + direction;
    var grown :=
      ValueAt(p.to, legacy) + ValueAt(p.to, canonical) - (ValueAt(p.from, legacy) + ValueAt(p.from, canonical));
    if (IsNumberAt(p.to, legacy) || IsNumberAt(p.to, canonical)) && 0 < grown then grown else 0
  }

  /**
    A row stands in the list of its kind exactly when its name is a clean one, its two
    numbers are what the two counters of that name have grown by, and one of them has.
   */
  lemma RowsInLetters(p: Pending, r: Response, extra: seq<Diagnostic>, kind: string, t: Traffic)
    requires Renders(r, p, extra) && kind in {"user", "inbound", "outbound"}
    ensures t in (if kind == "user" then r.users else if kind == "inbound" then r.inbounds else r.outbounds) <==>
            && t.name != "" && Clean(t.name)
            && t.downlink == Grown(p, kind, t.name, "downlink") && t.uplink == Grown(p, kind, t.name, "uplink")
            && (t.downlink > 0 || t.uplink > 0)
  {
    ListsOf(r, p, extra);
    assert t in (if kind == "user" then r.users else if kind == "inbound" then r.inbounds else r.outbounds) <==>
           IsRow(p, kind, t);
    hide Renders, Clean, Grown;
    if t.name != "" && Clean(t.name) {
      DeltaIsGrown(p, kind, t.name, "downlink");
      DeltaIsGrown(p, kind, t.name, "uplink");
    } else {
      UncleanDelta(p, kind, t.name, "downlink");
      UncleanDelta(p, kind, t.name, "uplink");
    }
    hide Delta;
  }

  lemma DeltaIsGrown(p: Pending, kind: string, name: string, direction: string)
    requires kind in {"user", "inbound", "outbound"} && direction in {"downlink", "uplink"}
    requires name != "" && Clean(name)
    ensures Delta(p.from, p.to, CounterKey(kind, name, direction)) == Grown(p, kind, name, direction)
  {
    var key := CounterKey(kind, name, direction);
    assert Legacy(key) == kind + ">>>" + name + ">>>" + direction;
    assert Canonical(key) == kind + ">>>" + name + ">>>" + "traffic" + ">>>" + direction;
    hide Legacy, Canonical, Clean;
  }

  lemma UncleanDelta(p: Pending, kind: string, name: string, direction: string)
    requires name == "" || !Clean(name)
    ensures Delta(p.from, p.to, CounterKey(kind, name, direction)) == 0
  {
  }

  // ---- Samples of one counter ----

  function TrafficOf(name: string, direction: string, n: int): Traffic {
    Traffic(name, if direction == "downlink" then n else 0, if direction == "uplink" then n else 0)
  }

  /**
    A sample whose one counter has grown by `n` has exactly one row, under the counter's
    kind and name, with `n` in its direction and 0 in the other; a counter that has not
    grown has none.
   */
  lemma OneCounterOneRow(p: Pending, r: Response, extra: seq<Diagnostic>, kind: string, name: string,
                         direction: string, raw: string, seen: int, n: int)
    requires kind in {"user", "inbound", "outbound"} && direction in {"downlink", "uplink"}
    requires name != "" && Clean(name)
    requires || raw == kind + ">>>" + name + ">>>" + direction
             || raw == kind + ">>>" + name + ">>>" + "traffic" + ">>>" + direction
    requires p.from == map[raw := Num(seen)] && p.to == map[raw := Num(seen + n)] && Renders(r, p, extra)
    ensures r.users == (if kind == "user" && n > 0 then [TrafficOf(name, direction, n)] else [])
    ensures r.inbounds == (if kind == "inbound" && n > 0 then [TrafficOf(name, direction, n)] else [])
    ensures r.outbounds == (if kind == "outbound" && n > 0 then [TrafficOf(name, direction, n)] else [])
    ensures r.diagnostics == p.diagnostics + extra
  {
    SpelledNamesParse(kind, name, direction);
    NoneUnsupported(p, raw);
    var key, t := CounterKey(kind, name, direction), TrafficOf(name, direction, n);
    ListsOf(r, p, extra);
    assert p.from == map[raw := Num(seen)] && p.to == map[raw := Num(seen + n)] && Parse(raw) == Some(key);
    forall x ensures IsRow(p, "user", x) <==> kind == "user" && n > 0 && x == t {
      OnlyThisRow(p, key, raw, seen, n, "user", x);
    }
    forall x ensures IsRow(p, "inbound", x) <==> kind == "inbound" && n > 0 && x == t {
      OnlyThisRow(p, key, raw, seen, n, "inbound", x);
    }
    forall x ensures IsRow(p, "outbound", x) <==> kind == "outbound" && n > 0 && x == t {
      OnlyThisRow(p, key, raw, seen, n, "outbound", x);
    }
    hide *;
    OneOrNone(r.users, kind == "user" && n > 0, t);
    OneOrNone(r.inbounds, kind == "inbound" && n > 0, t);
    OneOrNone(r.outbounds, kind == "outbound" && n > 0, t);
  }

  lemma ListsOf(r: Response, p: Pending, extra: seq<Diagnostic>)
    requires Renders(r, p, extra)
    ensures forall t :: t in r.users <==> IsRow(p, "user", t)
    ensures forall t :: t in r.inbounds <==> IsRow(p, "inbound", t)
    ensures forall t :: t in r.outbounds <==> IsRow(p, "outbound", t)
    ensures SortedByName(r.users) && SortedByName(r.inbounds) && SortedByName(r.outbounds)
    ensures UnsupportedNames(p.to.Keys) == {} ==> r.diagnostics == p.diagnostics + extra
    ensures |UnsupportedNames(p.to.Keys)| == 1 ==>
              r.diagnostics == p.diagnostics + extra + [Diagnostic("ACCOUNTING_COUNTER_FORMAT_UNSUPPORTED", 1)]
  {
    hide IsRow, SortedByName, UnsupportedNames;
  }

  lemma NoneUnsupported(p: Pending, raw: string)
    requires p.to.Keys == {raw} && Parse(raw).Some?
    ensures UnsupportedNames(p.to.Keys) == {}
  {
    hide Parse, IsAccounting;
  }

  lemma OnlyThisRow(p: Pending, key: CounterKey, raw: string, seen: int, n: int, kind: string, t: Traffic)
    requires Parse(raw) == Some(key) && p.from == map[raw := Num(seen)] && p.to == map[raw := Num(seen + n)]
    requires key.direction in {"downlink", "uplink"}
    ensures IsRow(p, kind, t) <==> kind == key.kind && n > 0 && t == TrafficOf(key.name, key.direction, n)
  {
    OnlyThisKey(p, key, raw, seen, n, CounterKey(kind, t.name, "downlink"));
    OnlyThisKey(p, key, raw, seen, n, CounterKey(kind, t.name, "uplink"));
    hide Delta, Parse;
  }

  lemma OnlyThisKey(p: Pending, key: CounterKey, raw: string, seen: int, n: int, other: CounterKey)
    requires Parse(raw) == Some(key) && p.from == map[raw := Num(seen)] && p.to == map[raw := Num(seen + n)]
    ensures Delta(p.from, p.to, other) == if other == key && n > 0 then n else 0
  {
    ParseExact(raw, key);
    ParseExact(raw, other);
    hide Parse, Legacy, Canonical, ValidKey;
    if ValidKey(other) {
      SpellingsAreDistinct(other, other);
    }
  }

  lemma OneOrNone(list: seq<Traffic>, some: bool, t: Traffic)
    requires SortedByName(list) && forall x :: x in list <==> some && x == t
    ensures list == if some then [t] else []
  {
    if some {
      SortedListsAgree(list, [t]);
    } else {
      SomeOrNone(list);
    }
  }

  /** A counter that does not parse makes no row, and is counted as unsupported if it is of one of the three kinds. */
  lemma UnsupportedIsCounted(p: Pending, r: Response, extra: seq<Diagnostic>, raw: string, value: Decimal)
    requires p.to == map[raw := value] && p.to.Keys == {raw} && Parse(raw).None? && Renders(r, p, extra)
    ensures r.users == [] && r.inbounds == [] && r.outbounds == []
    ensures r.diagnostics == p.diagnostics + extra
              + (if || raw in {"user", "inbound", "outbound"}
                    || StartsWith(raw, "user>>>") || StartsWith(raw, "inbound>>>") || StartsWith(raw, "outbound>>>")
                 then [Diagnostic("ACCOUNTING_COUNTER_FORMAT_UNSUPPORTED", 1)] else [])
  {
    AccountingNamesAre(raw);
    ListsOf(r, p, extra);
    UnsupportedIs(p, raw);
    forall t ensures !IsRow(p, "user", t) && !IsRow(p, "inbound", t) && !IsRow(p, "outbound", t) {
      hide IsRow;
      NoRowOf(p, raw, value, "user", t);
      NoRowOf(p, raw, value, "inbound", t);
      NoRowOf(p, raw, value, "outbound", t);
    }
    hide IsRow, SortedByName, UnsupportedNames, IsAccounting, Parse, Renders, StartsWith;
    SomeOrNone(r.users);
    SomeOrNone(r.inbounds);
    SomeOrNone(r.outbounds);
  }

  lemma UnsupportedIs(p: Pending, raw: string)
    requires p.to.Keys == {raw} && Parse(raw).None?
    ensures UnsupportedNames(p.to.Keys) == if IsAccounting(raw) then {raw} else {}
  {
    hide Parse, IsAccounting;
  }

  lemma NoRowOf(p: Pending, raw: string, value: Decimal, kind: string, t: Traffic)
    requires p.to == map[raw := value] && Parse(raw).None?
    ensures !IsRow(p, kind, t)
  {
    ParseExact(raw, CounterKey(kind, t.name, "downlink"));
    ParseExact(raw, CounterKey(kind, t.name, "uplink"));
    hide Parse, Legacy, Canonical, ValidKey;
  }

  /** A counter that shows less than before counts as no traffic, never as negative traffic. */
  lemma ShrunkIsNothing(from: Counters, to: Counters, key: CounterKey)
    requires Total(to, key) <= Total(from, key)
    ensures Delta(from, to, key) == 0
  {
  }

  // ---- A change of spelling ----

  /** A counter's other spelling, for the counters that moved. */
  function Respell(name: string, moved: set<CounterKey>): string {
    var key := Parse(name);
    if key.None? || key.value !in moved then name
    else if name == Legacy(key.value) then Canonical(key.value)
    else Legacy(key.value)
  }

  /** `to` holds what `from` holds, but the counters in `moved` have changed their spelling, either way. */
  ghost predicate Respelled(from: Counters, to: Counters, moved: set<CounterKey>) {
    && (forall name :: name in to <==> Respell(name, moved) in from)
    && (forall name :: name in to ==> to[name] == from[Respell(name, moved)])
  }

  lemma RespelledTotal(from: Counters, to: Counters, moved: set<CounterKey>, key: CounterKey)
    requires Respelled(from, to, moved) && ValidKey(key)
    ensures Total(to, key) == Total(from, key)
  {
    ParseExact(Legacy(key), key);
    ParseExact(Canonical(key), key);
    SpellingsAreDistinct(key, key);
    hide Parse, ValidKey, Legacy, Canonical;
    assert Legacy(key) in to <==> Respell(Legacy(key), moved) in from;
    assert Canonical(key) in to <==> Respell(Canonical(key), moved) in from;
  }

  /** A sample between two snapshots that differ only in how counters are spelt shows no traffic at all. */
  lemma RespellingIsFree(p: Pending, moved: set<CounterKey>, r: Response, extra: seq<Diagnostic>)
    requires Respelled(p.from, p.to, moved) && Renders(r, p, extra)
    ensures r.users == [] && r.inbounds == [] && r.outbounds == []
  {
    forall t ensures !IsRow(p, "user", t) && !IsRow(p, "inbound", t) && !IsRow(p, "outbound", t) {
      NoRow(p, moved, "user", t);
      NoRow(p, moved, "inbound", t);
      NoRow(p, moved, "outbound", t);
    }
    hide IsRow, Respelled, SortedByName, UnsupportedNames;
    SomeOrNone(r.users);
    SomeOrNone(r.inbounds);
    SomeOrNone(r.outbounds);
  }

  lemma SomeOrNone(list: seq<Traffic>)
    ensures list == [] || exists t :: t in list
  {
    if list != [] {
      assert list[0] in list;
    }
  }

  lemma NoRow(p: Pending, moved: set<CounterKey>, kind: string, t: Traffic)
    requires Respelled(p.from, p.to, moved)
    ensures !IsRow(p, kind, t)
  {
    NoTraffic(p, moved, CounterKey(kind, t.name, "downlink"));
    NoTraffic(p, moved, CounterKey(kind, t.name, "uplink"));
    hide Delta, Respelled;
  }

  lemma NoTraffic(p: Pending, moved: set<CounterKey>, key: CounterKey)
    requires Respelled(p.from, p.to, moved)
    ensures Delta(p.from, p.to, key) == 0
  {
    if ValidKey(key) {
      RespelledTotal(p.from, p.to, moved, key);
    }
  }

  /** `accountingResponse`. */
  method AccountingResponse(p: Pending, extra: seq<Diagnostic>) returns (r: Response)
    ensures Renders(r, p, extra)
  {
    hide ValidKey, SumsUpTo, RowsUpTo, Sorted, ListOf, IsRow, SortedByName, UnsupportedNames;
    var current, unsupported := Collect(p.to);
    var previous, _ := Collect(p.from);
    SummedKeysHaveKinds(current, p.to);
    var rows := Rows(current, previous);
    var keys := SortStrings(rows.Keys);
    var diagnostics := p.diagnostics + extra;
    if unsupported > 0 {
      diagnostics := diagnostics + [Diagnostic("ACCOUNTING_COUNTER_FORMAT_UNSUPPORTED", unsupported)];
    }
    var users, inbounds, outbounds := Lists(keys, rows);
    assert "user" + SEP == "user>>>" && "inbound" + SEP == "inbound>>>" && "outbound" + SEP == "outbound>>>";
    ListIsExact(p, current, previous, rows, keys, "user");
    ListIsExact(p, current, previous, rows, keys, "inbound");
    ListIsExact(p, current, previous, rows, keys, "outbound");
    r := Response(diagnostics, p.generation, p.sampleId, users, inbounds, outbounds);
  }

  lemma SummedKeysHaveKinds(sums: map<CounterKey, int>, m: Counters)
    requires SumsUpTo(sums, m, m.Keys)
    ensures forall key :: key in sums ==> IsKind(key.kind) && IsDirection(key.direction)
  {
  }

  method Lists(keys: seq<string>, rows: map<string, Traffic>)
    returns (users: seq<Traffic>, inbounds: seq<Traffic>, outbounds: seq<Traffic>)
    requires forall k :: k in keys ==> k in rows
    ensures users == ListOf(keys, rows, "user>>>")
    ensures inbounds == ListOf(keys, rows, "inbound>>>")
    ensures outbounds == ListOf(keys, rows, "outbound>>>")
  {
    users, inbounds, outbounds := [], [], [];
    for i := 0 to |keys|
      invariant users == ListOf(keys[..i], rows, "user>>>")
      invariant inbounds == ListOf(keys[..i], rows, "inbound>>>")
      invariant outbounds == ListOf(keys[..i], rows, "outbound>>>")
    {
      var key := keys[i];
      var row := rows[key];
      assert keys[..i + 1][..i] == keys[..i];
      assert "user>>>" <= key ==> key[0] == "user>>>"[0];
      assert "inbound>>>" <= key ==> key[0] == "inbound>>>"[0];
      assert "outbound>>>" <= key ==> key[0] == "outbound>>>"[0];
      if row.downlink == 0 && row.uplink == 0 {
        continue;
      }
      if "user>>>" <= key {
        users := users + [row];
      } else if "inbound>>>" <= key {
        inbounds := inbounds + [row];
      } else if "outbound>>>" <= key {
        outbounds := outbounds + [row];
      }
    }
    assert keys[..|keys|] == keys;
  }

  lemma ListIsExact(p: Pending, current: map<CounterKey, int>, previous: map<CounterKey, int>,
                    rows: map<string, Traffic>, keys: seq<string>, kind: string)
    requires SumsUpTo(current, p.to, p.to.Keys) && SumsUpTo(previous, p.from, p.from.Keys)
    requires RowsUpTo(rows, current, previous, current.Keys)
    requires Sorted(keys) && (forall k :: k in keys <==> k in rows)
    requires IsKind(kind)
    ensures forall t :: t in ListOf(keys, rows, kind + SEP) <==> IsRow(p, kind, t)
    ensures SortedByName(ListOf(keys, rows, kind + SEP))
  {
    RowsAreNamed(rows, current, previous, kind);
    ListIsSorted(keys, rows, kind + SEP);
    forall t ensures t in ListOf(keys, rows, kind + SEP) <==> IsRow(p, kind, t) {
      RowIsExact(p, current, previous, rows, keys, kind, t);
    }
    hide SumsUpTo, RowsUpTo, IsRow, SortedByName, NamedAfterKey, Sorted, ListOf;
  }

  lemma RowIsExact(p: Pending, current: map<CounterKey, int>, previous: map<CounterKey, int>,
                   rows: map<string, Traffic>, keys: seq<string>, kind: string, t: Traffic)
    requires SumsUpTo(current, p.to, p.to.Keys) && SumsUpTo(previous, p.from, p.from.Keys)
    requires RowsUpTo(rows, current, previous, current.Keys) && NamedAfterKey(rows, kind + SEP)
    requires Sorted(keys) && (forall k :: k in keys <==> k in rows)
    requires IsKind(kind)
    ensures t in ListOf(keys, rows, kind + SEP) <==> IsRow(p, kind, t)
  {
    ListMembers(keys, rows, kind + SEP, t);
    RowMeaning(p, current, previous, kind, t.name);
    var k := RowKey(kind, t.name);
    assert k == kind + SEP + t.name && kind + SEP <= k;
    hide SumsUpTo, IsKind, DeltaOf, ListOf, Sorted;
  }

  lemma RowMeaning(p: Pending, current: map<CounterKey, int>, previous: map<CounterKey, int>, kind: string,
                   name: string)
    requires SumsUpTo(current, p.to, p.to.Keys) && SumsUpTo(previous, p.from, p.from.Keys)
    ensures var row := RowOf(current, previous, current.Keys, kind, name);
            && row.downlink == Delta(p.from, p.to, CounterKey(kind, name, "downlink"))
            && row.uplink == Delta(p.from, p.to, CounterKey(kind, name, "uplink"))
            && (!HasRow(current.Keys, kind, name) ==> Zero(row))
  {
    hide ValidKey, Legacy, Canonical;
    AbsentSumIsZero(p.from, p.from.Keys, CounterKey(kind, name, "downlink"));
    AbsentSumIsZero(p.from, p.from.Keys, CounterKey(kind, name, "uplink"));
  }

  lemma RowsAreNamed(rows: map<string, Traffic>, current: map<CounterKey, int>, previous: map<CounterKey, int>,
                     kind: string)
    requires RowsUpTo(rows, current, previous, current.Keys) && IsKind(kind)
    requires forall key :: key in current ==> IsKind(key.kind)
    ensures NamedAfterKey(rows, kind + SEP)
  {
    forall k | k in rows && kind + SEP <= k ensures k == kind + SEP + rows[k].name {
      RowIsNamed(rows, current, previous, kind, k);
    }
    hide RowsUpTo;
  }

  lemma RowIsNamed(rows: map<string, Traffic>, current: map<CounterKey, int>, previous: map<CounterKey, int>,
                   kind: string, k: string)
    requires RowsUpTo(rows, current, previous, current.Keys) && IsKind(kind)
    requires k in rows && kind + SEP <= k
    ensures k == kind + SEP + rows[k].name
  {
    hide IsKind, HasRow, DeltaOf;
    var name := k[|kind + SEP|..];
    assert k == RowKey(kind, name);
    assert rows[RowKey(kind, name)] == RowOf(current, previous, current.Keys, kind, name);
  }
}
