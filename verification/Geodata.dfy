/**
  Geodata downloads: assets are grouped by the file they are for, and a few workers take
  whole groups, so that the sources of one file are tried one after another, in their
  configured order, while different files proceed side by side.
 */
module Geodata {
  import opened Wrappers

  datatype Asset = Asset(url: string, file: string)

  type Group = seq<Asset>

  const CONCURRENCY := 5

  // ---- Grouping ----

  /** The assets for one file, in order. */
  function OfFile(assets: seq<Asset>, file: string): Group {
    if assets == [] then []
    else
      var last := assets[|assets| - 1];
      var front := OfFile(assets[..|assets| - 1], file);
      if last.file == file then front + [last] else front
  }

  /** Groups of one file each, a different file for each group. */
  predicate WellGrouped(groups: seq<Group>) {
    && (forall g :: 0 <= g < |groups| ==> groups[g] != [])
    && (forall g, i :: 0 <= g < |groups| && 0 <= i < |groups[g]| ==> groups[g][i].file == FileOf(groups, g))
    && (forall g, h :: 0 <= g < h < |groups| ==> FileOf(groups, g) != FileOf(groups, h))
  }

  function FileOf(groups: seq<Group>, g: nat): string
    requires g < |groups|
  {
    if groups[g] == [] then "" else groups[g][0].file
  }

  /** Every group is all the assets for its file, and every asset's file has a group. */
  ghost predicate Groups(groups: seq<Group>, assets: seq<Asset>) {
    && WellGrouped(groups)
    && (forall g :: 0 <= g < |groups| ==> groups[g] == OfFile(assets, FileOf(groups, g)))
    && (forall i :: 0 <= i < |assets| ==> exists g :: 0 <= g < |groups| && FileOf(groups, g) == assets[i].file)
  }

  lemma {:induction false} OfFileNext(assets: seq<Asset>, a: Asset, file: string)
    ensures OfFile(assets + [a], file) == if a.file == file then OfFile(assets, file) + [a] else OfFile(assets, file)
  {
    assert (assets + [a])[..|assets|] == assets;
  }

  lemma {:induction false} OfFileAbsent(assets: seq<Asset>, file: string)
    requires forall i :: 0 <= i < |assets| ==> assets[i].file != file
    ensures OfFile(assets, file) == []
  {
    if assets != [] {
      OfFileAbsent(assets[..|assets| - 1], file);
    }
  }

  /** What one round of the grouping loop knows. */
  ghost predicate Indexed(groups: seq<Group>, indexByFile: map<string, nat>) {
    && (forall f :: f in indexByFile ==> indexByFile[f] < |groups| && FileOf(groups, indexByFile[f]) == f)
    && (forall g :: 0 <= g < |groups| ==> FileOf(groups, g) in indexByFile && indexByFile[FileOf(groups, g)] == g)
  }

  lemma GroupMore(groups: seq<Group>, assets: seq<Asset>, a: Asset, g: nat)
    requires Groups(groups, assets) && g < |groups| && FileOf(groups, g) == a.file
    ensures Groups(groups[g := groups[g] + [a]], assets + [a])
    ensures forall h :: 0 <= h < |groups| ==> FileOf(groups[g := groups[g] + [a]], h) == FileOf(groups, h)
  {
    var groups' := groups[g := groups[g] + [a]];
    forall h | 0 <= h < |groups|
      ensures FileOf(groups', h) == FileOf(groups, h) && groups'[h] == OfFile(assets + [a], FileOf(groups', h))
    {
      OfFileNext(assets, a, FileOf(groups, h));
      if h < g { assert FileOf(groups, h) != FileOf(groups, g); }
      if g < h { assert FileOf(groups, g) != FileOf(groups, h); }
    }
    hide OfFile;
    forall i | 0 <= i < |assets + [a]|
      ensures exists h :: 0 <= h < |groups'| && FileOf(groups', h) == (assets + [a])[i].file
    {
      if i < |assets| {
        var h :| 0 <= h < |groups| && FileOf(groups, h) == assets[i].file;
        assert FileOf(groups', h) == assets[i].file;
      } else {
        assert FileOf(groups', g) == a.file;
      }
    }
  }

  lemma GroupNew(groups: seq<Group>, assets: seq<Asset>, a: Asset)
    requires Groups(groups, assets) && forall g :: 0 <= g < |groups| ==> FileOf(groups, g) != a.file
    ensures Groups(groups + [[a]], assets + [a])
    ensures forall h :: 0 <= h < |groups| ==> FileOf(groups + [[a]], h) == FileOf(groups, h)
    ensures FileOf(groups + [[a]], |groups|) == a.file
  {
    var groups' := groups + [[a]];
    forall i | 0 <= i < |assets| ensures assets[i].file != a.file {
      var g :| 0 <= g < |groups| && FileOf(groups, g) == assets[i].file;
    }
    OfFileAbsent(assets, a.file);
    OfFileNext(assets, a, a.file);
    forall h | 0 <= h < |groups|
      ensures FileOf(groups', h) == FileOf(groups, h) && groups'[h] == OfFile(assets + [a], FileOf(groups', h))
    {
      OfFileNext(assets, a, FileOf(groups, h));
    }
    GroupedNew(groups, a);
    hide OfFile, WellGrouped;
    forall i | 0 <= i < |assets + [a]|
      ensures exists h :: 0 <= h < |groups'| && FileOf(groups', h) == (assets + [a])[i].file
    {
      if i < |assets| {
        var h :| 0 <= h < |groups| && FileOf(groups, h) == assets[i].file;
        assert FileOf(groups', h) == assets[i].file;
      } else {
        assert FileOf(groups', |groups|) == a.file;
      }
    }
  }

  lemma GroupedNew(groups: seq<Group>, a: Asset)
    requires WellGrouped(groups) && forall g :: 0 <= g < |groups| ==> FileOf(groups, g) != a.file
    ensures WellGrouped(groups + [[a]])
  {
    var groups' := groups + [[a]];
    assert forall h :: 0 <= h < |groups| ==> groups'[h] == groups[h] && FileOf(groups', h) == FileOf(groups, h);
    assert FileOf(groups', |groups|) == a.file;
    hide FileOf;
  }

  lemma IndexedFinds(groups: seq<Group>, indexByFile: map<string, nat>, file: string)
    requires Indexed(groups, indexByFile)
    ensures file in indexByFile ==> indexByFile[file] < |groups| && FileOf(groups, indexByFile[file]) == file
    ensures file !in indexByFile ==> forall g :: 0 <= g < |groups| ==> FileOf(groups, g) != file
  {
  }

  lemma IndexedMore(groups: seq<Group>, groups': seq<Group>, indexByFile: map<string, nat>)
    requires Indexed(groups, indexByFile) && |groups'| == |groups|
    requires forall h :: 0 <= h < |groups| ==> FileOf(groups', h) == FileOf(groups, h)
    ensures Indexed(groups', indexByFile)
  {
    hide FileOf;
  }

  lemma IndexedNew(groups: seq<Group>, groups': seq<Group>, indexByFile: map<string, nat>, file: string)
    requires Indexed(groups, indexByFile) && |groups'| == |groups| + 1 && file !in indexByFile
    requires forall h :: 0 <= h < |groups| ==> FileOf(groups', h) == FileOf(groups, h)
    requires FileOf(groups', |groups|) == file
    ensures Indexed(groups', indexByFile[file := |groups|])
  {
    hide FileOf;
  }

  /** `groupGeodataAssets` */
  method GroupGeodataAssets(assets: seq<Asset>) returns (groups: seq<Group>)
    ensures Groups(groups, assets)
  {
    groups := [];
    var indexByFile: map<string, nat> := map[];
    for n := 0 to |assets|
      invariant Groups(groups, assets[..n]) && Indexed(groups, indexByFile)
    {
      hide Groups, FileOf, Indexed;
      var asset := assets[n];
      assert assets[..n + 1] == assets[..n] + [asset];
      IndexedFinds(groups, indexByFile, asset.file);
      if asset.file in indexByFile {
        var index := indexByFile[asset.file];
        GroupMore(groups, assets[..n], asset, index);
        IndexedMore(groups, groups[index := groups[index] + [asset]], indexByFile);
        groups := groups[index := groups[index] + [asset]];
      } else {
        GroupNew(groups, assets[..n], asset);
        IndexedNew(groups, groups + [[asset]], indexByFile, asset.file);
        indexByFile := indexByFile[asset.file := |groups|];
        groups := groups + [[asset]];
      }
    }
    assert assets[..|assets|] == assets;
  }

  // ---- What attempts do to a file ----

  datatype Content = Empty | From(url: string)

  /** Whether a download succeeded, and if not, whether an empty stub could be created. */
  datatype Outcome = Downloaded | Failed(stub: bool)

  datatype Attempt = Attempt(asset: Asset, outcome: Outcome)

  type Disk = map<string, Content>

  function At(disk: Disk, file: string): Option<Content> {
    if file in disk then Some(disk[file]) else None
  }

  /** `prepareAsset`: a file with content is left alone, and a stub never replaces anything. */
  function Prepared(before: Option<Content>, a: Attempt): Option<Content> {
    if before.Some? && before.value.From? then before
    else match a.outcome
      case Downloaded => Some(From(a.asset.url))
      case Failed(stub) => if before.None? && stub then Some(Empty) else before
  }

  function PrepareAsset(disk: Disk, a: Attempt): Disk {
    var after := Prepared(At(disk, a.asset.file), a);
    if after.None? then disk else disk[a.asset.file := after.value]
  }

  function ForFile(log: seq<Attempt>, file: string): seq<Attempt> {
    if log == [] then []
    else
      var last := log[|log| - 1];
      var front := ForFile(log[..|log| - 1], file);
      if last.asset.file == file then front + [last] else front
  }

  function Assets(log: seq<Attempt>): seq<Asset> {
    seq(|log|, i requires 0 <= i < |log| => log[i].asset)
  }

  /** A file's content after some attempts in order. */
  function AfterAll(before: Option<Content>, log: seq<Attempt>): Option<Content> {
    if log == [] then before else Prepared(AfterAll(before, log[..|log| - 1]), log[|log| - 1])
  }

  predicate NoneBefore(log: seq<Attempt>, i: nat)
    requires i < |log|
  {
    forall j :: 0 <= j < i ==> log[j].outcome.Failed?
  }

  /** The first source that answers gives a file its content, unless it had some. */
  lemma {:induction false} FirstSourceWins(before: Option<Content>, log: seq<Attempt>)
    ensures before.Some? && before.value.From? ==> AfterAll(before, log) == before
    ensures !(before.Some? && before.value.From?) ==>
              (forall i :: 0 <= i < |log| && log[i].outcome.Downloaded? && NoneBefore(log, i) ==>
                AfterAll(before, log) == Some(From(log[i].asset.url)))
    ensures !(before.Some? && before.value.From?) && (forall i :: 0 <= i < |log| ==> log[i].outcome.Failed?) ==>
              AfterAll(before, log) == before || AfterAll(before, log) == Some(Empty)
  {
    if log != [] {
      var n := |log| - 1;
      FirstSourceWins(before, log[..n]);
      forall i | 0 <= i < |log| && log[i].outcome.Downloaded? && NoneBefore(log, i)
                 && !(before.Some? && before.value.From?)
        ensures AfterAll(before, log) == Some(From(log[i].asset.url))
      {
        if i < n {
          assert log[..n][i] == log[i];
        } else {
          assert forall k :: 0 <= k < n ==> log[..n][k].outcome.Failed?;
        }
      }
    }
  }

  /** When no source answers, a file that is there stays, and one that is not is an empty stub if one could be made. */
  lemma {:induction false} NoSourceAnswers(before: Option<Content>, log: seq<Attempt>)
    requires forall i :: 0 <= i < |log| ==> log[i].outcome.Failed?
    ensures AfterAll(before, log) ==
            if before.None? && (exists i :: 0 <= i < |log| && log[i].outcome == Failed(true)) then Some(Empty)
            else before
  {
    if log != [] {
      var n := |log| - 1;
      NoSourceAnswers(before, log[..n]);
      assert forall i :: 0 <= i < n ==> log[..n][i] == log[i];
      assert log[n].outcome == Failed(true) || log[n].outcome == Failed(false);
    }
  }

  // ---- The pool ----

  datatype Worker = Idle | Busy(group: nat) | Working(group: nat) | Exited

  /**
    `next`: groups handed out so far. `closed`: the dispatcher has closed the channel.
    `progress`: how many assets of each group have been attempted.
   */
  datatype Pool = Pool(
    next: nat,
    closed: bool,
    cancelled: bool,
    workers: seq<Worker>,
    progress: seq<nat>,
    log: seq<Attempt>,
    disk: Disk)

  datatype Action =
    | Hand(w: nat)
    | Abandon
    | Close
    | Check(w: nat)
    | Attempted(w: nat, outcome: Outcome)
    | Exit(w: nat)
    | Cancel

  function WorkerCount(groups: seq<Group>): nat {
    if |groups| < CONCURRENCY then |groups| else CONCURRENCY
  }

  function Start(groups: seq<Group>, disk: Disk): Pool {
    Pool(0, false, false, seq(WorkerCount(groups), _ => Idle), seq(|groups|, _ => 0), [], disk)
  }

  /** One step of the dispatcher or of a worker, or the cancellation; None if it is not possible now. */
  function Next(groups: seq<Group>, p: Pool, a: Action): Option<Pool>
    requires |p.progress| == |groups|
  {
    match a
    case Hand(w) =>
      // The channel is unbuffered: a group goes straight to a waiting worker.
      if !p.closed && p.next < |groups| && w < |p.workers| && p.workers[w].Idle? then
        Some(p.(next := p.next + 1, workers := p.workers[w := Busy(p.next)]))
      else None
    case Abandon =>
      if !p.closed && p.next < |groups| && p.cancelled then Some(p.(closed := true)) else None
    case Close =>
      if !p.closed && p.next == |groups| then Some(p.(closed := true)) else None
    case Check(w) =>
      // Between two assets: the next one, the next group, or the end when cancelled.
      if w < |p.workers| && p.workers[w].Busy? && p.workers[w].group < |groups| then
        var g := p.workers[w].group;
        if p.progress[g] >= |groups[g]| then Some(p.(workers := p.workers[w := Idle]))
        else if p.cancelled then Some(p.(workers := p.workers[w := Exited]))
        else Some(p.(workers := p.workers[w := Working(g)]))
      else None
    case Attempted(w, outcome) =>
      if w < |p.workers| && p.workers[w].Working? && p.workers[w].group < |groups|
         && p.progress[p.workers[w].group] < |groups[p.workers[w].group]| then
        var g := p.workers[w].group;
        var attempt := Attempt(groups[g][p.progress[g]], outcome);
        Some(p.(workers := p.workers[w := Busy(g)], progress := p.progress[g := p.progress[g] + 1],
                log := p.log + [attempt], disk := PrepareAsset(p.disk, attempt)))
      else None
    case Exit(w) =>
      if w < |p.workers| && p.workers[w].Idle? && p.closed then Some(p.(workers := p.workers[w := Exited])) else None
    case Cancel =>
      if p.cancelled then None else Some(p.(cancelled := true))
  }

  predicate Finished(p: Pool) {
    p.closed && forall w :: 0 <= w < |p.workers| ==> p.workers[w].Exited?
  }

  // ---- The invariant ----

  predicate Holds(w: Worker) {
    w.Busy? || w.Working?
  }

  predicate Has(w: Worker, g: nat) {
    Holds(w) && w.group == g
  }

  /** No two workers have the same group. */
  ghost predicate Exclusive(workers: seq<Worker>) {
    forall v, w :: 0 <= v < |workers| && 0 <= w < |workers| && v != w && Holds(workers[v]) ==>
          !Has(workers[w], workers[v].group)
  }

  predicate WorkerOk(groups: seq<Group>, p: Pool, w: Worker)
    requires |p.progress| == |groups| && p.next <= |groups|
  {
    && (Holds(w) ==> w.group < p.next)
    && (w.Working? && w.group < p.next ==> p.progress[w.group] < |groups[w.group]|)
    && (w.Exited? ==> p.cancelled || p.closed)
  }

  /** Who works on what. */
  ghost predicate Placed(groups: seq<Group>, p: Pool) {
    && |p.progress| == |groups| && p.next <= |groups| && |p.workers| == WorkerCount(groups)
    && (forall w :: 0 <= w < |p.workers| ==> WorkerOk(groups, p, p.workers[w]))
    && Exclusive(p.workers)
    && (p.closed ==> p.cancelled || p.next == |groups|)
  }

  /** How far each group is: not begun, in some worker's hands, or complete, unless cancelled. */
  ghost predicate Progressed(groups: seq<Group>, p: Pool)
    requires |p.progress| == |groups|
  {
    && (forall g :: 0 <= g < |groups| ==> p.progress[g] <= |groups[g]|)
    && (forall g :: p.next <= g < |groups| ==> p.progress[g] == 0)
    && (forall g :: 0 <= g < p.next && g < |groups| && !p.cancelled && p.progress[g] < |groups[g]| ==>
          InHands(p.workers, g))
  }

  ghost predicate InHands(workers: seq<Worker>, g: nat) {
    exists w :: 0 <= w < |workers| && Has(workers[w], g)
  }

  ghost predicate HasGroup(groups: seq<Group>, file: string) {
    exists g :: 0 <= g < |groups| && FileOf(groups, g) == file
  }

  /** What has been attempted is the beginning of each group, and nothing else. */
  ghost predicate GroupsLogged(groups: seq<Group>, progress: seq<nat>, log: seq<Attempt>)
    requires |progress| == |groups|
  {
    && (forall g :: 0 <= g < |groups| ==>
          progress[g] <= |groups[g]| && Assets(ForFile(log, FileOf(groups, g))) == groups[g][..progress[g]])
    && (forall i :: 0 <= i < |log| ==> HasGroup(groups, log[i].asset.file))
  }

  /** Every file is what its own attempts, in their order, made of it. */
  ghost predicate DiskLogged(before: Disk, disk: Disk, log: seq<Attempt>) {
    forall f :: At(disk, f) == AfterAll(At(before, f), ForFile(log, f))
  }

  ghost predicate Logged(groups: seq<Group>, disk: Disk, p: Pool)
    requires |p.progress| == |groups|
  {
    GroupsLogged(groups, p.progress, p.log) && DiskLogged(disk, p.disk, p.log)
  }

  ghost predicate Inv(groups: seq<Group>, disk: Disk, p: Pool) {
    Placed(groups, p) && Progressed(groups, p) && Logged(groups, disk, p)
  }

  lemma StartInv(groups: seq<Group>, disk: Disk)
    requires WellGrouped(groups)
    ensures Inv(groups, disk, Start(groups, disk))
  {
  }

  lemma ExclusiveSet(workers: seq<Worker>, w: nat, x: Worker)
    requires Exclusive(workers) && w < |workers|
    requires Holds(x) ==> forall v :: 0 <= v < |workers| && v != w ==> !Has(workers[v], x.group)
    ensures Exclusive(workers[w := x])
  {
    var workers' := workers[w := x];
    forall v, u | 0 <= v < |workers'| && 0 <= u < |workers'| && v != u && Holds(workers'[v])
      ensures !Has(workers'[u], workers'[v].group)
    {
      assert v != w ==> workers'[v] == workers[v];
      assert u != w ==> workers'[u] == workers[u];
    }
  }

  /** A worker that keeps or drops its group. */
  lemma SetPlaced(groups: seq<Group>, p: Pool, w: nat, x: Worker)
    requires Placed(groups, p) && w < |p.workers| && WorkerOk(groups, p, x)
    requires Holds(x) ==> Has(p.workers[w], x.group)
    ensures Placed(groups, p.(workers := p.workers[w := x]))
  {
    ExclusiveSet(p.workers, w, x);
    hide Exclusive;
  }

  lemma HandPlaced(groups: seq<Group>, p: Pool, w: nat)
    requires Placed(groups, p) && w < |p.workers| && p.next < |groups|
    requires !p.closed
    ensures Placed(groups, p.(next := p.next + 1, workers := p.workers[w := Busy(p.next)]))
  {
    forall v | 0 <= v < |p.workers| ensures !Has(p.workers[v], p.next) {
      assert WorkerOk(groups, p, p.workers[v]);
    }
    ExclusiveSet(p.workers, w, Busy(p.next));
    hide Exclusive;
  }

  lemma AttemptedPlaced(groups: seq<Group>, p: Pool, w: nat, g: nat, p': Pool)
    requires Placed(groups, p) && w < |p.workers| && p.workers[w] == Working(g) && g < |groups|
    requires p' ==
              p.(workers := p.workers[w := Busy(g)],
                 progress := p.progress[g := p.progress[g] + 1],
                 log := p'.log,
                 disk := p'.disk)
    ensures Placed(groups, p')
  {
    ExclusiveSet(p.workers, w, Busy(g));
    assert WorkerOk(groups, p, p.workers[w]);
    forall v | 0 <= v < |p'.workers| ensures WorkerOk(groups, p', p'.workers[v]) {
      if v != w {
        assert WorkerOk(groups, p, p.workers[v]);
        assert !Has(p.workers[v], g);
      }
    }
    hide Exclusive;
  }

  lemma NextPlaced(groups: seq<Group>, p: Pool, a: Action)
    requires Placed(groups, p) && Next(groups, p, a).Some?
    ensures Placed(groups, Next(groups, p, a).value)
  {
    var p' := Next(groups, p, a).value;
    match a
    case Hand(w) => HandPlaced(groups, p, w);
    case Check(w) =>
      assert WorkerOk(groups, p, p.workers[w]);
      hide Exclusive;
      SetPlaced(groups, p, w, p'.workers[w]);
    case Attempted(w, _) =>
      hide Exclusive;
      AttemptedPlaced(groups, p, w, p.workers[w].group, p');
    case Exit(w) =>
      hide Exclusive;
      SetPlaced(groups, p, w, Exited);
    case _ =>
      forall w | 0 <= w < |p.workers| ensures WorkerOk(groups, p', p'.workers[w]) {
        assert WorkerOk(groups, p, p.workers[w]);
      }
      hide Exclusive;
  }

  lemma InHandsSet(workers: seq<Worker>, w: nat, x: Worker, g: nat)
    requires w < |workers| && InHands(workers, g) && (Has(workers[w], g) ==> Has(x, g))
    ensures InHands(workers[w := x], g)
  {
    var v :| 0 <= v < |workers| && Has(workers[v], g);
    assert Has(workers[w := x][v], g);
  }

  lemma SetProgressed(groups: seq<Group>, p: Pool, w: nat, x: Worker)
    requires |p.progress| == |groups| && Progressed(groups, p) && w < |p.workers|
    requires Holds(p.workers[w]) && p.workers[w].group < |groups| && !p.cancelled ==>
               Has(x, p.workers[w].group) || p.progress[p.workers[w].group] == |groups[p.workers[w].group]|
    ensures Progressed(groups, p.(workers := p.workers[w := x]))
  {
    forall g | 0 <= g < p.next && g < |groups| && !p.cancelled && p.progress[g] < |groups[g]|
      ensures InHands(p.workers[w := x], g)
    {
      InHandsSet(p.workers, w, x, g);
    }
  }

  lemma HandProgressed(groups: seq<Group>, p: Pool, w: nat)
    requires |p.progress| == |groups| && Progressed(groups, p) && w < |p.workers| && p.workers[w].Idle?
    requires p.next < |groups|
    ensures Progressed(groups, p.(next := p.next + 1, workers := p.workers[w := Busy(p.next)]))
  {
    var workers' := p.workers[w := Busy(p.next)];
    forall g | 0 <= g < p.next + 1 && g < |groups| && !p.cancelled && p.progress[g] < |groups[g]|
      ensures InHands(workers', g)
    {
      if g < p.next {
        InHandsSet(p.workers, w, Busy(p.next), g);
      } else {
        assert Has(workers'[w], g);
      }
    }
  }

  lemma AttemptedProgressed(groups: seq<Group>, p: Pool, w: nat, g: nat, p': Pool)
    requires |p.progress| == |groups| && Progressed(groups, p) && w < |p.workers| && p.workers[w] == Working(g)
    requires g < p.next && g < |groups| && p.progress[g] < |groups[g]|
    requires p' ==
              p.(workers := p.workers[w := Busy(g)],
                 progress := p.progress[g := p.progress[g] + 1],
                 log := p'.log,
                 disk := p'.disk)
    ensures Progressed(groups, p')
  {
    forall h | 0 <= h < p.next && h < |groups| && !p.cancelled && p'.progress[h] < |groups[h]|
      ensures InHands(p'.workers, h)
    {
      InHandsSet(p.workers, w, Busy(g), h);
    }
  }

  lemma NextProgressed(groups: seq<Group>, p: Pool, a: Action)
    requires Placed(groups, p) && Progressed(groups, p) && Next(groups, p, a).Some?
    ensures Progressed(groups, Next(groups, p, a).value)
  {
    hide Exclusive;
    var p' := Next(groups, p, a).value;
    match a
    case Hand(w) => HandProgressed(groups, p, w);
    case Check(w) => SetProgressed(groups, p, w, p'.workers[w]);
    case Attempted(w, _) =>
      assert WorkerOk(groups, p, p.workers[w]);
      AttemptedProgressed(groups, p, w, p.workers[w].group, p');
    case Exit(w) => SetProgressed(groups, p, w, Exited);
    case _ =>
  }

  // ---- What has been attempted ----

  lemma ForFileNext(log: seq<Attempt>, a: Attempt, file: string)
    ensures ForFile(log + [a], file) == if a.asset.file == file then ForFile(log, file) + [a] else ForFile(log, file)
  {
    assert (log + [a])[..|log|] == log;
  }

  lemma AfterAllNext(before: Option<Content>, log: seq<Attempt>, a: Attempt)
    ensures AfterAll(before, log + [a]) == Prepared(AfterAll(before, log), a)
  {
    assert (log + [a])[..|log|] == log;
  }

  lemma PrepareAssetAt(disk: Disk, a: Attempt, file: string)
    ensures At(PrepareAsset(disk, a), file) ==
              if file == a.asset.file then Prepared(At(disk, file), a) else At(disk, file)
  {
  }

  lemma DiskFollowsLog(before: Option<Content>, disk: Disk, log: seq<Attempt>, a: Attempt, file: string)
    requires At(disk, file) == AfterAll(before, ForFile(log, file))
    ensures At(PrepareAsset(disk, a), file) == AfterAll(before, ForFile(log + [a], file))
  {
    hide AfterAll, ForFile, PrepareAsset, At, Prepared;
    PrepareAssetAt(disk, a, file);
    ForFileNext(log, a, file);
    AfterAllNext(before, ForFile(log, file), a);
  }

  lemma GroupFollowsLog(log: seq<Attempt>, group: Group, file: string, n: nat, a: Attempt)
    requires n < |group| && Assets(ForFile(log, file)) == group[..n] && a.asset == group[n] && a.asset.file == file
    ensures Assets(ForFile(log + [a], file)) == group[..n + 1]
  {
    hide ForFile;
    ForFileNext(log, a, file);
    assert Assets(ForFile(log, file) + [a]) == Assets(ForFile(log, file)) + [a.asset];
  }

  lemma AttemptGroup(groups: seq<Group>, progress: seq<nat>, log: seq<Attempt>, g: nat, a: Attempt, h: nat)
    requires |progress| == |groups| && WellGrouped(groups) && GroupsLogged(groups, progress, log)
    requires g < |groups| && progress[g] < |groups[g]| && a.asset == groups[g][progress[g]]
    requires a.asset.file == FileOf(groups, g)
    requires h < |groups|
    ensures var n := if h == g then progress[h] + 1 else progress[h];
            n <= |groups[h]| && Assets(ForFile(log + [a], FileOf(groups, h))) == groups[h][..n]
  {
    hide ForFile, Assets, HasGroup;
    if h == g {
      GroupFollowsLog(log, groups[g], FileOf(groups, g), progress[g], a);
    } else {
      assert FileOf(groups, h) != FileOf(groups, g) by {
        if h < g {
          assert FileOf(groups, h) != FileOf(groups, g);
        } else {
          assert FileOf(groups, g) != FileOf(groups, h);
        }
      }
      ForFileNext(log, a, FileOf(groups, h));
    }
  }

  lemma AttemptGroups(groups: seq<Group>, progress: seq<nat>, log: seq<Attempt>, g: nat, a: Attempt)
    requires |progress| == |groups| && WellGrouped(groups) && GroupsLogged(groups, progress, log)
    requires g < |groups| && progress[g] < |groups[g]| && a.asset == groups[g][progress[g]]
    ensures GroupsLogged(groups, progress[g := progress[g] + 1], log + [a])
  {
    assert a.asset.file == FileOf(groups, g);
    assert HasGroup(groups, a.asset.file);
    var progress', log' := progress[g := progress[g] + 1], log + [a];
    forall h | 0 <= h < |groups|
      ensures progress'[h] <= |groups[h]| && Assets(ForFile(log', FileOf(groups, h))) == groups[h][..progress'[h]]
    {
      hide WellGrouped, FileOf, ForFile, Assets, HasGroup, GroupsLogged;
      AttemptGroup(groups, progress, log, g, a, h);
    }
    hide WellGrouped, FileOf, ForFile, Assets, HasGroup;
    forall i | 0 <= i < |log'| ensures HasGroup(groups, log'[i].asset.file) {
      assert i < |log| ==> log'[i] == log[i];
    }
  }

  lemma AttemptDisk(before: Disk, disk: Disk, log: seq<Attempt>, a: Attempt)
    requires DiskLogged(before, disk, log)
    ensures DiskLogged(before, PrepareAsset(disk, a), log + [a])
  {
    hide ForFile, AfterAll, At, PrepareAsset;
    forall f ensures At(PrepareAsset(disk, a), f) == AfterAll(At(before, f), ForFile(log + [a], f)) {
      DiskFollowsLog(At(before, f), disk, log, a, f);
    }
  }

  lemma NextLogged(groups: seq<Group>, disk: Disk, p: Pool, a: Action)
    requires |p.progress| == |groups| && WellGrouped(groups) && Logged(groups, disk, p) && Next(groups, p, a).Some?
    ensures var p' := Next(groups, p, a).value; |p'.progress| == |groups| && Logged(groups, disk, p')
  {
    hide GroupsLogged, DiskLogged;
    if a.Attempted? {
      var g := p.workers[a.w].group;
      var attempt := Attempt(groups[g][p.progress[g]], a.outcome);
      AttemptGroups(groups, p.progress, p.log, g, attempt);
      AttemptDisk(disk, p.disk, p.log, attempt);
    }
  }

  // ---- Whole runs ----

  ghost predicate Reachable(groups: seq<Group>, disk: Disk, p: Pool, steps: nat)
    decreases steps
  {
    if steps == 0 then p == Start(groups, disk)
    else exists before: Pool, a: Action ::
      |before.progress| == |groups| && Reachable(groups, disk, before, steps - 1) && Next(groups, before, a) == Some(p)
  }

  lemma NextInv(groups: seq<Group>, disk: Disk, p: Pool, a: Action)
    requires WellGrouped(groups) && Inv(groups, disk, p) && Next(groups, p, a).Some?
    ensures Inv(groups, disk, Next(groups, p, a).value)
  {
    hide Next, Exclusive, Progressed, Logged;
    NextPlaced(groups, p, a);
    NextProgressed(groups, p, a);
    NextLogged(groups, disk, p, a);
  }

  lemma LastStep(groups: seq<Group>, disk: Disk, p: Pool, steps: nat) returns (before: Pool, a: Action)
    requires steps > 0 && Reachable(groups, disk, p, steps)
    ensures |before.progress| == |groups| && Reachable(groups, disk, before, steps - 1)
    ensures Next(groups, before, a) == Some(p)
  {
    hide Next;
    before, a :|
      |before.progress| == |groups| && Reachable(groups, disk, before, steps - 1) && Next(groups, before, a) == Some(p);
  }

  lemma {:induction false} ReachableInv(groups: seq<Group>, disk: Disk, p: Pool, steps: nat)
    requires WellGrouped(groups) && Reachable(groups, disk, p, steps)
    ensures Inv(groups, disk, p)
    decreases steps
  {
    if steps == 0 {
      StartInv(groups, disk);
    } else {
      hide *;
      var before, a := LastStep(groups, disk, p, steps);
      ReachableInv(groups, disk, before, steps - 1);
      NextInv(groups, disk, before, a);
    }
  }

  /** At most five workers, and no two of them ever on the same file. */
  lemma OneWorkerPerFile(groups: seq<Group>, disk: Disk, p: Pool, steps: nat, v: nat, w: nat)
    requires WellGrouped(groups) && Reachable(groups, disk, p, steps)
    requires v < |p.workers| && w < |p.workers| && v != w && Holds(p.workers[v]) && Holds(p.workers[w])
    ensures |p.workers| <= CONCURRENCY && p.workers[v].group < |groups| && p.workers[w].group < |groups|
    ensures FileOf(groups, p.workers[v].group) != FileOf(groups, p.workers[w].group)
  {
    ReachableInv(groups, disk, p, steps);
    hide Reachable, Progressed, Logged, FileOf;
    assert WorkerOk(groups, p, p.workers[v]) && WorkerOk(groups, p, p.workers[w]);
    assert !Has(p.workers[w], p.workers[v].group);
    var g, h := p.workers[v].group, p.workers[w].group;
    if g < h {
      assert FileOf(groups, g) != FileOf(groups, h);
    } else {
      assert FileOf(groups, h) != FileOf(groups, g);
    }
  }

  /** At every moment the sources tried for a file are the first few configured for it, in their order. */
  lemma AttemptsInOrder(assets: seq<Asset>, groups: seq<Group>, disk: Disk, p: Pool, steps: nat, file: string)
    requires Groups(groups, assets) && Reachable(groups, disk, p, steps)
    ensures Assets(ForFile(p.log, file)) <= OfFile(assets, file)
    ensures At(p.disk, file) == AfterAll(At(disk, file), ForFile(p.log, file))
  {
    ReachableInv(groups, disk, p, steps);
    hide Reachable, Placed, Progressed, OfFile, WellGrouped, At, AfterAll, FileOf;
    if HasGroup(groups, file) {
      var g :| 0 <= g < |groups| && FileOf(groups, g) == file;
      assert groups[g] == OfFile(assets, file);
    } else {
      NoAttempts(groups, p.log, file);
    }
  }

  lemma {:induction false} NoAttempts(groups: seq<Group>, log: seq<Attempt>, file: string)
    requires !HasGroup(groups, file) && forall i :: 0 <= i < |log| ==> HasGroup(groups, log[i].asset.file)
    ensures ForFile(log, file) == []
  {
    if log != [] {
      NoAttempts(groups, log[..|log| - 1], file);
    }
  }

  lemma FinishedMeansDone(groups: seq<Group>, p: Pool, g: nat)
    requires Placed(groups, p) && Progressed(groups, p) && Finished(p) && !p.cancelled && g < |groups|
    ensures p.progress[g] == |groups[g]|
  {
    hide Exclusive;
    assert p.progress[g] < |groups[g]| ==> InHands(p.workers, g);
    assert !InHands(p.workers, g);
  }

  /**
    When the pool is done and was not cancelled, every configured source was tried, each
    file's in their order, and each file is what that order makes of it: the interleaving
    of the workers makes no difference.
   */
  lemma AllAttempted(assets: seq<Asset>, groups: seq<Group>, disk: Disk, p: Pool, steps: nat, file: string)
    requires Groups(groups, assets) && Reachable(groups, disk, p, steps) && Finished(p) && !p.cancelled
    ensures Assets(ForFile(p.log, file)) == OfFile(assets, file)
    ensures At(p.disk, file) == AfterAll(At(disk, file), ForFile(p.log, file))
  {
    AttemptsInOrder(assets, groups, disk, p, steps, file);
    ReachableInv(groups, disk, p, steps);
    hide Reachable, OfFile, WellGrouped, At, AfterAll, FileOf, Placed, Progressed, ForFile, Assets;
    if HasGroup(groups, file) {
      var g :| 0 <= g < |groups| && FileOf(groups, g) == file;
      FinishedMeansDone(groups, p, g);
      assert groups[g] == OfFile(assets, file) && groups[g][..|groups[g]|] == groups[g];
    } else {
      OfFileAbsent(assets, file) by {
        forall i | 0 <= i < |assets| ensures assets[i].file != file {
          var g :| 0 <= g < |groups| && FileOf(groups, g) == assets[i].file;
        }
      }
    }
  }

  // ---- The pool always ends ----

  lemma HolderCanGoOn(groups: seq<Group>, p: Pool, w: nat)
    requires Placed(groups, p) && w < |p.workers| && Holds(p.workers[w])
    ensures exists a :: a != Cancel && Next(groups, p, a).Some?
  {
    hide Exclusive;
    assert WorkerOk(groups, p, p.workers[w]);
    if p.workers[w].Busy? {
      assert Next(groups, p, Check(w)).Some?;
    } else {
      assert Next(groups, p, Attempted(w, Downloaded)).Some?;
    }
  }

  lemma DispatcherCanGoOn(groups: seq<Group>, p: Pool)
    requires Placed(groups, p) && !p.closed && forall w :: 0 <= w < |p.workers| ==> !Holds(p.workers[w])
    ensures exists a :: a != Cancel && Next(groups, p, a).Some?
  {
    hide Exclusive;
    if p.next == |groups| {
      assert Next(groups, p, Close).Some?;
    } else if p.cancelled {
      assert Next(groups, p, Abandon).Some?;
    } else {
      assert WorkerOk(groups, p, p.workers[0]) && !Holds(p.workers[0]);
      assert Next(groups, p, Hand(0)).Some?;
    }
  }

  /** Until it has ended, the dispatcher or a worker can take a step. */
  lemma CanGoOn(groups: seq<Group>, disk: Disk, p: Pool, steps: nat)
    requires WellGrouped(groups) && Reachable(groups, disk, p, steps) && !Finished(p)
    ensures |p.progress| == |groups| && exists a :: a != Cancel && Next(groups, p, a).Some?
  {
    ReachableInv(groups, disk, p, steps);
    assert Placed(groups, p);
    assert |p.progress| == |groups|;
    hide Reachable, Progressed, Logged, Placed, Inv, WellGrouped;
    if w :| 0 <= w < |p.workers| && Holds(p.workers[w]) {
      HolderCanGoOn(groups, p, w);
    } else if p.closed {
      var w :| 0 <= w < |p.workers| && !p.workers[w].Exited?;
      assert Next(groups, p, Exit(w)).Some?;
    } else {
      DispatcherCanGoOn(groups, p);
    }
  }

  function Rank(w: Worker): nat {
    match w case Busy(_) => 3 case Working(_) => 2 case Idle => 1 case Exited => 0
  }

  function Ranks(workers: seq<Worker>): nat {
    if workers == [] then 0 else Rank(workers[0]) + Ranks(workers[1..])
  }

  function Left(groups: seq<Group>, progress: seq<nat>): int
    requires |progress| == |groups|
  {
    if groups == [] then 0 else |groups[0]| - progress[0] + Left(groups[1..], progress[1..])
  }

  /** What is still to be done. */
  function Measure(groups: seq<Group>, p: Pool): int
    requires |p.progress| == |groups|
  {
    2 * Left(groups, p.progress) + 3 * (|groups| - p.next) + Ranks(p.workers) + (if p.closed then 0 else 1)
        + (if p.cancelled then 0 else 1)
  }

  lemma {:induction false} RanksSet(workers: seq<Worker>, w: nat, x: Worker)
    requires w < |workers|
    ensures Ranks(workers[w := x]) == Ranks(workers) - Rank(workers[w]) + Rank(x)
  {
    if w == 0 {
      assert workers[0 := x][1..] == workers[1..];
    } else {
      RanksSet(workers[1..], w - 1, x);
      assert workers[w := x][1..] == workers[1..][w - 1 := x];
    }
  }

  lemma {:induction false} LeftLess(groups: seq<Group>, progress: seq<nat>, g: nat)
    requires |progress| == |groups| && g < |groups|
    ensures Left(groups, progress[g := progress[g] + 1]) == Left(groups, progress) - 1
  {
    if g == 0 {
      assert progress[0 := progress[0] + 1][1..] == progress[1..];
    } else {
      LeftLess(groups[1..], progress[1..], g - 1);
      assert progress[g := progress[g] + 1][1..] == progress[1..][g - 1 := progress[1..][g - 1] + 1];
    }
  }

  lemma {:induction false} LeftIsNat(groups: seq<Group>, progress: seq<nat>)
    requires |progress| == |groups| && forall g :: 0 <= g < |groups| ==> progress[g] <= |groups[g]|
    ensures Left(groups, progress) >= 0
  {
    if groups != [] {
      LeftIsNat(groups[1..], progress[1..]);
    }
  }

  lemma MeasureDrops(groups: seq<Group>, p: Pool, a: Action)
    requires |p.progress| == |groups| && Next(groups, p, a).Some?
    ensures |Next(groups, p, a).value.progress| == |groups|
    ensures Measure(groups, Next(groups, p, a).value) < Measure(groups, p)
  {
    hide Left, Ranks, PrepareAsset;
    var p' := Next(groups, p, a).value;
    match a
    case Hand(w) => RanksSet(p.workers, w, Busy(p.next));
    case Check(w) => RanksSet(p.workers, w, p'.workers[w]);
    case Attempted(w, _) =>
      RanksSet(p.workers, w, p'.workers[w]);
      LeftLess(groups, p.progress, p.workers[w].group);
    case Exit(w) => RanksSet(p.workers, w, Exited);
    case _ =>
  }

  lemma MeasureIsNat(groups: seq<Group>, disk: Disk, p: Pool)
    requires Inv(groups, disk, p)
    ensures Measure(groups, p) >= 0
  {
    LeftIsNat(groups, p.progress);
    hide Left, Ranks, Logged, Exclusive;
  }

  /** Every step, the cancellation included, leaves less to do, and there is never less than nothing. */
  lemma EveryStepCounts(groups: seq<Group>, disk: Disk, p: Pool, a: Action, steps: nat)
    requires WellGrouped(groups) && Reachable(groups, disk, p, steps)
    ensures |p.progress| == |groups|
    ensures Next(groups, p, a).Some? ==>
              var p' := Next(groups, p, a).value;
              |p'.progress| == |groups| && 0 <= Measure(groups, p') < Measure(groups, p)
  {
    ReachableInv(groups, disk, p, steps);
    if Next(groups, p, a).Some? {
      NextInv(groups, disk, p, a);
      hide Inv, Next, Measure;
      MeasureIsNat(groups, disk, Next(groups, p, a).value);
      MeasureDrops(groups, p, a);
    }
  }

  /** A worker for each file, but never more than five. */
  lemma PoolSize(groups: seq<Group>, disk: Disk)
    ensures |Start(groups, disk).workers| == if |groups| < 5 then |groups| else 5
    ensures forall w :: 0 <= w < |Start(groups, disk).workers| ==> Start(groups, disk).workers[w].Idle?
    ensures Start(groups, disk).log == [] && Start(groups, disk).disk == disk
  {
  }

  predicate SomeWorkingMore(p: Pool, p': Pool) {
    exists w :: 0 <= w < |p'.workers| && p'.workers[w].Working? && !(w < |p.workers| && p.workers[w].Working?)
  }

  /** Once it is cancelled, no worker begins with another source, and it stays cancelled. */
  lemma CancelledBeginsNothing(groups: seq<Group>, p: Pool, a: Action)
    requires |p.progress| == |groups| && p.cancelled && Next(groups, p, a).Some?
    ensures var p' := Next(groups, p, a).value;
            && p'.cancelled && !SomeWorkingMore(p, p')
            && (|p'.log| > |p.log| ==> a.Attempted? && p.workers[a.w].Working?)
  {
    hide PrepareAsset;
  }
}
