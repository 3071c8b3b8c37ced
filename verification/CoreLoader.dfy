/**
  Installing a custom core, or going back to the stock one: a sequence of file-system
  steps, any of which may fail and after any of which the process may stop. The managed
  link must never be left pointing at nothing, and the marker must never vouch for a file
  it was not written for.
 */
module CoreLoader {
  import opened Wrappers

  /** A file as the loader sees it; `digest` is its SHA-256, `runs` that it prints a version. */
  datatype File = File(digest: string, size: nat, mtime: int, regular: bool, executable: bool, runs: bool)

  datatype Target = AtStock | AtCustom | Elsewhere(executable: bool)

  datatype Active = Missing | NotALink | Link(target: Target)

  datatype Marker = Marker(url: string, sha256: string, size: nat, mtime: int)

  datatype Spec = Spec(url: string, sha256: string)

  datatype Fs = Fs(
    active: Active,
    stock: Option<File>,
    custom: Option<File>,
    staged: Option<File>,
    marker: Option<Marker>)

  predicate Executable(f: Option<File>) {
    f.Some? && f.value.regular && f.value.executable
  }

  /** The managed link leads to an executable file. */
  predicate Resolves(fs: Fs) {
    fs.active.Link? && LeadsToExecutable(fs, fs.active.target)
  }

  predicate LeadsToExecutable(fs: Fs, target: Target) {
    match target
    case AtStock => Executable(fs.stock)
    case AtCustom => Executable(fs.custom)
    case Elsewhere(executable) => executable
  }

  /** `isInstalled` */
  predicate IsInstalled(fs: Fs, spec: Spec) {
    && fs.marker.Some? && fs.marker.value.url == spec.url && fs.marker.value.sha256 == spec.sha256
    && Executable(fs.custom)
    && fs.custom.value.size == fs.marker.value.size && fs.custom.value.mtime == fs.marker.value.mtime
    && fs.active == Link(AtCustom)
  }

  /** A marker that matches the custom file by its time was written for that file. */
  predicate Vouches(fs: Fs) {
    fs.marker.Some? && fs.custom.Some? && fs.marker.value.mtime == fs.custom.value.mtime ==>
      fs.marker.value.sha256 == fs.custom.value.digest
  }

  /** Every modification time in use has been seen. */
  predicate Seen(fs: Fs, seen: set<int>) {
    && (fs.custom.Some? ==> fs.custom.value.mtime in seen)
    && (fs.marker.Some? ==> fs.marker.value.mtime in seen)
  }

  /** What holds at every moment. */
  predicate Sound(fs: Fs, seen: set<int>) {
    Vouches(fs) && Seen(fs, seen)
  }

  lemma InstalledMeansDigest(fs: Fs, seen: set<int>, spec: Spec)
    requires Sound(fs, seen) && IsInstalled(fs, spec)
    ensures fs.custom.value.digest == spec.sha256 && Resolves(fs)
  {
  }

  /** At most one specification is installed. */
  lemma InstalledIsOne(fs: Fs, a: Spec, b: Spec)
    requires IsInstalled(fs, a) && IsInstalled(fs, b)
    ensures a == b && fs.active == Link(AtCustom) && Executable(fs.custom)
  {
  }

  /** There is always a time that has not been seen. */
  lemma {:induction false} LaterTime(times: set<int>) returns (later: int)
    ensures forall t :: t in times ==> t < later
    ensures later !in times
  {
    later := 0;
    if x :| x in times {
      var others := times - {x};
      later := LaterTime(others);
      later := if later <= x then x + 1 else later;
      assert forall t :: t in times ==> t == x || t in others;
    }
  }

  /**
    Why a download needs a fresh modification time: between the rename of a new file over
    the custom core and the new marker, the old specification still counts as installed if
    and only if the new file has the old one's size and modification time.
   */
  lemma OldMarkerMisleadsIff(fs: Fs, seen: set<int>, spec: Spec, file: File)
    requires Sound(fs, seen) && IsInstalled(fs, spec) && Executable(Some(file)) && file.digest != spec.sha256
    ensures var after := fs.(custom := Some(file));
            && (IsInstalled(after, spec) <==> file.size == fs.custom.value.size && file.mtime == fs.custom.value.mtime)
            && (file.mtime !in seen ==> Vouches(after))
  {
  }

  /** Such a file: another core of the same size, written in the same instant of a coarse clock. */
  lemma OldMarkerInstance(fs: Fs, spec: Spec, file: File)
    requires spec == Spec("https://a", "d1") && file == File("d2", 7, 1, true, true, true)
    requires fs ==
              Fs(Link(AtCustom), None, Some(File("d1", 7, 1, true, true, true)), None,
                  Some(Marker("https://a", "d1", 7, 1)))
    ensures Sound(fs, {1}) && IsInstalled(fs, spec)
    ensures IsInstalled(fs.(custom := Some(file)), spec) && file.digest != spec.sha256
  {
    OldMarkerMisleadsIff(fs, {1}, spec, file);
  }

  /** The custom core is the one before, or one of the right digest that ran. */
  predicate OldOrChecked(before: Fs, after: Fs, spec: Spec) {
    && (after.custom == before.custom
        || (after.custom.Some? && after.custom.value.digest == spec.sha256 && after.custom.value.runs))
    && (after.active == before.active || after.active == Link(AtCustom))
  }

  /** The link is at the stock core; marker and custom core are gone, unless their removal failed. */
  predicate OnlyStock(before: Fs, after: Fs) {
    && after == before.(active := Link(AtStock), marker := after.marker, custom := after.custom)
    && (after.marker == before.marker || after.marker == None)
    && (after.custom == before.custom || after.custom == None)
  }

  // ---- Whole runs ----

  /** At every one of these moments the state is sound, and the link resolves if it did before. */
  predicate GoodMoments(moments: seq<Fs>, resolved: bool, seen: set<int>) {
    forall i :: 0 <= i < |moments| ==> Sound(moments[i], seen) && (resolved ==> Resolves(moments[i]))
  }

  class CoreDirectory {
    var fs: Fs
    /** Modification times used so far. */
    var seen: set<int>
    /** The state after every step. */
    var history: seq<Fs>
    /** No call ever fails, and every download delivers a core that has its digest and runs. */
    const reliable: bool

    ghost predicate Valid()
      reads this
    {
      Sound(fs, seen)
    }

    constructor (fs: Fs, seen: set<int>, reliable: bool)
      ensures this.fs == fs && this.seen == seen && this.reliable == reliable && history == []
    {
      this.fs := fs;
      this.reliable := reliable;
      this.seen := seen;
      history := [];
    }

    /** Whether the next call fails. */
    method Fault() returns (failed: bool)
      ensures reliable ==> !failed
    {
      failed := *;
      failed := failed && !reliable;
    }

    /** Every file-system call: it happens or it fails. */
    method Do(next: Fs) returns (ok: bool)
      modifies this`fs, this`history
      ensures fs == if ok then next else old(fs)
      ensures history == old(history) + [fs]
      ensures reliable ==> ok
    {
      var failed := Fault();
      ok := !failed;
      if ok {
        fs := next;
      }
      history := history + [fs];
    }

    /** What every operation keeps, since the moment described by `moments`, `resolved` and `seen`. */
    twostate predicate Kept()
      reads this
    {
      && Valid() && old(seen) <= seen
      && (old(Resolves(fs)) ==> Resolves(fs))
      && old(history) <= history
      && GoodMoments(history[|old(history)|..], old(Resolves(fs)), seen)
    }

    /** `pointLinkAt`: a fresh link renamed over the managed one. */
    method PointLinkAt(target: Target) returns (ok: bool)
      requires Valid()
      requires LeadsToExecutable(fs, target)
      modifies this`fs, this`history
      ensures Kept()
      ensures fs == if ok then old(fs).(active := Link(target)) else old(fs)
      ensures reliable ==> ok
    {
      var failed := Fault();
      if failed {
        return false;
      }
      ok := Do(fs.(active := Link(target)));
    }

    /** `restoreStock` */
    method RestoreStock() returns (ok: bool)
      requires Valid()
      modifies this`fs, this`history
      ensures Kept() && seen == old(seen)
      ensures ok ==> fs.active.Link? ==> fs.active == Link(AtStock)
      ensures !old(fs.active.Link?) || old(fs.active) == Link(AtStock) ==> fs == old(fs)
      ensures !ok ==> fs == old(fs)
      ensures fs == old(fs) || OnlyStock(old(fs), fs)
      ensures reliable && (old(Executable(fs.stock)) || !old(fs.active.Link?)) ==> ok
      ensures reliable && ok && old(fs.active.Link? && fs.active.target != AtStock) ==>
                fs.marker.None? && fs.custom.None?
    {
      if !fs.active.Link? {
        return true;
      }
      var failed := Fault();
      if failed {
        return false;
      }
      if fs.active.target == AtStock {
        return true;
      }
      failed := Fault();
      if failed || fs.stock.None? {
        return false;
      }
      if !fs.stock.value.regular || !fs.stock.value.executable {
        return false;
      }
      ok := PointLinkAt(AtStock);
      if ok {
        var _ := Do(fs.(marker := None));
        var _ := Do(fs.(custom := None));
      }
    }

    /** `artifact.Download` into the staging path: a file of the expected digest and a fresh modification time. */
    method Download(spec: Spec) returns (ok: bool)
      requires Valid()
      modifies this
      ensures Kept()
      ensures ok ==>
                && fs == old(fs).(staged := fs.staged)
                && fs.staged.Some? && fs.staged.value.digest == spec.sha256 && fs.staged.value.regular
                && fs.staged.value.mtime !in old(seen) && fs.staged.value.mtime in seen
      ensures !ok ==> fs == old(fs)
      ensures reliable ==> ok && fs.staged.value.runs
    {
      var size: nat := *;
      var mtime: int := *;
      var digest: string := *;
      var executable, runs: bool := *, *;
      if reliable {
        ghost var later := LaterTime(seen);
        mtime, digest, runs :| mtime !in seen && digest == spec.sha256 && runs;
      }
      if digest != spec.sha256 || mtime in seen {
        return false;
      }
      seen := seen + {mtime};
      ok := Do(fs.(staged := Some(File(digest, size, mtime, true, executable, runs))));
    }

    /** `install` */
    method Install(spec: Spec) returns (ok: bool)
      requires Valid()
      modifies this
      ensures Kept()
      ensures ok ==> IsInstalled(fs, spec) && fs.custom.value.digest == spec.sha256 && fs.custom.value.runs
      ensures fs.stock == old(fs.stock) && OldOrChecked(old(fs), fs, spec)
      ensures reliable && !old(fs.active.NotALink?) ==> ok
    {
      var failed := Fault();
      if failed || fs.active.NotALink? {
        return false;
      }
      ok := Do(fs.(staged := None));
      if !ok {
        return;
      }
      ok := Download(spec);
      if !ok {
        return;
      }
      ok := Activate(spec);
      var _ := Do(fs.(staged := None));
    }

    /** The rest of `install`, once the staged file is there. */
    method Activate(spec: Spec) returns (ok: bool)
      requires Valid()
      requires fs.staged.Some? && fs.staged.value.digest == spec.sha256 && fs.staged.value.regular
      requires fs.staged.value.mtime in seen && (fs.marker.Some? ==> fs.marker.value.mtime != fs.staged.value.mtime)
      modifies this`fs, this`history
      ensures Kept() && seen == old(seen)
      ensures ok ==> IsInstalled(fs, spec) && fs.custom.value.digest == spec.sha256 && fs.custom.value.runs
      ensures fs.stock == old(fs.stock) && OldOrChecked(old(fs), fs, spec)
      ensures reliable && old(fs.staged.value.runs) ==> ok
    {
      ok := Do(fs.(staged := Some(fs.staged.value.(executable := true))));
      if !ok {
        return;
      }
      var failed := Fault();
      if failed || !fs.staged.value.runs {
        return false;
      }
      ok := Do(fs.(custom := fs.staged, staged := None));
      if !ok {
        return;
      }
      ok := PointLinkAt(AtCustom);
      if !ok {
        return;
      }
      failed := Fault();
      if failed {
        return false;
      }
      ok :=
        Do(fs.(marker := Some(Marker(spec.url, fs.custom.value.digest, fs.custom.value.size, fs.custom.value.mtime))));
    }

    /** `prepare`: None in `section` is a malformed one, Some(None) one without a core. */
    method Prepare(managed: bool, section: Option<Option<Spec>>) returns (ok: bool)
      requires Valid()
      modifies this
      ensures Kept()
      ensures !managed || section.None? ==> ok && fs == old(fs)
      ensures managed && section == Some(None) && ok && fs.active.Link? ==> fs.active == Link(AtStock)
      ensures section.Some? && section.value.Some? ==> ok && OldOrChecked(old(fs), fs, section.value.value)
      ensures reliable && managed && section.Some? && section.value.Some? ==>
                && (!old(fs.active.NotALink?) ==> IsInstalled(fs, section.value.value))
                && (old(IsInstalled(fs, section.value.value)) ==> fs == old(fs))
      ensures reliable && managed && section == Some(None) && old(fs.active.Link? && Executable(fs.stock)) ==>
                && ok && fs.active == Link(AtStock)
                && (old(fs.active) != Link(AtStock) ==> fs.marker.None? && fs.custom.None?)
    {
      if section.None? || !managed {
        return true;
      }
      if section.value.None? {
        ok := RestoreStock();
        return;
      }
      var unread := Fault();
      if !unread && IsInstalled(fs, section.value.value) {
        return true;
      }
      var _ := Install(section.value.value);
      return true;
    }

    /**
      Any number of `prepare` calls, each possibly cut short after any of its steps: the
      next one then starts from what was on the disk at that moment.
     */
    method Run(requests: seq<Request>)
      requires Valid()
      modifies this
      ensures Kept()
    {
      for i := 0 to |requests|
        invariant Kept()
      {
        ghost var moments, resolved := history[|old(history)|..], old(Resolves(fs));
        var start := |history|;
        ghost var seenBefore, resolvesBefore := seen, Resolves(fs);
        label call:
        var _ := Prepare(requests[i].managed, requests[i].section);
        GoodMomentsAppend(moments, history[start..], resolved, resolvesBefore, seenBefore, seen);
        assert history[|old(history)|..] == moments + history[start..] by {
          assert old@call(history) <= history;
        }
        var stopped: bool := *;
        var at: int := *;
        if stopped && start <= at < |history| {
          fs := history[at];
          assert fs == (history[start..])[at - start];
        }
      }
    }
  }

  datatype Request = Request(managed: bool, section: Option<Option<Spec>>)

  lemma GoodMomentsAppend(a: seq<Fs>, b: seq<Fs>, resolved: bool, resolved': bool, seen: set<int>, seen': set<int>)
    requires GoodMoments(a, resolved, seen) && GoodMoments(b, resolved', seen')
    requires seen <= seen' && (resolved ==> resolved')
    ensures GoodMoments(a + b, resolved, seen')
  {
  }
}
