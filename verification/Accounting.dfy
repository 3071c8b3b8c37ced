/**
  The accounting snapshot protocol. A durable journal hands out one sample at a time
  and replays it until the client acknowledges or quarantines it. Counter reads and
  journal writes may fail, the process may die between any two of its writes, and
  replies may be lost.
 */
module Accounting {
  import opened Wrappers
  import opened CounterNames
  import opened Aggregation

  const INT64_MAX := 0x7fff_ffff_ffff_ffff

  datatype Checkpoint = Checkpoint(counters: Counters, generation: string, sampleId: string)

  datatype Quarantine = Quarantine(generation: string, sampleId: string)

  datatype Journal = Journal(
    acknowledged: Option<Checkpoint>,
    pending: Option<Pending>,
    quarantined: Option<Quarantine>)

  const NO_JOURNAL := Journal(None, None, None)

  /** How a journal write ends: the new file is in place after the rename, reported or not. */
  datatype WriteOutcome = Written | FailedBeforeRename | FailedAfterRename

  /**
    What the environment does during one call. A process death is a failure at the
    same place: before a write, or after its rename with the reply lost.
   */
  datatype Env = Env(
    journalReadable: bool,
    readFails: bool,
    counters: map<string, int>,
    generation: string,
    freshId: string,
    firstWrite: WriteOutcome,
    secondWrite: WriteOutcome)

  datatype Reply = Served(sample: Pending, extra: seq<Diagnostic>) | Failed

  function Note(code: string): Diagnostic {
    Diagnostic(code, 0)
  }

  /** Counters as decimal text. */
  function Encode(counters: map<string, int>): Counters {
    map name | name in counters :: Num(counters[name])
  }

  /** `strconv.ParseInt(m[name], 10, 64)` with the error ignored. */
  function ParseInt64(m: Counters, name: string): int {
    if name !in m || m[name].Malformed? then 0
    else if m[name].value > INT64_MAX then INT64_MAX
    else if m[name].value < -INT64_MAX - 1 then -INT64_MAX - 1
    else m[name].value
  }

  /** Some counter now reads less than before. */
  predicate Drops(from: Counters, to: Counters) {
    exists name :: name in to && ParseInt64(to, name) < ParseInt64(from, name)
  }

  function Fresh(acknowledged: Option<Checkpoint>, env: Env): Pending {
    var to := Encode(env.counters);
    if acknowledged.None? then
      Pending([Note("ACCOUNTING_BASELINE")], to, env.generation, env.freshId, to)
    else if acknowledged.value.generation != env.generation || Drops(acknowledged.value.counters, to) then
      Pending([Note("ACCOUNTING_REBASELINE")], to, env.generation, env.freshId, to)
    else
      Pending([], acknowledged.value.counters, env.generation, env.freshId, to)
  }

  function Acknowledged(j: Journal): Journal
    requires j.pending.Some?
  {
    var p := j.pending.value;
    j.(acknowledged := Some(Checkpoint(p.to, p.generation, p.sampleId)), pending := None)
  }

  function Quarantined(j: Journal, env: Env): Journal
    requires j.pending.Some?
  {
    var previous, to := j.pending.value, Encode(env.counters);
    Journal(
      Some(Checkpoint(previous.to, previous.generation, previous.sampleId)),
      Some(Pending([Note("ACCOUNTING_QUARANTINED"), Note("ACCOUNTING_REBASELINE")],
                   to, env.generation, env.freshId, to)),
      Some(Quarantine(previous.generation, previous.sampleId)))
  }

  /** The journal on disk after a write. */
  function OnDisk(before: Journal, after: Journal, outcome: WriteOutcome): Journal {
    if outcome == FailedBeforeRename then before else after
  }

  /** Hands out the pending sample, or takes and stores a new one. */
  function Serve(j: Journal, extra: seq<Diagnostic>, env: Env): (Journal, Reply) {
    if j.pending.Some? then (j, Served(j.pending.value, extra))
    else if env.readFails then (j, Failed)
    else
      var p := Fresh(j.acknowledged, env);
      var next := j.(pending := Some(p));
      (OnDisk(j, next, env.secondWrite), if env.secondWrite == Written then Served(p, extra) else Failed)
  }

  /** One call as a whole: the journal it leaves on disk, and its reply. */
  function Call(j: Journal, ack: string, quarantine: string, env: Env): (Journal, Reply) {
    var isPending := (id: string) => j.pending.Some? && id == j.pending.value.sampleId;
    if !env.journalReadable then (j, Failed)
    else if ack != "" && quarantine != "" then Serve(j, [Note("ACCOUNTING_ACTION_INVALID")], env)
    else if ack != "" then
      if isPending(ack) then
        if env.firstWrite == Written then Serve(Acknowledged(j), [], env)
        else (OnDisk(j, Acknowledged(j), env.firstWrite), Failed)
      else if j.acknowledged.None? || ack != j.acknowledged.value.sampleId then
        Serve(j, [Note("ACCOUNTING_ACK_UNKNOWN")], env)
      else Serve(j, [], env)
    else if quarantine != "" then
      if isPending(quarantine) then
        if env.readFails then (j, Failed)
        else if env.firstWrite == Written then Serve(Quarantined(j, env), [], env)
        else (OnDisk(j, Quarantined(j, env), env.firstWrite), Failed)
      else if j.quarantined.None? || j.quarantined.value.sampleId != quarantine then
        Serve(j, [Note("ACCOUNTING_QUARANTINE_UNKNOWN")], env)
      else Serve(j, [], env)
    else Serve(j, [], env)
  }

  // ---- The service ----

  class AccountingSnapshotService {
    /** The journal file; no file reads as an empty journal. */
    var disk: Journal

    constructor ()
      ensures disk == NO_JOURNAL
    {
      disk := NO_JOURNAL;
    }

    method WriteJournal(value: Journal, outcome: WriteOutcome) returns (ok: bool)
      modifies this
      ensures disk == OnDisk(old(disk), value, outcome)
      ensures ok <==> outcome == Written
    {
      if outcome == FailedBeforeRename {
        return false;
      }
      disk := value;
      return outcome == Written;
    }

    static method EncodeCounters(counters: map<string, int>) returns (to: Counters)
      ensures to == Encode(counters)
    {
      to := map[];
      var rest := counters.Keys;
      while rest != {}
        invariant rest <= counters.Keys
        invariant to.Keys == counters.Keys - rest
        invariant forall name :: name in to ==> to[name] == Num(counters[name])
        decreases |rest|
      {
        var name :| name in rest;
        to := to[name := Num(counters[name])];
        rest := rest - {name};
      }
    }

    static method CounterDropped(from: Counters, to: Counters) returns (dropped: bool)
      ensures dropped <==> Drops(from, to)
    {
      dropped := false;
      var rest := to.Keys;
      while rest != {}
        invariant rest <= to.Keys
        invariant dropped <==>
                  exists name :: name in to && name !in rest && ParseInt64(to, name) < ParseInt64(from, name)
        decreases |rest|
      {
        var name :| name in rest;
        if ParseInt64(to, name) < ParseInt64(from, name) {
          dropped := true;
        }
        rest := rest - {name};
      }
    }

    /** `Snapshot`: None stands for an error. */
    method Snapshot(ack: string, quarantine: string, env: Env) returns (reply: Option<Response>)
      modifies this
      ensures disk == Call(old(disk), ack, quarantine, env).0
      ensures match Call(old(disk), ack, quarantine, env).1
              case Failed => reply == None
              case Served(sample, extra) => reply.Some? && Renders(reply.value, sample, extra)
    {
      hide Renders, Drops, Encode;
      if !env.journalReadable {
        return None;
      }
      var journal := disk;
      var extra: seq<Diagnostic> := [];
      if ack != "" && quarantine != "" {
        extra := [Note("ACCOUNTING_ACTION_INVALID")];
      } else if ack != "" {
        if journal.pending.Some? && ack == journal.pending.value.sampleId {
          var p := journal.pending.value;
          journal := journal.(acknowledged := Some(Checkpoint(p.to, p.generation, p.sampleId)));
          journal := journal.(pending := None);
          var ok := WriteJournal(journal, env.firstWrite);
          if !ok {
            return None;
          }
        } else if journal.acknowledged.None? || ack != journal.acknowledged.value.sampleId {
          extra := [Note("ACCOUNTING_ACK_UNKNOWN")];
        }
      } else if quarantine != "" {
        if journal.pending.Some? && quarantine == journal.pending.value.sampleId {
          if env.readFails {
            return None;
          }
          var to := EncodeCounters(env.counters);
          var previous := journal.pending.value;
          journal := journal.(acknowledged := Some(Checkpoint(previous.to, previous.generation, previous.sampleId)));
          journal := journal.(quarantined := Some(Quarantine(previous.generation, previous.sampleId)));
          journal := journal.(pending := Some(
            Pending([Note("ACCOUNTING_QUARANTINED"), Note("ACCOUNTING_REBASELINE")],
                    to, env.generation, env.freshId, to)));
          var ok := WriteJournal(journal, env.firstWrite);
          if !ok {
            return None;
          }
        } else if journal.quarantined.None? || journal.quarantined.value.sampleId != quarantine {
          extra := [Note("ACCOUNTING_QUARANTINE_UNKNOWN")];
        }
      }
      reply := ServePending(journal, extra, env);
    }

    method ServePending(current: Journal, extra: seq<Diagnostic>, env: Env) returns (reply: Option<Response>)
      requires disk == current
      modifies this
      ensures disk == Serve(current, extra, env).0
      ensures match Serve(current, extra, env).1
              case Failed => reply == None
              case Served(sample, extra) => reply.Some? && Renders(reply.value, sample, extra)
    {
      hide Renders, Drops, Encode;
      var journal := current;
      if journal.pending.Some? {
        var response := AccountingResponse(journal.pending.value, extra);
        return Some(response);
      }
      if env.readFails {
        return None;
      }
      var to := EncodeCounters(env.counters);
      var from := to;
      var diagnostics := [Note("ACCOUNTING_BASELINE")];
      if journal.acknowledged.Some? {
        from := journal.acknowledged.value.counters;
        diagnostics := [];
        var rebaseline := journal.acknowledged.value.generation != env.generation;
        var dropped := CounterDropped(from, to);
        if dropped {
          rebaseline := true;
        }
        if rebaseline {
          from := to;
          diagnostics := [Note("ACCOUNTING_REBASELINE")];
        }
      }
      var pending := Pending(diagnostics, from, env.generation, env.freshId, to);
      journal := journal.(pending := Some(pending));
      var ok := WriteJournal(journal, env.secondWrite);
      if !ok {
        return None;
      }
      var response := AccountingResponse(pending, extra);
      return Some(response);
    }
  }
}
