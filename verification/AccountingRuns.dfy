/**
  Runs of the accounting protocol with an idealised client that applies each sample
  id once and acknowledges only what it has applied. The ledger follows one arbitrary
  counter key; quantifying over the key gives the statement for all of them.
 */
module AccountingRuns {
  import opened Wrappers
  import opened CounterNames
  import opened Aggregation
  import opened Accounting

  /** One call, and whether its reply reaches the client. */
  datatype Event = Event(ack: string, quarantine: string, env: Env, delivered: bool)

  /**
    The journal on disk; every sample id that ever reached the disk; the ids the client
    has applied; the ids it quarantined. For the followed key: its total at the last
    baseline and the bytes credited since.
   */
  datatype System = System(
    journal: Journal,
    issued: set<string>,
    applied: set<string>,
    retired: set<string>,
    base: int,
    credit: int)

  const START := System(NO_JOURNAL, {}, {}, {}, 0, 0)

  predicate IsBaseline(p: Pending) {
    p.diagnostics != []
  }

  predicate Takes(s: System, id: string) {
    s.journal.pending.Some? && s.journal.pending.value.sampleId == id
  }

  /** This call quarantines the pending sample and the new journal reaches the disk. */
  predicate Retires(s: System, e: Event) {
    && e.env.journalReadable && !e.env.readFails && e.env.firstWrite != FailedBeforeRename
    && e.ack == "" && e.quarantine != "" && Takes(s, e.quarantine)
  }

  /** A new sample reached the disk. */
  predicate NewSample(s: System, next: Journal) {
    next.pending.Some? && next.pending != s.journal.pending
  }

  ghost function Receive(s: System, reply: Reply, delivered: bool, key: CounterKey): System {
    if delivered && reply.Served? && reply.sample.sampleId !in s.applied then
      s.(applied := s.applied + {reply.sample.sampleId},
         credit := s.credit + Delta(reply.sample.from, reply.sample.to, key))
    else s
  }

  ghost function Step(s: System, e: Event, key: CounterKey): System {
    var (next, reply) := Call(s.journal, e.ack, e.quarantine, e.env);
    var stored := s.(
      journal := next,
      retired := if Retires(s, e) then s.retired + {e.quarantine} else s.retired);
    var numbered :=
      if !NewSample(s, next) then stored
      else if IsBaseline(next.pending.value) then
        stored.(issued := s.issued + {next.pending.value.sampleId},
                base := Total(next.pending.value.to, key),
                credit := 0)
      else stored.(issued := s.issued + {next.pending.value.sampleId});
    Receive(numbered, reply, e.delivered, key)
  }

  /** Counters are int64 values and sample ids are fresh. */
  predicate GoodEnv(s: System, env: Env) {
    && (forall name :: name in env.counters ==> -INT64_MAX - 1 <= env.counters[name] <= INT64_MAX)
    && env.freshId != "" && env.freshId !in s.issued
  }

  /** The client acknowledges only samples it applied and quarantines only samples it did not apply. */
  predicate GoodClient(s: System, e: Event) {
    && (e.ack != "" && e.quarantine == "" && Takes(s, e.ack) ==> e.ack in s.applied)
    && (e.ack == "" && e.quarantine != "" && Takes(s, e.quarantine) ==> e.quarantine !in s.applied)
  }

  /** No spelling of the followed counter vanishes while one core process runs; other counters may. */
  predicate NoVanishing(acknowledged: Option<Checkpoint>, env: Env, key: CounterKey) {
    acknowledged.Some? && acknowledged.value.generation == env.generation ==>
      forall spelling :: spelling in {Legacy(key), Canonical(key)} && spelling in acknowledged.value.counters ==>
        spelling in env.counters
  }

  /**
    All that conservation needs of a sample taken against `acknowledged`: it is a baseline,
    or the followed counter is still there and has not shrunk, or is gone and was 0.
   */
  ghost predicate Continues(acknowledged: Option<Checkpoint>, env: Env, key: CounterKey) {
    var p := Fresh(acknowledged, env);
    IsBaseline(p)
    || (if Present(p.to, p.to.Keys, key) then Total(p.from, key) <= Total(p.to, key) else Total(p.from, key) == 0)
  }

  /** What the sample taken during this call is measured against. */
  function Measured(s: System, e: Event): Option<Checkpoint> {
    if e.ack != "" && e.quarantine == "" && Takes(s, e.ack)
    then Acknowledged(s.journal).acknowledged else s.journal.acknowledged
  }

  ghost function Run(events: seq<Event>, key: CounterKey): System {
    if events == [] then START else Step(Run(events[..|events| - 1], key), events[|events| - 1], key)
  }

  /** A run in a fresh-id environment, with any client at all. */
  ghost predicate Possible(events: seq<Event>, key: CounterKey) {
    events == [] ||
    (Possible(events[..|events| - 1], key) && GoodEnv(Run(events[..|events| - 1], key), events[|events| - 1].env))
  }

  /** A run with an idealised client, whatever the counters do. */
  ghost predicate ClientRun(events: seq<Event>, key: CounterKey) {
    events == [] ||
    (var before, last := Run(events[..|events| - 1], key), events[|events| - 1];
     ClientRun(events[..|events| - 1], key) && GoodEnv(before, last.env) && GoodClient(before, last))
  }

  /** This call puts a new sample on the disk. */
  predicate Samples(s: System, e: Event) {
    NewSample(s, Call(s.journal, e.ack, e.quarantine, e.env).0)
  }

  /** This call puts a new baseline on the disk. */
  predicate Rebaselines(s: System, e: Event) {
    Samples(s, e) && IsBaseline(Call(s.journal, e.ack, e.quarantine, e.env).0.pending.value)
  }

  /** In every sample taken since the last baseline of the run the followed counter continues. */
  ghost predicate ContinuesSinceBaseline(events: seq<Event>, key: CounterKey) {
    events == [] ||
    (var before, last := Run(events[..|events| - 1], key), events[|events| - 1];
     || Rebaselines(before, last)
     || (&& ContinuesSinceBaseline(events[..|events| - 1], key)
         && (Samples(before, last) ==> Continues(Measured(before, last), last.env, key))))
  }

  // ---- The journal chain ----

  predicate IsInt64(m: Counters) {
    forall name :: name in m ==> m[name].Num? && -INT64_MAX - 1 <= m[name].value <= INT64_MAX
  }

  /**
    A pending sample is a fresh baseline, or it starts exactly where the acknowledged
    sample ended, in the same generation, with no counter running backwards.
   */
  predicate Chained(j: Journal) {
    && (j.acknowledged.Some? ==> IsInt64(j.acknowledged.value.counters))
    && (j.pending.Some? ==>
          var p := j.pending.value;
          && IsInt64(p.to)
          && (if IsBaseline(p) then p.from == p.to
              else && j.acknowledged.Some?
                   && p.from == j.acknowledged.value.counters
                   && p.generation == j.acknowledged.value.generation
                   && !Drops(p.from, p.to))
          && (j.acknowledged.Some? ==> j.acknowledged.value.sampleId != p.sampleId))
  }

  predicate IdsKnown(s: System) {
    && (s.journal.pending.Some? ==> s.journal.pending.value.sampleId in s.issued)
    && (s.journal.acknowledged.Some? ==> s.journal.acknowledged.value.sampleId in s.issued)
    && s.applied <= s.issued && s.retired <= s.issued
    && (s.journal.pending.Some? ==> s.journal.pending.value.sampleId !in s.retired)
  }

  lemma EncodeIsInt64(env: Env)
    requires forall name :: name in env.counters ==> -INT64_MAX - 1 <= env.counters[name] <= INT64_MAX
    ensures IsInt64(Encode(env.counters))
  {
  }

  /** How one call can change the journal; everything else leaves it alone. */
  lemma CallCases(s: System, e: Event)
    ensures var next := Call(s.journal, e.ack, e.quarantine, e.env).0;
            var j := s.journal;
            || next == j
            || (e.ack != "" && e.quarantine == "" && Takes(s, e.ack)
                && (next == Acknowledged(j)
                    || next == Acknowledged(j).(pending := Some(Fresh(Acknowledged(j).acknowledged, e.env)))))
            || (Retires(s, e) && next == Quarantined(j, e.env))
            || (j.pending.None? && next == j.(pending := Some(Fresh(j.acknowledged, e.env))))
    ensures Retires(s, e) ==> Call(s.journal, e.ack, e.quarantine, e.env).0 == Quarantined(s.journal, e.env)
  {
    hide Fresh;
  }

  lemma FreshIsChained(j: Journal, env: Env)
    requires j.pending.None? && Chained(j)
    requires forall name :: name in env.counters ==> -INT64_MAX - 1 <= env.counters[name] <= INT64_MAX
    requires j.acknowledged.Some? ==> j.acknowledged.value.sampleId != env.freshId
    ensures Chained(j.(pending := Some(Fresh(j.acknowledged, env))))
  {
    hide Encode;
    EncodeIsInt64(env);
  }

  lemma StepKeepsChain(s: System, e: Event, key: CounterKey)
    requires Chained(s.journal) && IdsKnown(s) && GoodEnv(s, e.env)
    ensures Chained(Step(s, e, key).journal) && IdsKnown(Step(s, e, key))
  {
    hide Encode, Drops, IsInt64, Call, Fresh, Delta, Total;
    var (next, reply) := Call(s.journal, e.ack, e.quarantine, e.env);
    CallCases(s, e);
    ReplyIsPending(s.journal, e);
    EncodeIsInt64(e.env);
    FreshNames(s.journal.acknowledged, e.env);
    if s.journal.pending.None? {
      FreshIsChained(s.journal, e.env);
    } else {
      FreshIsChained(Acknowledged(s.journal), e.env);
      FreshNames(Acknowledged(s.journal).acknowledged, e.env);
    }
  }

  lemma FreshNames(acknowledged: Option<Checkpoint>, env: Env)
    ensures Fresh(acknowledged, env).sampleId == env.freshId
  {
  }

  /** A reply always shows the sample that is now pending on disk. */
  lemma ReplyIsPending(j: Journal, e: Event)
    ensures var (next, reply) := Call(j, e.ack, e.quarantine, e.env);
            reply.Served? ==> next.pending == Some(reply.sample)
  {
    hide Fresh;
  }

  /**
    Journal chain: in every journal that can be on disk, whatever the clients do and
    wherever calls fail, no sample spans a change of generation or a gap.
   */
  lemma {:induction false} JournalIsChained(events: seq<Event>, key: CounterKey)
    requires Possible(events, key)
    ensures Chained(Run(events, key).journal) && IdsKnown(Run(events, key))
  {
    if events != [] {
      JournalIsChained(events[..|events| - 1], key);
      StepKeepsChain(Run(events[..|events| - 1], key), events[|events| - 1], key);
    }
  }

  // ---- Replay and idempotence ----

  /** Until its id is acknowledged or quarantined, the pending sample stays and is what every reply shows. */
  lemma PendingIsReplayed(j: Journal, e: Event)
    requires j.pending.Some?
    requires e.ack == "" || e.quarantine != "" || e.ack != j.pending.value.sampleId
    requires e.quarantine == "" || e.ack != "" || e.quarantine != j.pending.value.sampleId
    ensures var (next, reply) := Call(j, e.ack, e.quarantine, e.env);
            && next == j
            && (e.env.journalReadable ==> reply.Served? && reply.sample == j.pending.value)
            && (!e.env.journalReadable ==> reply.Failed?)
  {
  }

  /**
    Repeating an acknowledgement whose reply was lost changes nothing more: the journal
    keeps the sample taken meanwhile and the reply carries no diagnostic for it.
   */
  lemma RepeatedAckIsIdempotent(j: Journal, e: Event)
    requires Chained(j) && j.pending.Some? && j.acknowledged.Some?
    requires e.ack == j.acknowledged.value.sampleId && e.ack != "" && e.quarantine == "" && e.env.journalReadable
    ensures Call(j, e.ack, e.quarantine, e.env) == (j, Served(j.pending.value, []))
  {
  }

  lemma RepeatedQuarantineIsIdempotent(j: Journal, e: Event)
    requires j.pending.Some? && j.quarantined.Some? && j.pending.value.sampleId != e.quarantine
    requires e.quarantine == j.quarantined.value.sampleId && e.quarantine != "" && e.ack == "" && e.env.journalReadable
    ensures Call(j, e.ack, e.quarantine, e.env) == (j, Served(j.pending.value, []))
  {
  }

  /**
    A quarantine that reached the disk is remembered, whatever became of its reply: the
    same call again changes nothing, shows the sample that is pending now, and raises no
    diagnostic.
   */
  lemma QuarantineIsRemembered(j: Journal, q: string, env: Env, again: Env)
    requires j.pending.Some? && q == j.pending.value.sampleId && q != "" && env.freshId != q
    requires env.journalReadable && !env.readFails && env.firstWrite != FailedBeforeRename && again.journalReadable
    ensures var next := Call(j, "", q, env).0;
            next.pending.Some? && Call(next, "", q, again) == (next, Served(next.pending.value, []))
  {
    hide Encode;
  }

  /** An acknowledgement that reached the disk is remembered too, with or without a new sample. */
  lemma AckIsRemembered(j: Journal, a: string, env: Env, again: Env)
    requires j.pending.Some? && a == j.pending.value.sampleId && a != "" && env.freshId != a
    requires env.journalReadable && env.firstWrite != FailedBeforeRename && again.journalReadable
    ensures var next := Call(j, a, "", env).0;
            var (third, reply) := Call(next, a, "", again);
            && (next.pending.Some? ==> third == next && reply == Served(next.pending.value, []))
            && (reply.Served? ==> reply.extra == [])
  {
    hide Encode, Drops;
  }

  /** With a readable journal, readable counters and writes that succeed every call is answered. */
  lemma CallsAreAnswered(j: Journal, ack: string, quarantine: string, env: Env)
    requires env.journalReadable && !env.readFails && env.firstWrite == Written && env.secondWrite == Written
    ensures Call(j, ack, quarantine, env).1.Served?
  {
    hide Encode, Drops;
  }

  /** The one diagnostic a reply adds to those of its sample. */
  lemma WhatRepliesComplainOf(j: Journal, ack: string, quarantine: string, env: Env)
    requires Call(j, ack, quarantine, env).1.Served?
    ensures var pending := if j.pending.Some? then {j.pending.value.sampleId} else {};
            var acknowledged := if j.acknowledged.Some? then {j.acknowledged.value.sampleId} else {};
            var quarantined := if j.quarantined.Some? then {j.quarantined.value.sampleId} else {};
            Call(j, ack, quarantine, env).1.extra ==
              if ack != "" && quarantine != "" then [Diagnostic("ACCOUNTING_ACTION_INVALID", 0)]
              else if ack != "" && ack !in pending + acknowledged then [Diagnostic("ACCOUNTING_ACK_UNKNOWN", 0)]
              else if quarantine != "" && quarantine !in pending + quarantined then
                [Diagnostic("ACCOUNTING_QUARANTINE_UNKNOWN", 0)]
              else []
  {
    hide Encode, Fresh;
  }

  /** What a counter showed, 0 if it was not there. */
  function Shown(m: Counters, name: string): int {
    if name in m && m[name].Num? then m[name].value else 0
  }

  /**
    The sample a call takes ends at exactly the counters it read. It starts where the
    acknowledged one ended if and only if the same core process still runs and no counter
    shows less than then; otherwise it is a baseline, and says which.
   */
  lemma WhatASampleSpans(acknowledged: Option<Checkpoint>, env: Env)
    requires forall name :: name in env.counters ==> -INT64_MAX - 1 <= env.counters[name] <= INT64_MAX
    requires acknowledged.Some? ==> IsInt64(acknowledged.value.counters)
    ensures var p := Fresh(acknowledged, env);
            && p.sampleId == env.freshId && p.generation == env.generation
            && p.to.Keys == env.counters.Keys
            && (forall name :: name in env.counters ==> p.to[name] == Num(env.counters[name]))
            && (if acknowledged.None? then
                  p.from == p.to && p.diagnostics == [Diagnostic("ACCOUNTING_BASELINE", 0)]
                else if && acknowledged.value.generation == env.generation
                        && (forall name :: name in env.counters ==>
                              Shown(acknowledged.value.counters, name) <= env.counters[name]) then
                  p.from == acknowledged.value.counters && p.diagnostics == []
                else
                  p.from == p.to && p.diagnostics == [Diagnostic("ACCOUNTING_REBASELINE", 0)])
  {
    var to := Encode(env.counters);
    if acknowledged.Some? {
      var from := acknowledged.value.counters;
      forall name | name in env.counters
        ensures ParseInt64(to, name) == env.counters[name] && ParseInt64(from, name) == Shown(from, name)
      {
      }
    }
  }

  /** A quarantine takes up the counters it reads as a new baseline and names the sample it sets aside. */
  lemma WhatAQuarantineLeaves(j: Journal, q: string, env: Env)
    requires j.pending.Some? && q == j.pending.value.sampleId && q != ""
    requires env.journalReadable && !env.readFails && env.firstWrite != FailedBeforeRename
    ensures var next := Call(j, "", q, env).0;
            && next.quarantined.Some? && next.quarantined.value.sampleId == q
            && next.quarantined.value.generation == j.pending.value.generation
            && next.acknowledged.Some? && next.acknowledged.value.counters == j.pending.value.to
            && next.pending.Some? && next.pending.value.sampleId == env.freshId
            && next.pending.value.from == next.pending.value.to
            && next.pending.value.to.Keys == env.counters.Keys
            && (forall name :: name in env.counters ==> next.pending.value.to[name] == Num(env.counters[name]))
            && next.pending.value.generation == env.generation
            && next.pending.value.diagnostics ==
                 [Diagnostic("ACCOUNTING_QUARANTINED", 0), Diagnostic("ACCOUNTING_REBASELINE", 0)]
  {
  }

  // ---- Conservation ----

  /** A sample's row equals the true difference exactly when that is not negative and the counter is still there. */
  lemma DeltaIsExactIff(from: Counters, to: Counters, key: CounterKey)
    requires ValidKey(key)
    ensures Delta(from, to, key) == Total(to, key) - Total(from, key) <==>
            if Present(to, to.Keys, key) then Total(from, key) <= Total(to, key) else Total(from, key) == 0
  {
    AbsentSumIsZero(to, to.Keys, key);
  }

  /** A counter that keeps its spellings continues. */
  lemma NoVanishingContinues(acknowledged: Option<Checkpoint>, env: Env, key: CounterKey)
    requires NoVanishing(acknowledged, env, key) && ValidKey(key)
    requires forall name :: name in env.counters ==> -INT64_MAX - 1 <= env.counters[name] <= INT64_MAX
    requires acknowledged.Some? ==> IsInt64(acknowledged.value.counters)
    ensures Continues(acknowledged, env, key)
  {
    var p := Fresh(acknowledged, env);
    if !IsBaseline(p) {
      EncodeIsInt64(env);
      SpellingGrows(p.from, p.to, Legacy(key));
      SpellingGrows(p.from, p.to, Canonical(key));
    }
  }

  lemma SpellingGrows(from: Counters, to: Counters, spelling: string)
    requires IsInt64(from) && IsInt64(to) && !Drops(from, to) && (spelling in from ==> spelling in to)
    ensures Amount(from, from.Keys, spelling) <= Amount(to, to.Keys, spelling)
    ensures Counted(from, from.Keys, spelling) ==> Counted(to, to.Keys, spelling)
  {
    if spelling in to {
      assert ParseInt64(to, spelling) >= ParseInt64(from, spelling);
    }
  }

  /** Bytes credited since the last baseline, against what the journal has acknowledged or pending. */
  ghost predicate Balanced(s: System, key: CounterKey) {
    match s.journal.pending
    case None =>
      if s.journal.acknowledged.None? then s.credit == 0
      else s.credit == Total(s.journal.acknowledged.value.counters, key) - s.base
    case Some(p) =>
      && (!IsBaseline(p) ==> Delta(p.from, p.to, key) == Total(p.to, key) - Total(p.from, key))
      && s.credit == Total(p.from, key) - s.base
                     + (if p.sampleId in s.applied then Delta(p.from, p.to, key) else 0)
  }

  /** Taking a sample keeps the balance if and only if the followed counter continues. */
  lemma FreshIsBalancedIff(s: System, env: Env, key: CounterKey)
    requires ValidKey(key) && IdsKnown(s) && GoodEnv(s, env)
    requires s.journal.pending.None? && Balanced(s, key)
    ensures var p := Fresh(s.journal.acknowledged, env);
            var next := s.journal.(pending := Some(p));
            Balanced(if IsBaseline(p) then s.(journal := next, base := Total(p.to, key), credit := 0)
                     else s.(journal := next), key)
            <==> Continues(s.journal.acknowledged, env, key)
    ensures var p := Fresh(s.journal.acknowledged, env);
            if IsBaseline(p) then Continues(s.journal.acknowledged, env, key)
            else Delta(p.from, p.to, key) == Total(p.to, key) - Total(p.from, key) <==>
                  Continues(s.journal.acknowledged, env, key)
  {
    hide Total, Drops, Delta;
    var p := Fresh(s.journal.acknowledged, env);
    BaselineHasNoDelta(p.to, key);
    DeltaIsExactIff(p.from, p.to, key);
  }

  lemma BaselineHasNoDelta(to: Counters, key: CounterKey)
    ensures Delta(to, to, key) == 0
  {
  }

  lemma AckIsBalanced(s: System, key: CounterKey)
    requires s.journal.pending.Some? && Chained(s.journal) && Balanced(s, key)
    requires s.journal.pending.value.sampleId in s.applied
    ensures Balanced(s.(journal := Acknowledged(s.journal)), key)
    ensures Chained(Acknowledged(s.journal))
  {
    hide Total, Drops, Delta;
    BaselineHasNoDelta(s.journal.pending.value.to, key);
  }

  lemma QuarantineIsBalanced(s: System, env: Env, key: CounterKey)
    requires s.journal.pending.Some?
    ensures var next := Quarantined(s.journal, env);
            var p := next.pending.value;
            && p.sampleId == env.freshId && IsBaseline(p)
            && Balanced(s.(journal := next, base := Total(p.to, key), credit := 0), key)
  {
    hide Total, Delta, Encode;
    BaselineHasNoDelta(Quarantined(s.journal, env).pending.value.to, key);
  }

  /** A call that puts a baseline on the disk balances the books, whatever they were before. */
  lemma BaselineBalances(s: System, e: Event, key: CounterKey)
    requires Rebaselines(s, e)
    requires Chained(s.journal) && IdsKnown(s) && GoodEnv(s, e.env)
    ensures Balanced(Step(s, e, key), key)
  {
    hide Total, Drops, Delta, IsInt64, Encode, Call, Fresh;
    StepKeepsChain(s, e, key);
    ReplyIsPending(s.journal, e);
    BaselineHasNoDelta(Step(s, e, key).journal.pending.value.to, key);
  }

  /** From balanced books, a call leaves them balanced if and only if the sample it takes, if any, continues. */
  lemma StepBalanceIff(s: System, e: Event, key: CounterKey)
    requires ValidKey(key) && Chained(s.journal) && IdsKnown(s) && Balanced(s, key)
    requires GoodEnv(s, e.env) && GoodClient(s, e)
    ensures Balanced(Step(s, e, key), key) <==>
            (Samples(s, e) && !Rebaselines(s, e) ==> Continues(Measured(s, e), e.env, key))
  {
    hide Total, Drops, Delta, IsInt64, ValidKey, Encode, Call, Fresh, Continues;
    var j := s.journal;
    CallCases(s, e);
    ReplyIsPending(j, e);
    if j.pending.Some? {
      QuarantineIsBalanced(s, e.env, key);
      if j.pending.value.sampleId in s.applied {
        AckIsBalanced(s, key);
        FreshNames(Acknowledged(j).acknowledged, e.env);
        if e.ack != "" && e.quarantine == "" && Takes(s, e.ack) {
          FreshIsBalancedIff(s.(journal := Acknowledged(j)), e.env, key);
        }
      }
    } else {
      FreshIsBalancedIff(s, e.env, key);
      FreshNames(j.acknowledged, e.env);
    }
  }

  lemma {:induction false} ClientRunsArePossible(events: seq<Event>, key: CounterKey)
    requires ClientRun(events, key)
    ensures Possible(events, key)
  {
    if events != [] {
      ClientRunsArePossible(events[..|events| - 1], key);
    }
  }

  /**
    Exactly-once conservation: in every run with an idealised client, wherever calls fail,
    replies are lost or acknowledgements repeated, the bytes credited for a counter since
    the last baseline are the last acknowledged total minus the baseline total, plus the
    pending sample if the client has applied it. Only the samples since that baseline
    matter, and of them only that the followed counter continues.
   */
  lemma {:induction false} CreditsAreConserved(events: seq<Event>, key: CounterKey)
    requires ClientRun(events, key) && ContinuesSinceBaseline(events, key) && ValidKey(key)
    ensures Balanced(Run(events, key), key)
  {
    if events != [] {
      var init, last := events[..|events| - 1], events[|events| - 1];
      var before := Run(init, key);
      ClientRunsArePossible(init, key);
      JournalIsChained(init, key);
      if Rebaselines(before, last) {
        BaselineBalances(before, last, key);
      } else {
        CreditsAreConserved(init, key);
        StepBalanceIff(before, last, key);
      }
    }
  }

  lemma StepKeepsRetiredApart(s: System, e: Event, key: CounterKey)
    requires Chained(s.journal) && IdsKnown(s) && GoodEnv(s, e.env) && GoodClient(s, e)
    requires s.retired !! s.applied
    ensures Step(s, e, key).retired !! Step(s, e, key).applied
  {
    StepKeepsChain(s, e, key);
    ReplyIsPending(s.journal, e);
    hide Call, Chained, Delta, Total;
  }

  /** A quarantined sample is never credited: its id is retired unapplied and no reply shows it again. */
  lemma {:induction false} QuarantinedIsNeverCredited(events: seq<Event>, key: CounterKey)
    requires ClientRun(events, key)
    ensures Run(events, key).retired !! Run(events, key).applied
  {
    if events != [] {
      var init := events[..|events| - 1];
      QuarantinedIsNeverCredited(init, key);
      ClientRunsArePossible(init, key);
      JournalIsChained(init, key);
      StepKeepsRetiredApart(Run(init, key), events[|events| - 1], key);
    }
  }

  // ---- A counter that vanishes ----

  /** A call in which everything works. */
  function Reading(ack: string, counters: map<string, int>, id: string): Event {
    Event(ack, "", Env(true, false, counters, "g", id, Written, Written), true)
  }

  /** A baseline, a sample in which the counter is gone, and one in which it is back. */
  function Vanishing(key: CounterKey, seen: int, later: int): seq<Event> {
    [Reading("", map[Legacy(key) := seen], "a"), Reading("a", map[], "b"), Reading("b", map[Legacy(key) := later], "c")]
  }

  /** The first sample: everything the counter shows is the baseline. */
  lemma FirstReading(key: CounterKey, seen: int)
    requires ValidKey(key)
    ensures var m: Counters := map[Legacy(key) := Num(seen)];
            Step(START, Reading("", map[Legacy(key) := seen], "a"), key)
            == System(Journal(None, Some(Pending([Note("ACCOUNTING_BASELINE")], m, "g", "a", m)), None),
                      {"a"}, {"a"}, {}, Total(m, key), 0)
  {
    hide Total, Delta;
    var e := Reading("", map[Legacy(key) := seen], "a");
    assert Encode(e.env.counters) == map[Legacy(key) := Num(seen)];
    BaselineHasNoDelta(Encode(e.env.counters), key);
  }

  /** Acknowledging a sample and taking the next, with no counter running backwards. */
  lemma NextReading(s: System, p: Pending, counters: map<string, int>, id: string, key: CounterKey)
    requires s.journal.pending == Some(p) && p.generation == "g" && p.sampleId != "" && id !in s.applied
    requires id != p.sampleId
    requires !Drops(p.to, Encode(counters))
    ensures var to := Encode(counters);
            Step(s, Reading(p.sampleId, counters, id), key)
            == s.(journal := Journal(Some(Checkpoint(p.to, "g", p.sampleId)), Some(Pending([], p.to, "g", id, to)),
                                     s.journal.quarantined),
                  issued := s.issued + {id},
                  applied := s.applied + {id},
                  credit := s.credit + Delta(p.to, to, key))
  {
    hide Encode, Drops, Delta, Total;
  }

  lemma OneCounter(key: CounterKey, value: int)
    requires ValidKey(key)
    ensures var m: Counters := map[Legacy(key) := Num(value)];
            Encode(map[Legacy(key) := value]) == m && Total(m, key) == value && Present(m, m.Keys, key)
    ensures Encode(map[]) == map[] && Total(map[], key) == 0 && !Present(map[], {}, key)
  {
    SpellingsAreDistinct(key, key);
    hide ValidKey, Legacy, Canonical;
    assert Encode(map[Legacy(key) := value]) == map[Legacy(key) := Num(value)];
  }

  /** Between nothing and one counter nothing runs backwards, and only the return counts as traffic. */
  lemma VanishingDeltas(key: CounterKey, seen: int, later: int)
    requires ValidKey(key) && 0 < seen <= later <= INT64_MAX
    ensures var before: Counters := map[Legacy(key) := Num(seen)];
            var back: Counters := map[Legacy(key) := Num(later)];
            && !Drops(before, map[]) && !Drops(map[], back)
            && Delta(before, map[], key) == 0 && Delta(map[], back, key) == later
  {
    OneCounter(key, seen);
    OneCounter(key, later);
    hide ValidKey, Legacy, Canonical, Total, Present;
  }

  lemma RunThree(a: Event, b: Event, c: Event, key: CounterKey)
    ensures Run([a], key) == Step(START, a, key)
    ensures Run([a, b], key) == Step(Run([a], key), b, key)
    ensures Run([a, b, c], key) == Step(Run([a, b], key), c, key)
    ensures ClientRun([a, b, c], key) <==>
            && GoodEnv(START, a.env) && GoodEnv(Run([a], key), b.env) && GoodEnv(Run([a, b], key), c.env)
            && GoodClient(START, a) && GoodClient(Run([a], key), b) && GoodClient(Run([a, b], key), c)
  {
    hide Step, GoodEnv, GoodClient;
    assert [a, b, c][..2] == [a, b] && [a, b][..1] == [a] && [a][..0] == [];
    assert Run([], key) == START && ClientRun([], key);
    assert ClientRun([a], key) <==> GoodEnv(START, a.env) && GoodClient(START, a);
    assert ClientRun([a, b], key) <==>
          ClientRun([a], key) && GoodEnv(Run([a], key), b.env) && GoodClient(Run([a], key), b);
  }

  /**
    What happens when it does not continue: in this run with an ideal client the counter
    is credited everything it shows at its return, which is what was seen before too much,
    and the books are out of balance.
   */
  lemma VanishingCounterIsOvercredited(key: CounterKey, seen: int, later: int)
    requires ValidKey(key) && 0 < seen <= later <= INT64_MAX
    ensures var run := Run(Vanishing(key, seen, later), key);
            && ClientRun(Vanishing(key, seen, later), key)
            && run.credit == later && run.base == seen && !Balanced(run, key)
  {
    var before: Counters, back: Counters := map[Legacy(key) := Num(seen)], map[Legacy(key) := Num(later)];
    var a, b, c :=
      Reading("", map[Legacy(key) := seen], "a"),
      Reading("a", map[], "b"),
      Reading("b", map[Legacy(key) := later], "c");
    OneCounter(key, seen);
    OneCounter(key, later);
    VanishingDeltas(key, seen, later);
    RunThree(a, b, c, key);
    FirstReading(key, seen);
    hide Step, Run, ClientRun, Total, Delta, Drops, Encode, Legacy, ValidKey;
    NextReading(Run([a], key), Run([a], key).journal.pending.value, map[], "b", key);
    NextReading(Run([a, b], key), Run([a, b], key).journal.pending.value, map[Legacy(key) := later], "c", key);
  }
}
