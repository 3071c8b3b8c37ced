/**
  The life of the core process. Start, Stop, Health and RunningConfig calls, and one
  monitor for each core ever spawned, interleave freely; what happens between taking and
  releasing `mu` is one step, except where a call waits for a core to exit while holding
  it. Everything the outside world decides (whether a ping is answered, a spawn succeeds,
  a wait times out, hashes match) is the `choice` of a step.
 */
module Lifecycle {
  import opened Wrappers

  type Tid = nat

  /** How far a core's monitor has got: in Wait, past it, past sending on `done`, past updating the manager. */
  datatype Phase = InWait | Reaped | DoneSent | Over

  /**
    `exposed` is the configuration served when the core was spawned, `fetched` the one it
    fetched over the internal socket, once it has.
   */
  datatype Core = Core(exposed: string, alive: bool, phase: Phase, fetched: Option<string>)

  datatype Outcome =
    | Rejected
    | Started(ok: bool)
    | Stopped(ok: bool)
    | Healthy(online: bool)
    | Busy | NotRunning | Unavailable | Running(json: string)

  datatype Pc =
    // Start
    | StartBegin(json: string)
    | StartTryLock(json: string)
    | StartGuard(json: string)
    | StartRead(json: string)
    | StartPing(json: string)
    | StartCompare(json: string)
    | StartSkip(json: string)
    | StartOffline(json: string)
    | StartPrepare(json: string)
    | StartStop(json: string)
    | StartStopping(json: string)
    | StartSpawn(json: string)
    | StartWait(json: string)
    | StartOnline(json: string)
    | StartAbort
    | StartAborting
    | StartUnlock(ok: bool)
    | StartLeave(ok: bool)
    // Stop
    | StopLock
    | StopBegin
    | StopStopping
    | StopUnlock(ok: bool)
    // Health
    | HealthRead
    | HealthPing
    | HealthWrite(online: bool)
    // RunningConfig
    | RunningLock
    | RunningRead
    | RunningPing(online: bool, snapshot: string)
    | RunningUnlock(outcome: Outcome)
    | Finished(outcome: Outcome)

  /** The manager. `cores` in the order they were spawned; `mu` names a call that waits while holding it. */
  datatype Manager = Manager(
    lifecycle: Option<Tid>,
    mu: Option<Tid>,
    startProcessing: bool,
    online: bool,
    current: string,
    running: string,
    process: Option<nat>,
    cores: seq<Core>)

  datatype State = State(m: Manager, calls: map<Tid, Pc>)

  /** What a call's step leads to. */
  datatype Effect = To(m: Manager, pc: Pc)

  datatype Action =
    | Enter(tid: Tid, call: Pc)
    | Step(tid: Tid, choice: bool)
    | Fetch(core: nat)
    | Die(core: nat)
    | Monitor(core: nat)

  const INIT := State(Manager(None, None, false, false, "", "", None, []), map[])

  predicate IsCall(pc: Pc) {
    pc.StartBegin? || pc.StopLock? || pc.HealthRead? || pc.RunningLock?
  }

  predicate SomeAlive(m: Manager) {
    exists i :: 0 <= i < |m.cores| && m.cores[i].alive
  }

  /** A core answers pings once it has its configuration. */
  predicate Answers(c: Core) {
    c.alive && c.fetched.Some?
  }

  predicate SomeAnswers(m: Manager) {
    exists i :: 0 <= i < |m.cores| && Answers(m.cores[i])
  }

  /** `CurrentConfigJSON`: what the internal socket serves. */
  function Served(json: string): string {
    if json == "" then "{}" else json
  }

  // ---- Steps ----

  /** Entry of `stopProcessLocked`: done at once without a process, otherwise wait. */
  function BeginStopping(m: Manager, t: Tid, clear: bool, gone: Pc, wait: Pc): Effect {
    if m.process.None? then
      To(m.(running := "", online := false, current := if clear then "" else m.current), gone)
    else
      To(m.(running := "", mu := Some(t)), wait)
  }

  /** The wait of `stopProcessLocked`: the core's `done` arrives, or both timeouts pass. */
  function EndStopping(m: Manager, choice: bool, clear: bool, gone: Pc, timedOut: Pc): Option<Effect> {
    if !choice then Some(To(m.(mu := None), timedOut))
    else if DoneArrived(m) then
      Some(To(m.(mu := None, process := None, online := false, current := if clear then "" else m.current), gone))
    else None
  }

  predicate DoneArrived(m: Manager) {
    m.process.Some? && m.process.value < |m.cores| && m.cores[m.process.value].phase in {DoneSent, Over}
  }

  /** A step that takes no lock, or tries one without blocking; None if it cannot be taken now. */
  function MoveFreely(m: Manager, t: Tid, pc: Pc, choice: bool): Option<Effect> {
    match pc
    case StartTryLock(json) =>
      Some(if m.lifecycle.None? then To(m.(lifecycle := Some(t)), StartGuard(json)) else To(m, StartLeave(false)))
    case StartGuard(json) => Some(To(m, if choice then StartRead(json) else StartUnlock(false)))
    case StartPing(json) =>
      if !choice then Some(To(m, StartOffline(json)))
      else if SomeAnswers(m) then Some(To(m, StartCompare(json))) else None
    case StartPrepare(json) => Some(To(m, if choice then StartStop(json) else StartUnlock(false)))
    case StartStopping(json) => EndStopping(m, choice, false, StartSpawn(json), StartUnlock(false))
    case StartWait(json) =>
      if !choice then Some(To(m, StartAbort))
      else if SomeAnswers(m) then Some(To(m, StartOnline(json))) else None
    case StartAborting => EndStopping(m.(online := false), choice, false, StartUnlock(false), StartUnlock(false))
    case StartUnlock(ok) => Some(To(m.(lifecycle := None), StartLeave(ok)))
    case StopLock => if m.lifecycle.None? then Some(To(m.(lifecycle := Some(t)), StopBegin)) else None
    case StopStopping => EndStopping(m, choice, true, StopUnlock(true), StopUnlock(false))
    case StopUnlock(ok) => Some(To(m.(lifecycle := None), Finished(Stopped(ok))))
    case HealthPing => if choice && !SomeAnswers(m) then None else Some(To(m, HealthWrite(choice)))
    case RunningLock =>
      Some(if m.lifecycle.None? then To(m.(lifecycle := Some(t)), RunningRead) else To(m, Finished(Busy)))
    case RunningPing(online, snapshot) =>
      if !(online && choice) then Some(To(m, RunningUnlock(NotRunning)))
      else if SomeAnswers(m) then Some(To(m, RunningUnlock(if snapshot == "" then Unavailable else Running(snapshot))))
      else None
    case RunningUnlock(outcome) => Some(To(m.(lifecycle := None), Finished(outcome)))
    case _ => None
  }

  predicate TakesMu(pc: Pc) {
    match pc
    case StartBegin(_) => true
    case StartRead(_) => true
    case StartCompare(_) => true
    case StartSkip(_) => true
    case StartOffline(_) => true
    case StartStop(_) => true
    case StartSpawn(_) => true
    case StartOnline(_) => true
    case StartAbort => true
    case StartLeave(_) => true
    case StopBegin => true
    case HealthRead => true
    case HealthWrite(_) => true
    case RunningRead => true
    case _ => false
  }

  /** A step that takes `mu`, which is free. */
  function MoveUnderMu(m: Manager, t: Tid, pc: Pc, choice: bool): Effect
    requires TakesMu(pc)
  {
    match pc
    case StartBegin(json) =>
      if m.startProcessing then To(m, Finished(Rejected)) else To(m.(startProcessing := true), StartTryLock(json))
    case StartRead(json) => To(m, if m.online && choice then StartPing(json) else StartPrepare(json))
    case StartCompare(json) => To(m, if choice then StartSkip(json) else StartPrepare(json))
    case StartSkip(json) => To(m.(current := json), StartUnlock(true))
    case StartOffline(json) => To(m.(online := false), StartPrepare(json))
    case StartStop(json) => BeginStopping(m.(current := json), t, false, StartSpawn(json), StartStopping(json))
    case StartSpawn(json) =>
      if choice then To(Spawned(m), StartWait(json)) else To(m.(online := false), StartUnlock(false))
    case StartOnline(json) => To(m.(online := true, running := json), StartUnlock(true))
    case StartAbort => BeginStopping(m, t, false, StartUnlock(false), StartAborting)
    case StartLeave(ok) => To(m.(startProcessing := false), Finished(Started(ok)))
    case StopBegin => BeginStopping(m, t, true, StopUnlock(true), StopStopping)
    case HealthRead => To(m, if m.process.Some? || m.online then HealthPing else HealthWrite(false))
    case HealthWrite(online) => To(m.(online := online), Finished(Healthy(online)))
    case RunningRead => To(m, RunningPing(m.online, m.running))
  }

  function Spawned(m: Manager): Manager {
    m.(cores := m.cores + [Core(m.current, true, InWait, None)], process := Some(|m.cores|), online := false)
  }

  function Fetched(m: Manager, i: nat): Manager
    requires i < |m.cores|
  {
    m.(cores := m.cores[i := m.cores[i].(fetched := Some(Served(m.current)))])
  }

  function Move(m: Manager, t: Tid, pc: Pc, choice: bool): Option<Effect> {
    if !TakesMu(pc) then MoveFreely(m, t, pc, choice)
    else if m.mu.None? then Some(MoveUnderMu(m, t, pc, choice))
    else None
  }

  function MonitorStep(m: Manager, i: nat): Option<Manager> {
    if i >= |m.cores| then None
    else
      var core := m.cores[i];
      match core.phase
      case InWait => if core.alive then None else Some(m.(cores := m.cores[i := core.(phase := Reaped)]))
      case Reaped => Some(m.(cores := m.cores[i := core.(phase := DoneSent)]))
      case DoneSent =>
        if m.mu.Some? then None
        else
          var m' := m.(cores := m.cores[i := core.(phase := Over)]);
          Some(if m.process == Some(i) then m'.(process := None, online := false) else m')
      case Over => None
  }

  /** None: the action is not possible now. */
  function Next(s: State, a: Action): Option<State> {
    match a
    case Enter(t, call) =>
      if t in s.calls || !IsCall(call) then None else Some(s.(calls := s.calls[t := call]))
    case Step(t, choice) =>
      if t !in s.calls then None
      else
        var e := Move(s.m, t, s.calls[t], choice);
        if e.None? then None else Some(State(e.value.m, s.calls[t := e.value.pc]))
    case Fetch(i) =>
      if i < |s.m.cores| && s.m.cores[i].alive && s.m.cores[i].fetched.None? && s.m.mu.None? then
        Some(s.(m := Fetched(s.m, i)))
      else None
    case Die(i) =>
      if i < |s.m.cores| then Some(s.(m := s.m.(cores := s.m.cores[i := s.m.cores[i].(alive := false)]))) else None
    case Monitor(i) =>
      var m := MonitorStep(s.m, i);
      if m.None? then None else Some(s.(m := m.value))
  }

  function Run(s: State, actions: seq<Action>): Option<State>
    decreases |actions|
  {
    if actions == [] then Some(s)
    else
      var s' := Next(s, actions[0]);
      if s'.None? then None else Run(s'.value, actions[1..])
  }

  // ---- The invariant ----

  /** Between taking and releasing the lifecycle lock. */
  predicate Owns(pc: Pc) {
    match pc
    case StartGuard(_) => true
    case StartRead(_) => true
    case StartPing(_) => true
    case StartCompare(_) => true
    case StartSkip(_) => true
    case StartOffline(_) => true
    case StartPrepare(_) => true
    case StartStop(_) => true
    case StartStopping(_) => true
    case StartSpawn(_) => true
    case StartWait(_) => true
    case StartOnline(_) => true
    case StartAbort => true
    case StartAborting => true
    case StartUnlock(_) => true
    case StopBegin => true
    case StopStopping => true
    case StopUnlock(_) => true
    case RunningRead => true
    case RunningPing(_, _) => true
    case RunningUnlock(_) => true
    case _ => false
  }

  /** Waiting for a core to exit, with `mu` held. */
  predicate Waits(pc: Pc) {
    pc.StartStopping? || pc.StartAborting? || pc.StopStopping?
  }

  /** Between setting and clearing `startProcessing`. */
  predicate Flagged(pc: Pc) {
    match pc
    case StartTryLock(_) => true
    case StartLeave(_) => true
    case StopBegin => false
    case StopStopping => false
    case StopUnlock(_) => false
    case RunningRead => false
    case RunningPing(_, _) => false
    case RunningUnlock(_) => false
    case _ => Owns(pc)
  }

  /** The locks as one call sees them. */
  predicate LocksOf(m: Manager, t: Tid, pc: Pc) {
    && (Owns(pc) <==> m.lifecycle == Some(t))
    && (Waits(pc) <==> m.mu == Some(t))
    && (Flagged(pc) ==> m.startProcessing)
  }

  ghost predicate Locks(s: State) {
    && (forall t :: t in s.calls ==> LocksOf(s.m, t, s.calls[t]))
    && (forall t, u :: t in s.calls && u in s.calls && Flagged(s.calls[t]) && Flagged(s.calls[u]) ==> t == u)
    && (s.m.lifecycle.Some? ==> s.m.lifecycle.value in s.calls)
    && (s.m.mu.Some? ==> s.m.mu == s.m.lifecycle)
  }

  /** A core whose monitor has not reported it is the manager's process, and the last one spawned. */
  ghost predicate Cores(m: Manager) {
    && (m.mu.Some? ==> m.process.Some?)
    && (m.process.Some? ==> m.process.value == |m.cores| - 1)
    && (forall i :: 0 <= i < |m.cores| && m.cores[i].phase in {InWait, Reaped} ==> m.process == Some(i))
    && (forall i :: 0 <= i < |m.cores| && m.cores[i].alive ==> m.cores[i].phase == InWait)
    && (m.running != "" ==> LastServed(m, m.running))
  }

  /** What the call that owns the lifecycle lock relies on. */
  ghost predicate OwnerOk(m: Manager, pc: Pc) {
    match pc
    case StartSpawn(json) => m.process.None? && m.current == json && m.running == ""
    case StartStopping(json) => m.current == json && m.running == ""
    case StartWait(json) => LastExposed(m, json) && m.current == json
    case StartOnline(json) => LastServed(m, json)
    case StartAborting => m.running == ""
    case StopStopping => m.running == ""
    case RunningPing(_, snapshot) => snapshot == m.running
    case _ => true
  }

  /** The last core was spawned with this configuration, and fetched no other. */
  predicate LastExposed(m: Manager, json: string) {
    && m.cores != []
    && (var last := m.cores[|m.cores| - 1]; last.exposed == json && last.fetched in {None, Some(Served(json))})
  }

  /** Besides, it has fetched it. */
  predicate LastServed(m: Manager, json: string) {
    LastExposed(m, json) && m.cores[|m.cores| - 1].fetched.Some?
  }

  ghost predicate Inv(s: State) {
    && Locks(s)
    && Cores(s.m)
    && (s.m.lifecycle.Some? ==> OwnerOk(s.m, s.calls[s.m.lifecycle.value]))
  }

  // ---- Every step of a call keeps it ----

  predicate Mine(lock: Option<Tid>, t: Tid) {
    lock == None || lock == Some(t)
  }

  /** How one call's step may change the lifecycle lock, `mu` and the flag. */
  predicate LifecycleChange(m: Manager, m': Manager, t: Tid, pc': Pc) {
    && (Owns(pc') <==> m'.lifecycle == Some(t))
    && (m'.lifecycle == m.lifecycle || (Mine(m.lifecycle, t) && Mine(m'.lifecycle, t)))
  }

  predicate MuChange(m: Manager, m': Manager, t: Tid, pc': Pc) {
    && (Waits(pc') <==> m'.mu == Some(t))
    && (m'.mu == m.mu || (Mine(m.mu, t) && Mine(m'.mu, t)))
    && (m'.mu.Some? ==> m'.mu == m'.lifecycle)
  }

  predicate FlagChange(m: Manager, m': Manager, pc: Pc, pc': Pc) {
    && (Flagged(pc') ==> m'.startProcessing && (Flagged(pc) || !m.startProcessing))
    && (!Flagged(pc) && !Flagged(pc') ==> m'.startProcessing == m.startProcessing)
  }

  predicate LockChange(m: Manager, m': Manager, t: Tid, pc: Pc, pc': Pc) {
    LifecycleChange(m, m', t, pc') && MuChange(m, m', t, pc') && FlagChange(m, m', pc, pc')
  }

  lemma LocksStep(s: State, m: Manager, t: Tid, pc: Pc)
    requires Locks(s) && t in s.calls && LockChange(s.m, m, t, s.calls[t], pc)
    ensures Locks(State(m, s.calls[t := pc]))
  {
    hide Owns, Waits, Flagged;
  }

  /** Only the owner of the lifecycle lock changes more than `online`, the flag and its own place. */
  predicate OnlyOwnerChanges(m: Manager, m': Manager, t: Tid) {
    || m.lifecycle == Some(t)
    || (m'.current == m.current && m'.running == m.running && m'.process == m.process && m'.cores == m.cores)
  }

  lemma MuStepOwner(m: Manager, t: Tid, pc: Pc, choice: bool)
    requires TakesMu(pc) && (Owns(pc) ==> m.lifecycle == Some(t))
    ensures OnlyOwnerChanges(m, MoveUnderMu(m, t, pc, choice).m, t)
  {
  }

  lemma MuStepLocks(m: Manager, t: Tid, pc: Pc, choice: bool)
    requires LocksOf(m, t, pc) && TakesMu(pc) && m.mu.None?
    ensures var e := MoveUnderMu(m, t, pc, choice); LockChange(m, e.m, t, pc, e.pc)
  {
    var e := MoveUnderMu(m, t, pc, choice);
    assert LifecycleChange(m, e.m, t, e.pc) by { hide Flagged, Waits; }
    assert MuChange(m, e.m, t, e.pc) by { hide Flagged; }
    assert FlagChange(m, e.m, pc, e.pc) by { hide Waits; }
    hide *;
    LockParts(m, e.m, t, pc, e.pc);
  }

  lemma LockParts(m: Manager, m': Manager, t: Tid, pc: Pc, pc': Pc)
    requires LifecycleChange(m, m', t, pc') && MuChange(m, m', t, pc') && FlagChange(m, m', pc, pc')
    ensures LockChange(m, m', t, pc, pc')
  {
  }

  lemma FreeStepLifecycle(m: Manager, t: Tid, pc: Pc, choice: bool)
    requires (Owns(pc) <==> m.lifecycle == Some(t)) && MoveFreely(m, t, pc, choice).Some?
    ensures var e := MoveFreely(m, t, pc, choice).value; LifecycleChange(m, e.m, t, e.pc)
  {
    hide SomeAnswers, DoneArrived;
  }

  lemma FreeStepMu(m: Manager, t: Tid, pc: Pc, choice: bool)
    requires (Owns(pc) <==> m.lifecycle == Some(t)) && (Waits(pc) <==> m.mu == Some(t))
    requires m.mu.Some? ==> m.mu == m.lifecycle
    requires MoveFreely(m, t, pc, choice).Some?
    ensures var e := MoveFreely(m, t, pc, choice).value; MuChange(m, e.m, t, e.pc)
  {
    hide SomeAnswers, DoneArrived;
  }

  lemma FreeStepFlag(m: Manager, t: Tid, pc: Pc, choice: bool)
    requires (Flagged(pc) ==> m.startProcessing) && MoveFreely(m, t, pc, choice).Some?
    ensures var e := MoveFreely(m, t, pc, choice).value; FlagChange(m, e.m, pc, e.pc)
  {
    hide SomeAnswers, DoneArrived;
  }

  lemma FreeStepOwner(m: Manager, t: Tid, pc: Pc, choice: bool)
    requires (Owns(pc) ==> m.lifecycle == Some(t)) && MoveFreely(m, t, pc, choice).Some?
    ensures OnlyOwnerChanges(m, MoveFreely(m, t, pc, choice).value.m, t)
  {
    hide SomeAnswers, DoneArrived;
  }

  lemma FreeStepLocks(m: Manager, t: Tid, pc: Pc, choice: bool)
    requires LocksOf(m, t, pc) && MoveFreely(m, t, pc, choice).Some? && (m.mu.Some? ==> m.mu == m.lifecycle)
    ensures var e := MoveFreely(m, t, pc, choice).value; LockChange(m, e.m, t, pc, e.pc)
  {
    hide MoveFreely, LifecycleChange, MuChange, FlagChange, Owns, Waits, Flagged;
    FreeStepLifecycle(m, t, pc, choice);
    FreeStepMu(m, t, pc, choice);
    FreeStepFlag(m, t, pc, choice);
  }

  /** A step that leaves the cores alone and does not invent a process or a running configuration. */
  predicate KeepsCores(m: Manager, m': Manager) {
    && m'.cores == m.cores
    && (m'.process == m.process || (DoneArrived(m) && m'.process.None?))
    && (m'.mu.Some? ==> m'.process.Some?)
    && (m'.running == m.running || m'.running == "" || LastServed(m, m'.running))
  }

  lemma CoresStep(m: Manager, m': Manager)
    requires Cores(m) && KeepsCores(m, m')
    ensures Cores(m')
  {
  }

  lemma MuStepCores(m: Manager, t: Tid, pc: Pc, choice: bool)
    requires OwnerOk(m, pc) && TakesMu(pc) && m.mu.None? && !(pc.StartSpawn? && choice)
    ensures var e := MoveUnderMu(m, t, pc, choice); KeepsCores(m, e.m) && OwnerOk(e.m, e.pc)
  {
  }

  lemma FreeStepCores(m: Manager, t: Tid, pc: Pc, choice: bool)
    requires OwnerOk(m, pc) && MoveFreely(m, t, pc, choice).Some? && (m.mu.Some? ==> m.process.Some?)
    requires SomeAnswers(m) ==> m.cores[|m.cores| - 1].fetched.Some?
    requires Waits(pc) <==> m.mu == Some(t)
    requires m.mu.Some? ==> m.mu == m.lifecycle && (Owns(pc) ==> m.lifecycle == Some(t))
    ensures var e := MoveFreely(m, t, pc, choice).value; KeepsCores(m, e.m) && OwnerOk(e.m, e.pc)
  {
  }

  lemma SpawnKeepsCores(m: Manager, json: string)
    requires OwnerOk(m, StartSpawn(json)) && Cores(m) && m.mu.None?
    ensures Cores(Spawned(m)) && OwnerOk(Spawned(m), StartWait(json))
  {
  }

  /** The last core is the same one, and has at most fetched what is served now. */
  predicate LastKept(m: Manager, m': Manager) {
    && |m'.cores| == |m.cores|
    && (m.cores != [] ==>
          var last, last' := m.cores[|m.cores| - 1], m'.cores[|m.cores| - 1];
          && last'.exposed == last.exposed
          && (last'.fetched == last.fetched || (last.fetched.None? && last'.fetched == Some(Served(m.current)))))
  }

  lemma OthersKeepOwnerOk(m: Manager, m': Manager, pc: Pc)
    requires OwnerOk(m, pc) && m'.current == m.current && m'.running == m.running
    requires m'.process == m.process || m'.process.None?
    requires LastKept(m, m')
    ensures OwnerOk(m', pc)
  {
  }

  lemma MoveKeepsCores(m: Manager, t: Tid, pc: Pc, choice: bool)
    requires Cores(m) && LocksOf(m, t, pc) && (m.mu.Some? ==> m.mu == m.lifecycle)
    requires Owns(pc) ==> OwnerOk(m, pc)
    requires Move(m, t, pc, choice).Some?
    ensures var e := Move(m, t, pc, choice).value;
            && Cores(e.m) && LockChange(m, e.m, t, pc, e.pc) && OnlyOwnerChanges(m, e.m, t)
            && OwnerOk(e.m, e.pc)
  {
    hide Cores, MoveUnderMu, MoveFreely, KeepsCores, LockChange, OnlyOwnerChanges, Flagged;
    assert OwnerOk(m, pc);
    var e := Move(m, t, pc, choice).value;
    if TakesMu(pc) {
      MuStepLocks(m, t, pc, choice);
      MuStepOwner(m, t, pc, choice);
      if pc.StartSpawn? && choice {
        SpawnKeepsCores(m, pc.json);
        assert e == To(Spawned(m), StartWait(pc.json)) by { hide *; SpawnStep(m, t, pc.json); }
      } else {
        MuStepCores(m, t, pc, choice);
        CoresStep(m, e.m);
      }
    } else {
      FreeStepLocks(m, t, pc, choice);
      FreeStepOwner(m, t, pc, choice);
      MuHasProcess(m);
      OnlyLastAnswers(m);
      FreeStepCores(m, t, pc, choice);
      CoresStep(m, e.m);
    }
  }

  lemma SpawnStep(m: Manager, t: Tid, json: string)
    ensures MoveUnderMu(m, t, StartSpawn(json), true) == To(Spawned(m), StartWait(json))
  {
  }

  lemma OnlyLastAnswers(m: Manager)
    requires Cores(m)
    ensures forall i :: 0 <= i < |m.cores| && m.cores[i].alive ==> i == |m.cores| - 1
    ensures SomeAnswers(m) ==> m.cores[|m.cores| - 1].fetched.Some?
  {
  }

  lemma MuHasProcess(m: Manager)
    requires Cores(m)
    ensures m.mu.Some? ==> m.process.Some?
  {
  }

  lemma StepKeepsInv(s: State, t: Tid, choice: bool)
    requires Inv(s) && t in s.calls && Move(s.m, t, s.calls[t], choice).Some?
    ensures var e := Move(s.m, t, s.calls[t], choice).value; Inv(State(e.m, s.calls[t := e.pc]))
  {
    var pc, e := s.calls[t], Move(s.m, t, s.calls[t], choice).value;
    assert LocksOf(s.m, t, pc);
    hide Cores, Move;
    MoveKeepsCores(s.m, t, pc, choice);
    LocksStep(s, e.m, t, e.pc);
    if e.m.lifecycle.Some? && e.m.lifecycle != Some(t) {
      OthersKeepOwnerOk(s.m, e.m, s.calls[e.m.lifecycle.value]);
    }
  }

  lemma PhaseKeepsCores(m: Manager, i: nat, phase: Phase, m': Manager)
    requires Cores(m) && i < |m.cores| && !m.cores[i].alive
    requires phase in {InWait, Reaped} ==> m.cores[i].phase in {InWait, Reaped}
    requires m' == m.(cores := m.cores[i := m.cores[i].(phase := phase)])
    ensures Cores(m')
  {
  }

  lemma ForgetKeepsCores(m: Manager, i: nat)
    requires Cores(m) && m.process == Some(i) && m.mu.None? && i < |m.cores| && m.cores[i].phase == Over
    ensures Cores(m.(process := None, online := false))
  {
  }

  /** The monitor changes no lock and nothing the owner of the lifecycle lock relies on. */
  lemma MonitorSteps(m: Manager, i: nat)
    requires Cores(m) && MonitorStep(m, i).Some?
    ensures var m' := MonitorStep(m, i).value;
            && Cores(m')
            && m'.lifecycle == m.lifecycle && m'.mu == m.mu && m'.startProcessing == m.startProcessing
            && m'.current == m.current && m'.running == m.running && (m'.process == m.process || m'.process.None?)
            && LastKept(m, m')
  {
    var core := m.cores[i];
    var phase := match core.phase case InWait => Reaped case Reaped => DoneSent case _ => Over;
    var m' := m.(cores := m.cores[i := core.(phase := phase)]);
    PhaseKeepsCores(m, i, phase, m');
    if core.phase == DoneSent && m.process == Some(i) {
      ForgetKeepsCores(m', i);
    }
    hide Cores;
  }

  lemma MonitorKeepsInv(s: State, i: nat)
    requires Inv(s) && MonitorStep(s.m, i).Some?
    ensures Inv(s.(m := MonitorStep(s.m, i).value))
  {
    hide Cores, MonitorStep;
    var m := MonitorStep(s.m, i).value;
    MonitorSteps(s.m, i);
    assert Locks(s.(m := m)) by { hide Owns, Waits, Flagged, OwnerOk; }
    hide Locks;
    if m.lifecycle.Some? {
      OthersKeepOwnerOk(s.m, m, s.calls[m.lifecycle.value]);
    }
  }

  lemma DieKeepsInv(s: State, i: nat)
    requires Inv(s) && i < |s.m.cores|
    ensures Inv(s.(m := s.m.(cores := s.m.cores[i := s.m.cores[i].(alive := false)])))
  {
    var m := s.m.(cores := s.m.cores[i := s.m.cores[i].(alive := false)]);
    assert Locks(s.(m := m)) by { hide Owns, Waits, Flagged, Cores, OwnerOk; }
    hide Locks;
    if m.lifecycle.Some? {
      OthersKeepOwnerOk(s.m, m, s.calls[m.lifecycle.value]);
    }
  }

  lemma FetchKeepsInv(s: State, i: nat)
    requires Inv(s) && i < |s.m.cores| && s.m.cores[i].alive && s.m.cores[i].fetched.None?
    ensures Inv(s.(m := Fetched(s.m, i)))
  {
    var m := Fetched(s.m, i);
    assert Locks(s.(m := m)) by { hide Owns, Waits, Flagged, Cores, OwnerOk; }
    hide Locks;
    if m.lifecycle.Some? {
      OthersKeepOwnerOk(s.m, m, s.calls[m.lifecycle.value]);
    }
  }

  lemma EnterKeepsInv(s: State, t: Tid, call: Pc)
    requires Inv(s) && t !in s.calls && IsCall(call)
    ensures Inv(s.(calls := s.calls[t := call]))
  {
    hide Cores, OwnerOk;
    assert !Owns(call) && !Waits(call) && !Flagged(call);
    hide Owns, Waits, Flagged;
  }

  lemma NextKeepsInv(s: State, a: Action)
    requires Inv(s) && Next(s, a).Some?
    ensures Inv(Next(s, a).value)
  {
    hide Inv, Move, MonitorStep;
    match a
    case Enter(t, call) => EnterKeepsInv(s, t, call);
    case Step(t, choice) => StepKeepsInv(s, t, choice);
    case Fetch(i) => FetchKeepsInv(s, i);
    case Die(i) => DieKeepsInv(s, i);
    case Monitor(i) => MonitorKeepsInv(s, i);
  }

  lemma {:induction false} RunKeepsInv(s: State, actions: seq<Action>)
    requires Inv(s) && Run(s, actions).Some?
    ensures Inv(Run(s, actions).value)
    decreases |actions|
  {
    if actions != [] {
      hide Inv, Next;
      NextKeepsInv(s, actions[0]);
      RunKeepsInv(Next(s, actions[0]).value, actions[1..]);
    }
  }

  /** Every state some interleaving of calls, core exits and monitors leads to. */
  ghost predicate Reachable(s: State) {
    exists actions :: Run(INIT, actions) == Some(s)
  }

  lemma ReachableInv(s: State)
    requires Reachable(s)
    ensures Inv(s)
  {
    var actions :| Run(INIT, actions) == Some(s);
    hide Run, Next;
    RunKeepsInv(INIT, actions);
  }

  // ---- What it gives ----

  /**
    At every moment a core not yet waited for is the manager's process, so no two cores
    are ever alive, even after a stop that timed out.
   */
  lemma AtMostOneCore(s: State)
    requires Reachable(s)
    ensures forall i :: 0 <= i < |s.m.cores| && (s.m.cores[i].alive || s.m.cores[i].phase == InWait) ==>
              s.m.process == Some(i)
    ensures forall i, j :: 0 <= i < j < |s.m.cores| ==> !s.m.cores[i].alive || !s.m.cores[j].alive
  {
    ReachableInv(s);
    hide Locks, OwnerOk, Reachable;
  }

  /** A recorded running configuration is the one the last core was spawned with, and the one it fetched. */
  lemma RunningIsWhatWasServed(s: State)
    requires Reachable(s) && s.m.running != ""
    ensures s.m.cores != []
    ensures var last := s.m.cores[|s.m.cores| - 1]; last.exposed == s.m.running && last.fetched == Some(s.m.running)
  {
    ReachableInv(s);
  }

  /** RunningConfig reports a configuration only while a core is alive that fetched exactly it. */
  lemma RunningConfigIsTrue(s: State, t: Tid, choice: bool, json: string)
    requires Reachable(s) && t in s.calls && s.calls[t].RunningPing? && Next(s, Step(t, choice)).Some?
    requires Next(s, Step(t, choice)).value.calls[t] == RunningUnlock(Running(json))
    ensures exists i :: 0 <= i < |s.m.cores| && s.m.cores[i].alive && s.m.cores[i].fetched == Some(json)
  {
    ReachableInv(s);
    assert LocksOf(s.m, t, s.calls[t]);
    assert json == s.m.running && json != "";
    hide Locks, OwnerOk, Reachable, Next;
    var i :| 0 <= i < |s.m.cores| && Answers(s.m.cores[i]);
    assert s.m.cores[i].fetched == Some(json);
  }

  lemma NoProcessNoCore(m: Manager)
    requires Cores(m) && m.process.None?
    ensures forall i :: 0 <= i < |m.cores| ==> !m.cores[i].alive && m.cores[i].phase in {DoneSent, Over}
  {
    forall i | 0 <= i < |m.cores| ensures m.cores[i].phase in {DoneSent, Over} {
      var phase := m.cores[i].phase;
      assert phase.InWait? || phase.Reaped? || phase.DoneSent? || phase.Over?;
      assert phase in {InWait, Reaped} ==> m.process == Some(i);
    }
  }

  /** A stop that reports success leaves no core behind. */
  lemma StoppedMeansNoCore(s: State, t: Tid, choice: bool)
    requires Reachable(s) && t in s.calls && (s.calls[t].StopBegin? || s.calls[t].StopStopping?)
    requires Next(s, Step(t, choice)).Some? && Next(s, Step(t, choice)).value.calls[t] == StopUnlock(true)
    ensures var m := Next(s, Step(t, choice)).value.m;
            && m.process.None? && m.running == "" && m.current == ""
            && forall i :: 0 <= i < |m.cores| ==> !m.cores[i].alive && m.cores[i].phase in {DoneSent, Over}
  {
    ReachableInv(s);
    NextKeepsInv(s, Step(t, choice));
    assert LocksOf(s.m, t, s.calls[t]);
    hide Locks, Reachable, Cores, Move;
    StopEffect(s.m, t, s.calls[t], choice);
    NoProcessNoCore(Next(s, Step(t, choice)).value.m);
  }

  lemma StopEffect(m: Manager, t: Tid, pc: Pc, choice: bool)
    requires pc.StopBegin? || (pc.StopStopping? && m.running == "")
    requires Move(m, t, pc, choice).Some? && Move(m, t, pc, choice).value.pc == StopUnlock(true)
    ensures var m' := Move(m, t, pc, choice).value.m; m'.process.None? && m'.running == "" && m'.current == ""
  {
  }

  /** At most one Start is past the flag, and at most one call owns the lifecycle lock. */
  lemma StartsExcludeEachOther(s: State, t: Tid, u: Tid)
    requires Reachable(s) && t in s.calls && u in s.calls
    requires (Flagged(s.calls[t]) && Flagged(s.calls[u])) || (Owns(s.calls[t]) && Owns(s.calls[u]))
    ensures t == u
  {
    ReachableInv(s);
    assert LocksOf(s.m, t, s.calls[t]) && LocksOf(s.m, u, s.calls[u]);
  }

  // ---- Nobody waits for ever ----

  /**
    A call that waits for a core with `mu` held never waits for a monitor that waits for
    `mu`: the core's exit has been reported already, or the core is alive, or its monitor
    can go on without `mu`.
   */
  lemma StopperCanGoOn(s: State, t: Tid)
    requires Reachable(s) && s.m.mu == Some(t)
    ensures t in s.calls && Waits(s.calls[t]) && s.m.process.Some? && s.m.process.value < |s.m.cores|
    ensures var p := s.m.process.value;
            && (s.m.cores[p].phase in {DoneSent, Over} <==> Next(s, Step(t, true)).Some?)
            && (s.m.cores[p].phase in {InWait, Reaped} ==> s.m.cores[p].alive || Next(s, Monitor(p)).Some?)
  {
    ReachableInv(s);
    assert LocksOf(s.m, t, s.calls[t]);
    hide Locks, Reachable;
  }

  /** With `mu` free, some unfinished call can take a step: the owner of the lifecycle lock, or any other. */
  lemma SomeCallCanGoOn(s: State, t: Tid)
    requires Reachable(s) && s.m.mu.None? && t in s.calls && !s.calls[t].Finished?
    ensures exists u, choice :: u in s.calls && !s.calls[u].Finished? && Next(s, Step(u, choice)).Some?
  {
    ReachableInv(s);
    assert LocksOf(s.m, t, s.calls[t]);
    if s.calls[t].StopLock? && s.m.lifecycle.Some? {
      var u := s.m.lifecycle.value;
      assert LocksOf(s.m, u, s.calls[u]);
      assert Next(s, Step(u, false)).Some?;
    } else {
      assert Next(s, Step(t, false)).Some?;
    }
  }

  /** Every call is over after at most 16 steps of its own. */
  function StepsLeft(pc: Pc): nat {
    match pc
    case StartBegin(_) => 16
    case StartTryLock(_) => 15
    case StartGuard(_) => 14
    case StartRead(_) => 13
    case StartPing(_) => 12
    case StartCompare(_) => 11
    case StartOffline(_) => 11
    case StartPrepare(_) => 10
    case StartStop(_) => 9
    case StartStopping(_) => 8
    case StartSpawn(_) => 7
    case StartWait(_) => 6
    case StartAbort => 5
    case StartAborting => 4
    case StartOnline(_) => 3
    case StartSkip(_) => 3
    case StartUnlock(_) => 2
    case StartLeave(_) => 1
    case StopLock => 4
    case StopBegin => 3
    case StopStopping => 2
    case StopUnlock(_) => 1
    case HealthRead => 3
    case HealthPing => 2
    case HealthWrite(_) => 1
    case RunningLock => 4
    case RunningRead => 3
    case RunningPing(_, _) => 2
    case RunningUnlock(_) => 1
    case Finished(_) => 0
  }

  lemma MuStepsAreFinite(m: Manager, t: Tid, pc: Pc, choice: bool)
    requires TakesMu(pc)
    ensures StepsLeft(MoveUnderMu(m, t, pc, choice).pc) < StepsLeft(pc)
  {
  }

  lemma FreeStepsAreFinite(m: Manager, t: Tid, pc: Pc, choice: bool)
    requires MoveFreely(m, t, pc, choice).Some?
    ensures StepsLeft(MoveFreely(m, t, pc, choice).value.pc) < StepsLeft(pc)
  {
  }

  lemma CallsAreFinite(s: State, t: Tid, choice: bool)
    requires t in s.calls && Next(s, Step(t, choice)).Some?
    ensures StepsLeft(Next(s, Step(t, choice)).value.calls[t]) < StepsLeft(s.calls[t])
  {
    hide StepsLeft, MoveUnderMu, MoveFreely;
    if TakesMu(s.calls[t]) {
      MuStepsAreFinite(s.m, t, s.calls[t], choice);
    } else {
      FreeStepsAreFinite(s.m, t, s.calls[t], choice);
    }
  }

  // ---- A stale answer ----

  /** The manager counts as online though it has no process. */
  predicate Stale(s: State) {
    s.m.online && s.m.process.None?
  }

  /** A call writes down that the core is online after its process has been cleared. */
  predicate StaleWrite(s: State, a: Action) {
    && a.Step? && a.tid in s.calls && s.m.process.None?
    && (s.calls[a.tid] == HealthWrite(true) || s.calls[a.tid].StartOnline?)
  }

  /** Exactly such a write makes the manager stale. */
  lemma StaleIff(s: State, a: Action)
    requires !Stale(s) && Next(s, a).Some?
    ensures Stale(Next(s, a).value) <==> StaleWrite(s, a)
  {
    if a.Step? {
      var pc := s.calls[a.tid];
      if TakesMu(pc) {
        MuStepStale(s.m, a.tid, pc, a.choice);
      } else {
        FreeStepStale(s.m, a.tid, pc, a.choice);
      }
      hide MoveUnderMu, MoveFreely;
    }
  }

  lemma MuStepStale(m: Manager, t: Tid, pc: Pc, choice: bool)
    requires TakesMu(pc) && !(m.online && m.process.None?)
    ensures var m' := MoveUnderMu(m, t, pc, choice).m;
            m'.online && m'.process.None? <==> m.process.None? && (pc == HealthWrite(true) || pc.StartOnline?)
  {
  }

  lemma FreeStepStale(m: Manager, t: Tid, pc: Pc, choice: bool)
    requires !(m.online && m.process.None?) && MoveFreely(m, t, pc, choice).Some?
    ensures var m' := MoveFreely(m, t, pc, choice).value.m; !(m'.online && m'.process.None?)
  {
    hide SomeAnswers, DoneArrived;
  }

  /** Some state of this run is stale. */
  predicate EverStale(s: State, actions: seq<Action>)
    decreases |actions|
  {
    Stale(s) || (actions != [] && Next(s, actions[0]).Some? && EverStale(Next(s, actions[0]).value, actions[1..]))
  }

  /** Some action of this run is a stale write. */
  predicate EverStaleWrite(s: State, actions: seq<Action>)
    decreases |actions|
  {
    && actions != [] && Next(s, actions[0]).Some?
    && (StaleWrite(s, actions[0]) || EverStaleWrite(Next(s, actions[0]).value, actions[1..]))
  }

  /**
    What `xrayOnline` is worth over a whole run: it is true without a process in some state
    if and only if some Health or Start call wrote it after the process had been cleared.
   */
  lemma {:induction false} OnlineMeansProcessIff(s: State, actions: seq<Action>)
    requires !Stale(s)
    ensures EverStale(s, actions) <==> EverStaleWrite(s, actions)
    decreases |actions|
  {
    if actions != [] && Next(s, actions[0]).Some? {
      StaleIff(s, actions[0]);
      hide Next, Stale, StaleWrite;
      if !Stale(Next(s, actions[0]).value) {
        OnlineMeansProcessIff(Next(s, actions[0]).value, actions[1..]);
      }
    }
  }

  /** In a run from the start without such a write, a manager that counts as online has its process. */
  lemma OnlineMeansProcess(actions: seq<Action>)
    requires Run(INIT, actions).Some? && !EverStaleWrite(INIT, actions)
    ensures var m := Run(INIT, actions).value.m; m.online ==> m.process.Some?
  {
    OnlineMeansProcessIff(INIT, actions);
    if Stale(Run(INIT, actions).value) {
      EndsStale(INIT, actions);
    }
  }

  lemma {:induction false} EndsStale(s: State, actions: seq<Action>)
    requires Run(s, actions).Some? && Stale(Run(s, actions).value)
    ensures EverStale(s, actions)
    decreases |actions|
  {
    if actions != [] {
      EndsStale(Next(s, actions[0]).value, actions[1..]);
    }
  }

  function After(s: Option<State>, a: Action): Option<State> {
    if s.None? then None else Next(s.value, a)
  }

  lemma {:induction false} RunAppend(s: State, actions: seq<Action>, a: Action)
    ensures Run(s, actions + [a]) == After(Run(s, actions), a)
    decreases |actions|
  {
    if actions == [] {
      assert Run(s, [a]) == After(Some(s), a) by {
        assert [a][1..] == [];
      }
    } else {
      assert (actions + [a])[1..] == actions[1..] + [a];
      var s' := Next(s, actions[0]);
      if s'.Some? {
        RunAppend(s'.value, actions[1..], a);
      }
    }
  }

  lemma Advance(s: State, a: Action, s': State)
    requires Reachable(s) && Next(s, a) == Some(s')
    ensures Reachable(s')
  {
    var actions :| Run(INIT, actions) == Some(s);
    RunAppend(INIT, actions, a);
  }

  /** The manager with one core, and with these locks. */
  function One(lifecycle: Option<Tid>, online: bool, running: string, core: Core, process: Option<nat>): Manager {
    Manager(lifecycle, None, lifecycle.Some?, online, "c", running, process, [core])
  }

  lemma InitReachable()
    ensures Reachable(INIT)
  {
    assert Run(INIT, []) == Some(INIT);
  }

  lemma SpawnReachable()
    ensures Reachable(State(Manager(Some(0), None, true, false, "c", "", None, []), map[0 := StartSpawn("c")]))
  {
    hide Run, Reachable;
    InitReachable();
    var idle := Manager(Some(0), None, true, false, "", "", None, []);
    Advance(INIT, Enter(0, StartBegin("c")), State(INIT.m, map[0 := StartBegin("c")]));
    Move1(INIT.m, StartBegin("c"), INIT.m.(startProcessing := true), StartTryLock("c"));
    Move1(INIT.m.(startProcessing := true), StartTryLock("c"), idle, StartGuard("c"));
    Move1(idle, StartGuard("c"), idle, StartRead("c"));
    Move1(idle, StartRead("c"), idle, StartPrepare("c"));
    Move1(idle, StartPrepare("c"), idle, StartStop("c"));
    Move1(idle, StartStop("c"), idle.(current := "c"), StartSpawn("c"));
  }

  lemma SpawnedIsOne(idle: Manager)
    requires idle == Manager(Some(0), None, true, false, "c", "", None, [])
    ensures Spawned(idle) == One(Some(0), false, "", Core("c", true, InWait, None), Some(0))
  {
    assert [] + [Core("c", true, InWait, None)] == [Core("c", true, InWait, None)];
  }

  lemma AnsweringReachable()
    ensures Reachable(State(One(Some(0), false, "", Core("c", true, InWait, Some("c")), Some(0)),
              map[0 := StartOnline("c")]))
  {
    hide Run, Reachable, Spawned;
    SpawnReachable();
    var idle, core := Manager(Some(0), None, true, false, "c", "", None, []), Core("c", true, InWait, None);
    SpawnedIsOne(idle);
    var spawned := One(Some(0), false, "", core, Some(0));
    Move1(idle, StartSpawn("c"), spawned, StartWait("c"));
    var fetched := One(Some(0), false, "", core.(fetched := Some("c")), Some(0));
    OneChanges(spawned, core, core.(fetched := Some("c")));
    Advance(State(spawned, map[0 := StartWait("c")]), Fetch(0), State(fetched, map[0 := StartWait("c")]));
    assert SomeAnswers(fetched) by { assert Answers(fetched.cores[0]); }
    Move1(fetched, StartWait("c"), fetched, StartOnline("c"));
  }

  /** One step of the only call. */
  lemma Move1(m: Manager, pc: Pc, m': Manager, pc': Pc)
    requires Reachable(State(m, map[0 := pc])) && Move(m, 0, pc, true) == Some(To(m', pc'))
    ensures Reachable(State(m', map[0 := pc']))
  {
    assert map[0 := pc][0 := pc'] == map[0 := pc'];
    Advance(State(m, map[0 := pc]), Step(0, true), State(m', map[0 := pc']));
  }

  lemma OneChanges(m: Manager, before: Core, after: Core)
    requires m.cores == [before]
    ensures m.cores[0 := after] == [after]
  {
  }

  /** From a living core to one whose exit the manager knows of, while the calls stand still. */
  lemma ExitReachable(calls: map<Tid, Pc>)
    requires Reachable(State(One(Some(0), false, "", Core("c", true, InWait, Some("c")), Some(0)), calls))
    ensures Reachable(State(One(Some(0), false, "", Core("c", false, Over, Some("c")), None), calls))
  {
    hide Run, Reachable;
    var c0 := Core("c", true, InWait, Some("c"));
    var c1 := c0.(alive := false);
    var c2, c3, c4 := c1.(phase := Reaped), c1.(phase := DoneSent), c1.(phase := Over);
    var m0, m1, m2, m3 := One(Some(0), false, "", c0, Some(0)), One(Some(0), false, "", c1, Some(0)),
                          One(Some(0), false, "", c2, Some(0)), One(Some(0), false, "", c3, Some(0));
    OneChanges(m0, c0, c1);
    OneChanges(m1, c1, c2);
    OneChanges(m2, c2, c3);
    OneChanges(m3, c3, c4);
    Advance(State(m0, calls), Die(0), State(m1, calls));
    Advance(State(m1, calls), Monitor(0), State(m2, calls));
    Advance(State(m2, calls), Monitor(0), State(m3, calls));
    Advance(State(m3, calls), Monitor(0), State(One(Some(0), false, "", c4, None), calls));
  }

  /**
    It does happen: the core exits between the last ping of a Start and the step in which that Start
    records success.
   */
  lemma OnlineMayBeStale()
    ensures exists s :: Reachable(s) && Stale(s) && !SomeAlive(s.m)
  {
    hide Run, Reachable;
    AnsweringReachable();
    ExitReachable(map[0 := StartOnline("c")]);
    var core := Core("c", false, Over, Some("c"));
    var m := One(Some(0), true, "c", core, None);
    Move1(One(Some(0), false, "", core, None), StartOnline("c"), m, StartUnlock(true));
    assert Stale(State(m, map[0 := StartUnlock(true)])) && !SomeAlive(m);
  }

  // ---- What an answer is worth ----

  /** A call on its way to report that a Start succeeded; no RunningConfig ever is. */
  predicate Succeeding(pc: Pc) {
    || pc.StartCompare? || pc.StartSkip? || pc.StartOnline? || pc == RunningUnlock(Started(true))
    || pc == StartUnlock(true) || pc == StartLeave(true) || pc == Finished(Started(true))
  }

  /** A step of call `t` in which a living core that has its configuration answers a ping. */
  predicate PingAnswered(s: State, a: Action, t: Tid) {
    && a == Step(t, true) && t in s.calls && (s.calls[t].StartPing? || s.calls[t].StartWait?)
    && SomeAnswers(s.m)
  }

  /** Only an answered ping sets a Start on that way. */
  lemma SuccessComesFromAnswer(s: State, a: Action, t: Tid)
    requires Next(s, a).Some? && t in Next(s, a).value.calls && Succeeding(Next(s, a).value.calls[t])
    ensures t in s.calls
    ensures Succeeding(s.calls[t]) || PingAnswered(s, a, t)
  {
    hide SomeAnswers, MonitorStep, Fetched;
    if a.Step? && a.tid == t {
      if TakesMu(s.calls[t]) {
        MuSuccess(s.m, t, s.calls[t], a.choice);
      } else {
        FreeSuccess(s.m, t, s.calls[t], a.choice);
      }
      hide MoveUnderMu, MoveFreely;
    }
  }

  lemma MuSuccess(m: Manager, t: Tid, pc: Pc, choice: bool)
    requires TakesMu(pc) && Succeeding(MoveUnderMu(m, t, pc, choice).pc)
    ensures Succeeding(pc)
  {
  }

  lemma FreeSuccess(m: Manager, t: Tid, pc: Pc, choice: bool)
    requires MoveFreely(m, t, pc, choice).Some? && Succeeding(MoveFreely(m, t, pc, choice).value.pc)
    ensures Succeeding(pc) || (choice && (pc.StartPing? || pc.StartWait?) && SomeAnswers(m))
  {
    hide SomeAnswers, DoneArrived;
    assert pc.StartUnlock? ==> pc == StartUnlock(true) || pc == StartUnlock(false);
  }

  predicate EverAnswered(s: State, actions: seq<Action>, t: Tid)
    decreases |actions|
  {
    && actions != [] && Next(s, actions[0]).Some?
    && (PingAnswered(s, actions[0], t) || EverAnswered(Next(s, actions[0]).value, actions[1..], t))
  }

  /** A Start reports success only if a core answered one of its own pings in that run. */
  lemma {:induction false} StartedMeansAnswered(s: State, actions: seq<Action>, t: Tid)
    requires Run(s, actions).Some? && (t !in s.calls || !Succeeding(s.calls[t]))
    requires t in Run(s, actions).value.calls && Run(s, actions).value.calls[t] == Finished(Started(true))
    ensures EverAnswered(s, actions, t)
    decreases |actions|
  {
    if actions != [] {
      var s' := Next(s, actions[0]).value;
      if t in s'.calls && Succeeding(s'.calls[t]) {
        SuccessComesFromAnswer(s, actions[0], t);
      } else {
        hide Next, Succeeding;
        StartedMeansAnswered(s', actions[1..], t);
      }
    }
  }

  /**
    The last step towards success: a skipped start has only replaced the configuration, and
    a finished one has its own recorded as running, online, with the last core spawned from
    it and having fetched it.
   */
  lemma StartedMeansServed(s: State, t: Tid, choice: bool)
    requires Reachable(s) && t in s.calls && Next(s, Step(t, choice)).Some?
    requires Next(s, Step(t, choice)).value.calls[t] == StartUnlock(true)
    ensures s.calls[t].StartSkip? || s.calls[t].StartOnline?
    ensures var m' := Next(s, Step(t, choice)).value.m;
            && (s.calls[t].StartSkip? ==> m' == s.m.(current := s.calls[t].json))
            && (s.calls[t].StartOnline? ==>
                  && m' == s.m.(online := true, running := s.calls[t].json)
                  && m'.cores != []
                  && var last := m'.cores[|m'.cores| - 1];
                     last.exposed == s.calls[t].json && last.fetched == Some(Served(s.calls[t].json)))
  {
    ReachableInv(s);
    assert LocksOf(s.m, t, s.calls[t]);
    hide Inv, Locks, Cores, Reachable, Owns, Waits, Flagged, SomeAnswers, DoneArrived;
    LastSteps(s.m, t, s.calls[t], choice);
    hide Move;
  }

  lemma LastSteps(m: Manager, t: Tid, pc: Pc, choice: bool)
    requires OwnerOk(m, pc) && Move(m, t, pc, choice).Some? && Move(m, t, pc, choice).value.pc == StartUnlock(true)
    ensures pc.StartSkip? || pc.StartOnline?
    ensures var m' := Move(m, t, pc, choice).value.m;
            && (pc.StartSkip? ==> m' == m.(current := pc.json))
            && (pc.StartOnline? ==> m' == m.(online := true, running := pc.json) && LastServed(m', pc.json))
  {
    hide SomeAnswers, DoneArrived;
  }

  /** This step takes the core off line, for all the manager knows. */
  predicate GoesOffline(m: Manager, pc: Pc, pc': Pc) {
    || pc == HealthWrite(false) || pc.StartOffline? || pc.StartSpawn? || pc.StartAborting?
    || (pc.StartAbort? && m.process.None?)
    || pc'.StartSpawn? || pc' == StopUnlock(true)
  }

  /** What a step writes down, field by field. */
  predicate Writes(m: Manager, pc: Pc, m': Manager, pc': Pc) {
    && m'.current == (if pc.StartSkip? || pc.StartStop? then pc.json
                      else if pc' == StopUnlock(true) && !pc.StopUnlock? then "" else m.current)
    && m'.running == (if pc.StartOnline? then pc.json
                      else if pc.StartStop? || pc.StartAbort? || pc.StopBegin? then "" else m.running)
    && m'.online == (if pc == HealthWrite(true) || pc.StartOnline? then true
                     else if GoesOffline(m, pc, pc') then false else m.online)
    && (m'.cores != m.cores ==> pc.StartSpawn? && pc'.StartWait?)
  }

  lemma StepWrites(m: Manager, t: Tid, pc: Pc, choice: bool)
    requires Move(m, t, pc, choice).Some?
    ensures var e := Move(m, t, pc, choice).value; Writes(m, pc, e.m, e.pc)
  {
    hide Writes;
    if TakesMu(pc) {
      MuStepWrites(m, t, pc, choice);
    } else {
      FreeStepWrites(m, t, pc, choice);
    }
    hide MoveUnderMu, MoveFreely;
  }

  lemma MuStepWrites(m: Manager, t: Tid, pc: Pc, choice: bool)
    requires TakesMu(pc)
    ensures var e := MoveUnderMu(m, t, pc, choice); Writes(m, pc, e.m, e.pc)
  {
  }

  lemma FreeStepWrites(m: Manager, t: Tid, pc: Pc, choice: bool)
    requires !TakesMu(pc) && MoveFreely(m, t, pc, choice).Some?
    ensures var e := MoveFreely(m, t, pc, choice).value; Writes(m, pc, e.m, e.pc)
  {
    hide SomeAnswers, DoneArrived;
  }

  // ---- The answers are reached ----

  /**
    A Start can succeed: with no core yet, and again, by finding that nothing has changed.
    After it the manager is online with the core it spawned.
   */
  lemma StartCanSucceed()
    ensures var m := One(None, true, "c", Core("c", true, InWait, Some("c")), Some(0)).(startProcessing := false);
            && Reachable(State(m, map[0 := Finished(Started(true))]))
            && Reachable(State(m, map[0 := Finished(Started(true)), 1 := Finished(Started(true))]))
  {
    hide Run, Reachable;
    AnsweringReachable();
    var core := Core("c", true, InWait, Some("c"));
    var owned := One(Some(0), true, "c", core, Some(0));
    var free := owned.(lifecycle := None);
    var idle := free.(startProcessing := false);
    Move1(One(Some(0), false, "", core, Some(0)), StartOnline("c"), owned, StartUnlock(true));
    Move1(owned, StartUnlock(true), free, StartLeave(true));
    Move1(free, StartLeave(true), idle, Finished(Started(true)));
    SkipReachable(idle);
  }

  lemma SkipReachable(idle: Manager)
    requires idle == Manager(None, None, false, true, "c", "c", Some(0), [Core("c", true, InWait, Some("c"))])
    requires Reachable(State(idle, map[0 := Finished(Started(true))]))
    ensures Reachable(State(idle, map[0 := Finished(Started(true)), 1 := Finished(Started(true))]))
  {
    hide Run, Reachable;
    var first := map[0 := Finished(Started(true))];
    assert first[1 := StartBegin("c")] == map[0 := Finished(Started(true)), 1 := StartBegin("c")];
    Advance(State(idle, first), Enter(1, StartBegin("c")), State(idle, first[1 := StartBegin("c")]));
    var flagged, owned := idle.(startProcessing := true), idle.(startProcessing := true, lifecycle := Some(1));
    assert SomeAnswers(owned) by { assert Answers(owned.cores[0]); }
    Move2(first, idle, StartBegin("c"), flagged, StartTryLock("c"));
    Move2(first, flagged, StartTryLock("c"), owned, StartGuard("c"));
    Move2(first, owned, StartGuard("c"), owned, StartRead("c"));
    Move2(first, owned, StartRead("c"), owned, StartPing("c"));
    Move2(first, owned, StartPing("c"), owned, StartCompare("c"));
    Move2(first, owned, StartCompare("c"), owned, StartSkip("c"));
    Move2(first, owned, StartSkip("c"), owned, StartUnlock(true));
    Move2(first, owned, StartUnlock(true), flagged, StartLeave(true));
    Move2(first, flagged, StartLeave(true), idle, Finished(Started(true)));
    assert first[1 := Finished(Started(true))] == map[0 := Finished(Started(true)), 1 := Finished(Started(true))];
  }

  /** One step of the second call. */
  lemma Move2(first: map<Tid, Pc>, m: Manager, pc: Pc, m': Manager, pc': Pc)
    requires Reachable(State(m, first[1 := pc])) && Move(m, 1, pc, true) == Some(To(m', pc'))
    ensures Reachable(State(m', first[1 := pc']))
  {
    assert first[1 := pc][1 := pc'] == first[1 := pc'];
    Advance(State(m, first[1 := pc]), Step(1, true), State(m', first[1 := pc']));
  }

  /** Two steps of one call on its own. */
  function TwoSteps(m: Manager, t: Tid, pc: Pc, choice: bool): Option<Effect> {
    var e := Move(m, t, pc, choice);
    if e.None? then None else Move(e.value.m, t, e.value.pc, choice)
  }

  /** RunningConfig reports what is recorded when the core is on line and answers, and only then. */
  lemma RunningIsReportedIff(m: Manager, t: Tid, answered: bool, json: string)
    requires m.mu.None? && (answered ==> SomeAnswers(m))
    ensures var e := TwoSteps(m, t, RunningRead, answered);
            && e.Some? && e.value.m == m
            && (e.value.pc == RunningUnlock(Running(json)) <==>
                  m.online && answered && json == m.running && json != "")
            && (e.value.pc == RunningUnlock(NotRunning) <==> !(m.online && answered))
  {
    hide SomeAnswers, DoneArrived;
  }

  /** Health asks the core whenever there may be one, and writes down and reports its answer. */
  lemma HealthIsWhatWasAnswered(m: Manager, t: Tid, answered: bool)
    requires m.mu.None? && (answered ==> SomeAnswers(m))
    ensures if m.process.Some? || m.online then
              && Move(m, t, HealthRead, answered) == Some(To(m, HealthPing))
              && TwoSteps(m, t, HealthPing, answered) == Some(To(m.(online := answered), Finished(Healthy(answered))))
            else
              TwoSteps(m, t, HealthRead, answered) == Some(To(m.(online := false), Finished(Healthy(false))))
  {
    hide SomeAnswers, DoneArrived;
  }

  /** Stop waits for a core if there is one, and goes on as soon as its exit is reported; it cannot be refused. */
  lemma StopGoesOn(m: Manager, t: Tid)
    requires m.mu.None? && m.lifecycle == Some(t)
    ensures m.process.None? ==>
              Move(m, t, StopBegin, true) ==
              Some(To(m.(running := "", online := false, current := ""), StopUnlock(true)))
    ensures m.process.Some? && DoneArrived(m) ==>
              var e := TwoSteps(m, t, StopBegin, true);
              && e.Some? && e.value.pc == StopUnlock(true)
              && e.value.m == m.(running := "", process := None, online := false, current := "")
  {
    hide SomeAnswers;
    var e := Move(m, t, StopBegin, true);
    assert m.process.Some? ==> e == Some(To(m.(running := "", mu := Some(t)), StopStopping));
  }
}
