/** The state unit that owns a partition and its virtual processors.

    `Runner` is the state of the unit; the functions on it are the specification of the methods of
    class `PartitionUnitRunner`, which update the fields one by one as the event loop does.  `System`
    adds the clients: requests on their way, stop guards, and replies not yet turned into guards.
    What happens to the backend is written to a log, and `Observe` is a monitor that says what may
    follow what; a log the monitor accepts never held a forbidden step. */
module PartitionUnit {
  import opened Wrappers

  datatype Vtl = Vtl0 | Vtl1 | Vtl2

  const ALL_VTLS: set<Vtl> := {Vtl0, Vtl1, Vtl2}

  type Reason = nat

  datatype HaltRequest = Halt(reason: Reason) | ReplayMtrrs

  /** What happens to the partition, its VPs and its client. */
  datatype Action =
    | VpsStarted | VpsStopped
    | TimeFrozen | TimeThawed
    | Reported(reason: Reason) | HaltCleared
    | RestoreAttempted | PartitionReset
    | VtlScrubbed(vtl: Vtl) | RegsLoaded(vtl: Vtl) | MtrrsReplayed

  // ---- The monitor ----

  /** What last cleaned the partition. */
  datatype Cleaner = Nothing | ByReset | ByScrub(vtl: Vtl)

  datatype Monitor = Monitor(running: bool, frozen: bool, halted: Option<Reason>, dirty: bool, stale: set<Vtl>,
                             cleaner: Cleaner)

  const FRESH := Monitor(false, false, None, false, {}, Nothing)

  /** Everything but starting and stopping VPs happens while they are stopped; VPs start only with
      time running and no halt; one halt is reported at a time; registers are loaded only into a
      partition cleaned since VPs last ran or a restore was last tried. */
  function Observe(m: Monitor, a: Action): Option<Monitor> {
    match a
    case VpsStarted =>
      if m.running || m.frozen || m.halted.Some? then None
      else Some(m.(running := true, dirty := true, stale := ALL_VTLS))
    case VpsStopped => if m.running then Some(m.(running := false)) else None
    case TimeThawed => if m.running || !m.frozen then None else Some(m.(frozen := false))
    case TimeFrozen => if m.running || m.frozen then None else Some(m.(frozen := true))
    case Reported(r) => if m.running || m.halted.Some? then None else Some(m.(halted := Some(r)))
    case HaltCleared => if m.running || m.halted.None? then None else Some(m.(halted := None))
    case RestoreAttempted => if m.running then None else Some(m.(dirty := true, stale := ALL_VTLS))
    case PartitionReset => if m.running then None else Some(m.(dirty := false, stale := {}, cleaner := ByReset))
    case VtlScrubbed(v) =>
      if m.running then None else Some(m.(dirty := false, stale := m.stale - {v}, cleaner := ByScrub(v)))
    case RegsLoaded(_) => if m.running || m.dirty then None else Some(m)
    case MtrrsReplayed => if m.running then None else Some(m)
  }

  function Replay(log: seq<Action>): Option<Monitor> {
    if log == [] then Some(FRESH)
    else
      match Replay(log[..|log| - 1])
      case None => None
      case Some(m) => Observe(m, log[|log| - 1])
  }

  lemma ReplayOne(log: seq<Action>, a: Action)
    requires Replay(log).Some?
    ensures Replay(log + [a]) == Observe(Replay(log).value, a)
  {
    assert (log + [a])[..|log|] == log;
  }

  // ---- The unit ----

  datatype Runner = Runner(unitStarted: bool, stopCount: nat, needsReset: bool, haltReason: Option<Reason>,
                           initialRegs: Option<nat>, vpsStarted: bool, haltCount: nat, halts: seq<HaltRequest>,
                           frozen: bool, log: seq<Action>)

  function Did(r: Runner, a: Action): Runner {
    r.(log := r.log + [a])
  }

  function Freeze(r: Runner): Runner {
    if r.frozen then r else Did(r.(frozen := true), TimeFrozen)
  }

  function Thaw(r: Runner): Runner {
    if r.frozen then Did(r.(frozen := false), TimeThawed) else r
  }

  function StopSet(r: Runner): Runner {
    if r.vpsStarted then Did(r.(vpsStarted := false), VpsStopped) else r
  }

  function StartSet(r: Runner): Runner {
    if r.vpsStarted then r else Did(r.(vpsStarted := true), VpsStarted)
  }

  predicate MayRun(r: Runner) {
    r.unitStarted && r.haltReason.None? && r.stopCount == 0
  }

  function TryStart(r: Runner): Runner {
    if MayRun(r) then StartSet(Thaw(r).(needsReset := true)) else r
  }

  /** The VP halt latch may be released only while VPs are stopped and something is latched. */
  predicate Releasable(r: Runner) {
    !r.vpsStarted && r.haltCount > 0
  }

  function ReleaseLatch(r: Runner): Runner
    requires Releasable(r)
  {
    r.(haltCount := r.haltCount - 1)
  }

  function RecordHalt(r: Runner, reason: Reason): Runner
    requires r.haltReason.None?
  {
    Did(r.(haltReason := Some(reason)), Reported(reason))
  }

  function ClearHalt(r: Runner): Runner
    requires r.haltReason.Some? ==> Releasable(r)
  {
    if r.haltReason.Some? then TryStart(ReleaseLatch(Did(r.(haltReason := None), HaltCleared))) else r
  }

  /** Processes one halt request with the VPs stopped. */
  function HandleHalt(r: Runner, h: HaltRequest): Runner
    requires h == ReplayMtrrs || r.haltReason.Some? ==> Releasable(r)
  {
    match h
    case Halt(reason) => if r.haltReason.None? then RecordHalt(r, reason) else ReleaseLatch(r)
    case ReplayMtrrs => TryStart(ReleaseLatch(if r.initialRegs.Some? then Did(r, MtrrsReplayed) else r))
  }

  function StopVps(r: Runner): Runner {
    StopSet(r).(stopCount := r.stopCount + 1)
  }

  function ResumeVps(r: Runner): Runner
    requires r.stopCount > 0
  {
    TryStart(r.(stopCount := r.stopCount - 1))
  }

  /** How the backend answers while registers are set up. */
  datatype RegsOutcome = RegsOutcome(freezes: bool, scrubVtlOk: bool, scrubVpsOk: bool, fromRegisters: bool, loadOk: bool)

  datatype RegsResult = RegsResult(runner: Runner, ok: bool)

  function SetInitialRegs(r: Runner, vtl: Vtl, regs: nat, o: RegsOutcome): RegsResult {
    var scrubbed := if !r.needsReset then r else if o.freezes then Freeze(r) else r;
    if r.needsReset && !(o.scrubVtlOk && o.scrubVpsOk) then RegsResult(scrubbed, false)
    else
      var clean := if r.needsReset then Did(scrubbed.(needsReset := false), VtlScrubbed(vtl)) else r;
      var loaded := if o.fromRegisters then Did(clean, RegsLoaded(vtl)) else clean;
      if o.fromRegisters && !o.loadOk then RegsResult(loaded, false)
      else RegsResult(loaded.(initialRegs := Some(regs)), true)
  }

  function Start(r: Runner): Runner {
    TryStart(Thaw(r).(unitStarted := true))
  }

  /** Handles every halt request that raced with a stop. */
  function Flush(r: Runner): Runner
    requires !r.vpsStarted && !r.unitStarted && r.haltCount == |r.halts| + (if r.haltReason.Some? then 1 else 0)
    decreases |r.halts|
  {
    if r.halts == [] then r else Flush(HandleHalt(r.(halts := r.halts[1..]), r.halts[0]))
  }

  function Stop(r: Runner): Runner
    requires r.haltCount == |r.halts| + (if r.haltReason.Some? then 1 else 0)
  {
    Flush(Freeze(StopSet(r)).(unitStarted := false))
  }

  function Reset(r: Runner, partitionOk: bool, vpsOk: bool): Runner
    requires r.haltReason.Some? ==> Releasable(r)
  {
    if partitionOk && vpsOk then Did(ClearHalt(r).(needsReset := false), PartitionReset) else r
  }

  datatype Saved = Saved(haltReason: Option<Reason>)

  function Save(r: Runner): Saved {
    Saved(r.haltReason)
  }

  datatype RestoreOutcome = RestoreOutcome(parsed: bool, partitionOk: bool, vpsOk: bool, raced: seq<HaltRequest>)

  datatype RestoreResult = RestoreResult(runner: Runner, ok: bool)

  /** Halt requests may arrive at any time, from any thread. */
  function Raise(r: Runner, hs: seq<HaltRequest>): Runner {
    r.(haltCount := r.haltCount + |hs|, halts := r.halts + hs)
  }

  function Restore(r: Runner, saved: Saved, o: RestoreOutcome): RestoreResult {
    var tried := Did(r.(needsReset := true), RestoreAttempted);
    if !o.parsed || r.haltReason.Some? || r.vpsStarted || r.haltCount != 0 then RestoreResult(tried, false)
    else
      var late := Raise(tried, o.raced);
      if !o.partitionOk || !o.vpsOk || late.haltCount != 0 then RestoreResult(late, false)
      else
        match saved.haltReason
        case None => RestoreResult(late, true)
        case Some(reason) => RestoreResult(RecordHalt(late.(haltCount := 1), reason), true)
  }

  // ---- What holds of the unit ----

  /** The latch counts the requests not yet processed, plus one for a recorded halt. */
  predicate LatchBalanced(r: Runner) {
    r.haltCount == |r.halts| + (if r.haltReason.Some? then 1 else 0)
  }

  /** The monitor accepts the log and agrees with the unit's own flags. */
  ghost predicate Faithful(r: Runner) {
    && Replay(r.log).Some?
    && var m := Replay(r.log).value;
    && m.running == r.vpsStarted && m.frozen == r.frozen && m.halted == r.haltReason && m.dirty == r.needsReset
    && (m.running ==> m.dirty && !m.frozen)
    && (m.dirty ==> m.stale == ALL_VTLS)
    && (!m.dirty ==> m.stale == match m.cleaner
                                case Nothing => {}
                                case ByReset => {}
                                case ByScrub(v) => ALL_VTLS - {v})
  }

  /** Between events. */
  ghost predicate Settled(r: Runner) {
    LatchBalanced(r) && Faithful(r) && (r.vpsStarted <==> MayRun(r))
  }

  /** Inside an event handler, with the VPs stopped. */
  ghost predicate Quiet(r: Runner) {
    Faithful(r) && !r.vpsStarted
  }

  lemma ThawKeeps(r: Runner)
    requires Faithful(r)
    ensures Faithful(Thaw(r))
  {
    hide Replay;
    ReplayOne(r.log, TimeThawed);
  }

  lemma FreezeKeeps(r: Runner)
    requires Quiet(r)
    ensures Quiet(Freeze(r))
  {
    hide Replay;
    ReplayOne(r.log, TimeFrozen);
  }

  lemma StopSetKeeps(r: Runner)
    requires Faithful(r)
    ensures Quiet(StopSet(r))
  {
    hide Replay;
    ReplayOne(r.log, VpsStopped);
  }

  /** With the VPs stopped, trying to start leaves them running exactly when they may. */
  lemma TryStartSettles(r: Runner)
    requires Quiet(r) && LatchBalanced(r)
    ensures Settled(TryStart(r)) && TryStart(r).stopCount == r.stopCount
  {
    hide Replay;
    if MayRun(r) {
      ThawKeeps(r);
      ReplayOne(Thaw(r).log, VpsStarted);
    }
  }

  lemma RecordHaltKeeps(r: Runner, reason: Reason)
    requires Quiet(r) && r.haltReason.None?
    ensures Quiet(RecordHalt(r, reason))
  {
    hide Replay;
    ReplayOne(r.log, Reported(reason));
  }

  lemma ClearHaltSettles(r: Runner)
    requires Settled(r)
    ensures r.haltReason.Some? ==> Releasable(r)
    ensures Settled(ClearHalt(r)) && ClearHalt(r).stopCount == r.stopCount
  {
    hide Replay;
    if r.haltReason.Some? {
      ReplayOne(r.log, HaltCleared);
      TryStartSettles(ReleaseLatch(Did(r.(haltReason := None), HaltCleared)));
    }
  }

  /** Processing a popped request, which the latch still counts. */
  lemma HandleHaltSettles(r: Runner, h: HaltRequest)
    requires Quiet(r) && r.haltCount == |r.halts| + 1 + (if r.haltReason.Some? then 1 else 0)
    ensures Settled(HandleHalt(r, h)) && HandleHalt(r, h).stopCount == r.stopCount
  {
    hide Replay;
    match h
    case Halt(reason) =>
      if r.haltReason.None? { RecordHaltKeeps(r, reason); }
    case ReplayMtrrs =>
      ReplayOne(r.log, MtrrsReplayed);
      TryStartSettles(ReleaseLatch(if r.initialRegs.Some? then Did(r, MtrrsReplayed) else r));
  }

  /** The first real halt among queued requests. */
  function FirstHalt(hs: seq<HaltRequest>): Option<Reason> {
    if hs == [] then None else if hs[0].Halt? then Some(hs[0].reason) else FirstHalt(hs[1..])
  }

  /** A stop flushes the whole queue and leaves nothing running. The halt recorded before stays; if
      there was none, the first that raced is recorded and the others are dropped. */
  lemma {:induction false} FlushSettles(r: Runner)
    requires Quiet(r) && LatchBalanced(r) && !r.unitStarted
    ensures Settled(Flush(r)) && Flush(r).halts == [] && !Flush(r).unitStarted
    ensures Flush(r).stopCount == r.stopCount && Flush(r).frozen == r.frozen
    ensures Flush(r).haltReason == if r.haltReason.Some? then r.haltReason else FirstHalt(r.halts)
    decreases |r.halts|
  {
    hide Replay, Faithful;
    if r.halts != [] {
      var popped := r.(halts := r.halts[1..]);
      SameLog(r, popped);
      HandleHaltSettles(popped, r.halts[0]);
      FlushSettles(HandleHalt(popped, r.halts[0]));
    }
  }

  lemma FlushNothing(r: Runner)
    requires !r.vpsStarted && !r.unitStarted && LatchBalanced(r) && r.halts == []
    ensures Flush(r) == r
  {
  }

  lemma FlushStep(r: Runner)
    requires !r.vpsStarted && !r.unitStarted && LatchBalanced(r) && r.halts != []
    ensures var q := HandleHalt(r.(halts := r.halts[1..]), r.halts[0]);
            !q.vpsStarted && !q.unitStarted && LatchBalanced(q) && q.halts == r.halts[1..] && Flush(r) == Flush(q)
  {
  }

  lemma SameLog(r: Runner, q: Runner)
    requires Faithful(r) && q.log == r.log && q.vpsStarted == r.vpsStarted && q.frozen == r.frozen
    requires q.haltReason == r.haltReason && q.needsReset == r.needsReset
    ensures Faithful(q)
  {
  }

  lemma StopSettles(r: Runner)
    requires Settled(r)
    ensures Settled(Stop(r)) && Stop(r).halts == [] && !Stop(r).unitStarted && !Stop(r).vpsStarted
    ensures Stop(r).stopCount == r.stopCount && Stop(r).frozen
    ensures Stop(r).haltReason == if r.haltReason.Some? then r.haltReason else FirstHalt(r.halts)
  {
    hide Replay, Flush;
    StopSetKeeps(r);
    FreezeKeeps(StopSet(r));
    var stopped := Freeze(StopSet(r)).(unitStarted := false);
    SameLog(Freeze(StopSet(r)), stopped);
    FlushSettles(stopped);
  }

  lemma StartSettles(r: Runner)
    requires Settled(r)
    ensures Settled(Start(r)) && Start(r).unitStarted && Start(r).stopCount == r.stopCount && !Start(r).frozen
  {
    hide Replay;
    ThawKeeps(r);
    var up := Thaw(r).(unitStarted := true);
    SameLog(Thaw(r), up);
    if !r.vpsStarted { TryStartSettles(up); }
  }

  lemma ResetSettles(r: Runner, partitionOk: bool, vpsOk: bool)
    requires Settled(r) && !r.unitStarted
    ensures r.haltReason.Some? ==> Releasable(r)
    ensures Settled(Reset(r, partitionOk, vpsOk)) && Reset(r, partitionOk, vpsOk).stopCount == r.stopCount
    ensures partitionOk && vpsOk ==>
              var q := Reset(r, partitionOk, vpsOk); q.haltReason.None? && !q.needsReset && q.haltCount == |q.halts|
  {
    hide Replay;
    ClearHaltSettles(r);
    ReplayOne(ClearHalt(r).log, PartitionReset);
  }

  lemma RestoreSettles(r: Runner, saved: Saved, o: RestoreOutcome)
    requires Settled(r) && !r.unitStarted
    ensures Settled(Restore(r, saved, o).runner) && Restore(r, saved, o).runner.stopCount == r.stopCount
  {
    hide Replay;
    var tried := Did(r.(needsReset := true), RestoreAttempted);
    ReplayOne(r.log, RestoreAttempted);
    var late := Raise(tried, o.raced);
    SameLog(tried, late);
    if saved.haltReason.Some? && late.haltReason.None? {
      RecordHaltKeeps(late.(haltCount := 1), saved.haltReason.value);
    }
  }

  lemma ScrubCleans(r: Runner, vtl: Vtl)
    requires Quiet(r) && r.needsReset
    ensures Quiet(Did(r.(needsReset := false), VtlScrubbed(vtl)))
  {
    hide Replay;
    ReplayOne(r.log, VtlScrubbed(vtl));
  }

  lemma LoadKeeps(r: Runner, vtl: Vtl)
    requires Quiet(r) && !r.needsReset
    ensures Quiet(Did(r, RegsLoaded(vtl)))
  {
    hide Replay;
    ReplayOne(r.log, RegsLoaded(vtl));
  }

  lemma SetInitialRegsSettles(r: Runner, vtl: Vtl, regs: nat, o: RegsOutcome)
    requires Settled(r) && (!r.unitStarted || r.stopCount > 0)
    ensures Settled(SetInitialRegs(r, vtl, regs, o).runner)
    ensures SetInitialRegs(r, vtl, regs, o).runner.stopCount == r.stopCount
  {
    hide Faithful;
    var scrubbed := if !r.needsReset then r else if o.freezes then Freeze(r) else r;
    FreezeKeeps(r);
    if r.needsReset { ScrubCleans(scrubbed, vtl); }
    if !r.needsReset || (o.scrubVtlOk && o.scrubVpsOk) {
      var clean := if r.needsReset then Did(scrubbed.(needsReset := false), VtlScrubbed(vtl)) else r;
      LoadKeeps(clean, vtl);
      var loaded := if o.fromRegisters then Did(clean, RegsLoaded(vtl)) else clean;
      SameLog(loaded, loaded.(initialRegs := Some(regs)));
    }
  }

  lemma StopVpsSettles(r: Runner)
    requires Settled(r)
    ensures Settled(StopVps(r)) && !StopVps(r).vpsStarted && StopVps(r).stopCount == r.stopCount + 1
  {
    hide Replay;
    StopSetKeeps(r);
  }

  lemma ResumeVpsSettles(r: Runner)
    requires Settled(r) && r.stopCount > 0
    ensures Settled(ResumeVps(r)) && ResumeVps(r).stopCount == r.stopCount - 1
  {
    hide Replay;
    var resumed := r.(stopCount := r.stopCount - 1);
    SameLog(r, resumed);
    TryStartSettles(resumed);
  }

  lemma HaltEventSettles(r: Runner)
    requires Settled(r) && r.halts != []
    ensures var popped := StopSet(r.(halts := r.halts[1..]));
            && (r.halts[0] == ReplayMtrrs || popped.haltReason.Some? ==> Releasable(popped))
            && Settled(HandleHalt(popped, r.halts[0])) && HandleHalt(popped, r.halts[0]).stopCount == r.stopCount
  {
    hide Replay;
    var popped := r.(halts := r.halts[1..]);
    SameLog(r, popped);
    StopSetKeeps(popped);
    HandleHaltSettles(StopSet(popped), r.halts[0]);
  }

  // ---- The system: the unit and its clients ----

  datatype Request =
    | ClearHaltRequest
    | SetRegs(vtl: Vtl, regs: nat)
    | AcceptPages
    | StopRequest
    | StopAtIoBoundary
    | StartRequest
    | Dump

  /** `replies` counts handled stop requests whose caller has not yet built its guard; `stranded`
      counts stops that will never be resumed: a caller gave up waiting, or the I/O boundary failed.
      Once `closed`, the event loop has ended. */
  datatype System =
    System(runner: Runner, requests: seq<Request>, guards: nat, replies: nat, stranded: nat, closed: bool)

  datatype Event =
    | HaltRaised(h: HaltRequest)
    | Sent(q: Request)
    | GuardTaken
    | CallAbandoned
    | GuardDropped
    | OnHalt
    | OnRequest(regs: RegsOutcome, ioOk: bool)
    | OnStart
    | OnStop
    | OnReset(partitionOk: bool, vpsOk: bool)
    | OnSave
    | OnRestore(saved: Saved, outcome: RestoreOutcome)
    | OnInspect(clear: bool)
    | OnClose

  function Starts(q: seq<Request>): nat {
    if q == [] then 0 else (if q[0] == StartRequest then 1 else 0) + Starts(q[1..])
  }

  lemma {:induction false} StartsAppend(q: seq<Request>, r: Request)
    ensures Starts(q + [r]) == Starts(q) + (if r == StartRequest then 1 else 0)
  {
    if q != [] {
      StartsAppend(q[1..], r);
      assert (q + [r])[1..] == q[1..] + [r];
    }
  }

  /** Every stop that was counted is a live guard, a reply on its way, a resume on its way, or lost. */
  predicate StopsBalanced(s: System) {
    s.runner.stopCount == s.guards + s.replies + s.stranded + Starts(s.requests)
  }

  ghost predicate Inv(s: System) {
    Settled(s.runner) && StopsBalanced(s)
  }

  /** What can happen: guards come from replies, only dropped guards send resumes, the loop takes
      what is queued, and the framework asks for reset, save and restore while the unit is stopped. */
  predicate Possible(s: System, e: Event) {
    match e
    case HaltRaised(_) => true
    case Sent(q) => q != StartRequest
    case GuardTaken => s.replies > 0
    case CallAbandoned => s.replies > 0
    case GuardDropped => s.guards > 0
    case OnHalt => !s.closed && s.runner.halts != []
    case OnRequest(_, _) => !s.closed && s.requests != []
    case OnReset(_, _) => !s.closed && !s.runner.unitStarted
    case OnSave => !s.closed && !s.runner.unitStarted
    case OnRestore(_, _) => !s.closed && !s.runner.unitStarted
    case _ => !s.closed
  }

  /** The request meets an assertion of its handler that does not hold. */
  predicate FailsAssertion(r: Runner, q: Request) {
    match q
    case SetRegs(_, _) => r.unitStarted && r.stopCount == 0
    case AcceptPages => r.unitStarted
    case StartRequest => r.stopCount == 0
    case _ => false
  }

  predicate Panics(s: System, e: Event)
    requires Possible(s, e)
  {
    e.OnRequest? && FailsAssertion(s.runner, s.requests[0])
  }

  /** What one request does to the unit. */
  ghost function Handled(r: Runner, q: Request, regs: RegsOutcome): Runner
    requires Settled(r) && !FailsAssertion(r, q)
  {
    match q
    case ClearHaltRequest => ClearHaltSettles(r); ClearHalt(r)
    case SetRegs(vtl, value) => SetInitialRegs(r, vtl, value, regs).runner
    case AcceptPages => r
    case StopRequest => StopVps(r)
    case StopAtIoBoundary => StopVps(r)
    case StartRequest => ResumeVps(r)
    case Dump => ResumeVps(StopVps(r))
  }

  /** One request taken from the queue. */
  ghost function Handle(s: System, q: Request, regs: RegsOutcome, ioOk: bool): System
    requires Settled(s.runner) && !FailsAssertion(s.runner, q)
  {
    var after := s.(runner := Handled(s.runner, q, regs));
    if q.StopRequest? || (q.StopAtIoBoundary? && ioOk) then after.(replies := s.replies + 1)
    else if q.StopAtIoBoundary? then after.(stranded := s.stranded + 1)
    else after
  }

  ghost function Next(s: System, e: Event): System
    requires Inv(s) && Possible(s, e) && !Panics(s, e)
  {
    var r := s.runner;
    match e
    case HaltRaised(h) => s.(runner := Raise(r, [h]))
    case Sent(q) => s.(requests := s.requests + [q])
    case GuardTaken => s.(replies := s.replies - 1, guards := s.guards + 1)
    case CallAbandoned => s.(replies := s.replies - 1, stranded := s.stranded + 1)
    case GuardDropped => s.(guards := s.guards - 1, requests := s.requests + [StartRequest])
    case OnHalt => HaltEventSettles(r); s.(runner := HandleHalt(StopSet(r.(halts := r.halts[1..])), r.halts[0]))
    case OnRequest(regs, ioOk) => Handle(s.(requests := s.requests[1..]), s.requests[0], regs, ioOk)
    case OnStart => s.(runner := Start(r))
    case OnStop => s.(runner := Stop(r))
    case OnReset(p, v) => ResetSettles(r, p, v); s.(runner := Reset(r, p, v))
    case OnSave => s
    case OnRestore(saved, o) => s.(runner := Restore(r, saved, o).runner)
    case OnInspect(clear) => ClearHaltSettles(r); if clear then s.(runner := ClearHalt(r)) else s
    case OnClose => s.(runner := if r.unitStarted then Stop(r) else r, closed := true)
  }

  /** What a request adds to the number of outstanding stops. */
  function StopsAdded(q: Request): int {
    match q
    case StopRequest => 1
    case StopAtIoBoundary => 1
    case StartRequest => -1
    case _ => 0
  }

  lemma HandledSettles(r: Runner, q: Request, regs: RegsOutcome)
    requires Settled(r) && !FailsAssertion(r, q)
    ensures Settled(Handled(r, q, regs)) && Handled(r, q, regs).stopCount == r.stopCount + StopsAdded(q)
  {
    hide Settled, ClearHalt, SetInitialRegs, StopVps, ResumeVps;
    match q
    case ClearHaltRequest => ClearHaltSettles(r);
    case SetRegs(vtl, value) => SetInitialRegsSettles(r, vtl, value, regs);
    case AcceptPages =>
    case StopRequest => StopVpsSettles(r);
    case StopAtIoBoundary => StopVpsSettles(r);
    case StartRequest => ResumeVpsSettles(r);
    case Dump =>
      StopVpsSettles(r);
      ResumeVpsSettles(StopVps(r));
  }

  lemma StartsTail(q: seq<Request>)
    requires q != []
    ensures Starts(q) == (if q[0] == StartRequest then 1 else 0) + Starts(q[1..])
  {
  }

  lemma RequestKeeps(s: System, regs: RegsOutcome, ioOk: bool)
    requires Inv(s) && s.requests != [] && !FailsAssertion(s.runner, s.requests[0])
    ensures Inv(Handle(s.(requests := s.requests[1..]), s.requests[0], regs, ioOk))
  {
    hide Settled, Handled, Starts, FailsAssertion;
    HandledSettles(s.runner, s.requests[0], regs);
    StartsTail(s.requests);
  }

  lemma ClientKeeps(s: System, e: Event)
    requires Inv(s) && Possible(s, e)
    requires e.HaltRaised? || e.Sent? || e.GuardTaken? || e.CallAbandoned? || e.GuardDropped?
    ensures Inv(Next(s, e))
  {
    hide Faithful, Starts;
    match e
    case HaltRaised(h) => SameLog(s.runner, Raise(s.runner, [h]));
    case Sent(q) => StartsAppend(s.requests, q);
    case GuardDropped => StartsAppend(s.requests, StartRequest);
    case _ =>
  }

  /** Every step keeps the latch, the stop count, the start condition and the log in order. */
  lemma NextKeeps(s: System, e: Event)
    requires Inv(s) && Possible(s, e) && !Panics(s, e)
    ensures Inv(Next(s, e))
  {
    hide Settled, Starts, HandleHalt, StopSet, Start, Stop, Reset, Restore, ClearHalt, Raise, Handle;
    var r := s.runner;
    match e
    case OnHalt => HaltEventSettles(r);
    case OnRequest(regs, ioOk) => RequestKeeps(s, regs, ioOk);
    case OnStart => StartSettles(r);
    case OnStop => StopSettles(r);
    case OnReset(p, v) => ResetSettles(r, p, v);
    case OnSave =>
    case OnRestore(saved, o) => RestoreSettles(r, saved, o);
    case OnInspect(clear) => ClearHaltSettles(r);
    case OnClose => StopSettles(r);
    case _ => ClientKeeps(s, e);
  }

  /** A new unit; the backend may or may not start with its time frozen. */
  function Init(frozen: bool): System {
    System(Runner(false, 0, false, None, None, false, 0, [], frozen, if frozen then [TimeFrozen] else []), [], 0, 0, 0, false)
  }

  lemma InitInv(frozen: bool)
    ensures Inv(Init(frozen))
  {
    ReplayOne([], TimeFrozen);
    assert [] + [TimeFrozen] == [TimeFrozen];
  }

  datatype Outcome = Impossible | Panicked | Reached(system: System)

  /** Where a run of events leads, if each is possible in its turn. */
  ghost function Run(frozen: bool, events: seq<Event>): (o: Outcome)
    ensures o.Reached? ==> Inv(o.system)
  {
    if events == [] then InitInv(frozen); Reached(Init(frozen))
    else
      var before, e := Run(frozen, events[..|events| - 1]), events[|events| - 1];
      if !before.Reached? then before
      else if !Possible(before.system, e) then Impossible
      else if Panics(before.system, e) then Panicked
      else NextKeeps(before.system, e); Reached(Next(before.system, e))
  }

  lemma RunOne(frozen: bool, events: seq<Event>, e: Event)
    requires Run(frozen, events).Reached? && Possible(Run(frozen, events).system, e)
    ensures var s := Run(frozen, events).system;
            Run(frozen, events + [e]) == if Panics(s, e) then Panicked else Reached(Next(s, e))
  {
    hide Possible, Panics, Next, Inv;
    assert (events + [e])[..|events|] == events;
  }

  /** At every event boundary of every run: VPs run exactly when the unit is started, no halt is
      recorded and no stop is outstanding, and then time runs and no guard is live; the halt latch
      counts unprocessed requests plus the recorded halt; every stop is accounted for. */
  lemma EveryRunIsSafe(frozen: bool, events: seq<Event>)
    requires Run(frozen, events).Reached?
    ensures var s := Run(frozen, events).system;
            var r := s.runner;
            && (r.vpsStarted <==> r.unitStarted && r.haltReason.None? && r.stopCount == 0)
            && (r.vpsStarted ==> !r.frozen && s.guards == 0 && Starts(s.requests) == 0)
            && r.haltCount == |r.halts| + (if r.haltReason.Some? then 1 else 0)
            && r.stopCount == s.guards + s.replies + s.stranded + Starts(s.requests)
            && Replay(r.log).Some? && Replay(r.log).value.halted == r.haltReason
  {
    hide Run;
  }

  // ---- When an assertion fails ----

  /** Exactly when an event of a run meets a failing assertion: initial registers while the unit is
      started and no stop is outstanding in any form, or initial pages while the unit is started.
      Giving back a stop never does. */
  lemma PanicsExactly(frozen: bool, events: seq<Event>, e: Event)
    requires Run(frozen, events).Reached? && Possible(Run(frozen, events).system, e)
    ensures var s := Run(frozen, events).system;
            Run(frozen, events + [e]).Panicked? <==>
              e.OnRequest? && s.runner.unitStarted &&
              (s.requests[0].AcceptPages? ||
               (s.requests[0].SetRegs? && s.guards == 0 && s.replies == 0 && s.stranded == 0 && Starts(s.requests) == 0))
  {
    hide Run, Next, Settled, Starts;
    var s := Run(frozen, events).system;
    RunOne(frozen, events, e);
    if e.OnRequest? { StartsTail(s.requests); }
  }

  function Drops(events: seq<Event>): nat {
    if events == [] then 0 else Drops(events[..|events| - 1]) + (if events[|events| - 1] == GuardDropped then 1 else 0)
  }

  lemma {:induction false} PrefixReached(frozen: bool, events: seq<Event>, more: seq<Event>)
    requires Run(frozen, events + more).Reached?
    ensures Run(frozen, events).Reached?
    decreases |more|
  {
    if more == [] {
      assert events + more == events;
    } else {
      var init := more[..|more| - 1];
      assert (events + more)[..|events| + |init|] == events + init;
      PrefixReached(frozen, events, init);
    }
  }

  lemma NextGuards(s: System, e: Event)
    requires Inv(s) && Possible(s, e) && !Panics(s, e)
    ensures Next(s, e).guards + (if e == GuardDropped then 1 else 0) >= s.guards
  {
    hide Inv;
  }

  /** Guards go away only by being dropped. */
  lemma {:induction false} GuardsLeft(frozen: bool, events: seq<Event>, more: seq<Event>)
    requires Run(frozen, events).Reached? && Run(frozen, events + more).Reached?
    ensures Run(frozen, events + more).system.guards + Drops(more) >= Run(frozen, events).system.guards
    decreases |more|
  {
    hide Next, Possible, Panics, Inv;
    if more == [] {
      assert events + more == events;
    } else {
      var init := more[..|more| - 1];
      assert (events + more)[..|events| + |init|] == events + init;
      GuardsLeft(frozen, events, init);
      NextGuards(Run(frozen, events + init).system, more[|more| - 1]);
    }
  }

  /** A client that holds a guard across its call never meets the assertion: if a guard was live after
      `events` and fewer guards were dropped since, setting registers goes through. */
  lemma HeldGuardSuffices(frozen: bool, events: seq<Event>, more: seq<Event>, e: Event)
    requires Run(frozen, events + more).Reached? && Possible(Run(frozen, events + more).system, e)
    requires Run(frozen, events).Reached? ==> Drops(more) < Run(frozen, events).system.guards
    requires e.OnRequest? && Run(frozen, events + more).system.requests[0].SetRegs?
    ensures Run(frozen, events + more + [e]).Reached?
  {
    hide Run, Next, Inv, Drops, Starts;
    PrefixReached(frozen, events, more);
    GuardsLeft(frozen, events, more);
    PanicsExactly(frozen, events + more, e);
    RunOne(frozen, events + more, e);
  }

  /** Without one, the call of a client of a started unit does meet it. */
  lemma UnheldCallPanics(frozen: bool, vtl: Vtl, regs: nat, o: RegsOutcome, ioOk: bool)
    ensures Run(frozen, [OnStart, Sent(SetRegs(vtl, regs)), OnRequest(o, ioOk)]) == Panicked
  {
    hide Run, Inv, Starts, Start;
    var start, send, take := OnStart, Sent(SetRegs(vtl, regs)), OnRequest(o, ioOk);
    assert [] + [start] == [start] && [start] + [send] == [start, send] && [start, send] + [take] == [start, send, take];
    RunNothing(frozen);
    RunOne(frozen, [], start);
    var r := Start(Init(frozen).runner);
    StartKeepsCount(Init(frozen).runner);
    assert Run(frozen, [start]).system == System(r, [], 0, 0, 0, false);
    RunOne(frozen, [start], send);
    assert [] + [send.q] == [send.q];
    assert Run(frozen, [start, send]).system == System(r, [send.q], 0, 0, 0, false);
    RunOne(frozen, [start, send], take);
  }

  lemma PossibleRequest(s: System, e: Event)
    requires Possible(s, e)
    ensures if e.OnRequest? then !s.closed && s.requests != [] && (Panics(s, e) <==> FailsAssertion(s.runner, s.requests[0]))
            else !Panics(s, e)
  {
  }

  /** A run ends at its first impossible event or failing assertion. */
  lemma {:induction false} StopsAt(frozen: bool, events: seq<Event>, i: nat, o: Outcome)
    requires i < |events| && Run(frozen, events[..i]).Reached? && !o.Reached?
    requires var s := Run(frozen, events[..i]).system;
             if Possible(s, events[i]) then Panics(s, events[i]) && o == Panicked else o == Impossible
    ensures Run(frozen, events) == o
    decreases |events|
  {
    hide Possible, Panics, Next, Inv;
    var n := |events| - 1;
    if i < n {
      assert events[..n][..i] == events[..i];
      StopsAt(frozen, events[..n], i, o);
    }
  }

  lemma RunNothing(frozen: bool)
    ensures Run(frozen, []) == Reached(Init(frozen))
  {
  }

  lemma StartKeepsCount(r: Runner)
    ensures Start(r).unitStarted && Start(r).stopCount == r.stopCount
  {
  }

  // ---- What an accepted log says, without the monitor ----

  predicate Dirties(a: Action) {
    a == VpsStarted || a == RestoreAttempted
  }

  predicate Cleans(a: Action) {
    a == PartitionReset || a.VtlScrubbed?
  }

  lemma {:induction false} PrefixAccepted(log: seq<Action>, i: nat)
    requires Replay(log).Some? && i <= |log|
    ensures Replay(log[..i]).Some?
    decreases |log|
  {
    if i < |log| {
      PrefixAccepted(log[..|log| - 1], i);
      assert log[..|log| - 1][..i] == log[..i];
    } else {
      assert log[..i] == log;
    }
  }

  /** A mark set at `j` and not taken back before `i` still stands at `i`. */
  lemma {:induction false} MarksStand(log: seq<Action>, j: nat, i: nat)
    requires j < i <= |log| && Replay(log[..i]).Some?
    ensures var m := Replay(log[..i]).value;
            && (Dirties(log[j]) && (forall k :: j < k < i ==> !Cleans(log[k])) ==> m.dirty)
            && (log[j] == VpsStarted && (forall k :: j < k < i ==> log[k] != VpsStopped) ==> m.running)
            && (log[j] == TimeFrozen && (forall k :: j < k < i ==> log[k] != TimeThawed) ==> m.frozen)
            && (log[j].Reported? && (forall k :: j < k < i ==> log[k] != HaltCleared) ==> m.halted.Some?)
    decreases i
  {
    hide Replay;
    var before, a := log[..i - 1], log[i - 1];
    assert log[..i] == before + [a];
    assert log[..i][..i - 1] == before;
    PrefixAccepted(log[..i], i - 1);
    ReplayOne(before, a);
    if j < i - 1 { MarksStand(log, j, i - 1); }
  }

  /** In the log of every run, for any earlier step `j` and later step `i`: registers are loaded
      only after a reset or scrub that follows the last time VPs were started or a restore was
      tried; nothing at all happens between a VP start and the next VP stop; VPs start only
      after frozen time was thawed; and after a halt is reported, no other is reported and no VP
      starts until it is cleared. */
  lemma LogsAreOrdered(frozen: bool, events: seq<Event>, j: nat, i: nat)
    requires Run(frozen, events).Reached? && j < i < |Run(frozen, events).system.runner.log|
    ensures var log := Run(frozen, events).system.runner.log;
            && (log[i].RegsLoaded? && Dirties(log[j]) ==> exists k :: j < k < i && Cleans(log[k]))
            && (log[j] == VpsStarted && log[i] != VpsStopped ==>
                  exists k :: j < k < i && log[k] == VpsStopped)
            && (log[j] == TimeFrozen && log[i] == VpsStarted ==> exists k :: j < k < i && log[k] == TimeThawed)
            && (log[j].Reported? && (log[i].Reported? || log[i] == VpsStarted) ==>
                  exists k :: j < k < i && log[k] == HaltCleared)
  {
    hide Replay, Run;
    var log := Run(frozen, events).system.runner.log;
    PrefixAccepted(log, i);
    PrefixAccepted(log, i + 1);
    assert log[..i + 1] == log[..i] + [log[i]];
    ReplayOne(log[..i], log[i]);
    MarksStand(log, j, i);
  }

  // ---- What the backend's answers decide ----

  function When<T>(b: bool, x: T): seq<T> {
    if b then [x] else []
  }

  /** Setting registers succeeds exactly when a needed scrub and a needed load do. A scrub is logged
      only if both its parts succeeded, registers are loaded only after a scrub that was needed, and
      a failed scrub leaves the partition in need of one. */
  lemma SetInitialRegsExact(r: Runner, vtl: Vtl, regs: nat, o: RegsOutcome)
    ensures var q, ok := SetInitialRegs(r, vtl, regs, o).runner, SetInitialRegs(r, vtl, regs, o).ok;
            var clean := r.needsReset ==> o.scrubVtlOk && o.scrubVpsOk;
            && (ok <==> clean && (o.fromRegisters ==> o.loadOk))
            && q.log == r.log + When(r.needsReset && o.freezes && !r.frozen, TimeFrozen)
                        + When(r.needsReset && clean, VtlScrubbed(vtl)) + When(o.fromRegisters && clean, RegsLoaded(vtl))
            && (q.needsReset <==> r.needsReset && !(o.scrubVtlOk && o.scrubVpsOk))
            && q.initialRegs == (if ok then Some(regs) else r.initialRegs)
            && (q.frozen <==> r.frozen || (r.needsReset && o.freezes))
            && q == r.(log := q.log, needsReset := q.needsReset, initialRegs := q.initialRegs, frozen := q.frozen)
  {
  }

  /** A reset that fails in either part leaves the unit as it is; one that succeeds is logged, drops
      the halt and its latch, and marks the partition clean. */
  lemma ResetExact(r: Runner, partitionOk: bool, vpsOk: bool)
    requires Settled(r) && !r.unitStarted
    ensures r.haltReason.Some? ==> Releasable(r)
    ensures var q := Reset(r, partitionOk, vpsOk);
            if partitionOk && vpsOk then
              && q.log == r.log + When(r.haltReason.Some?, HaltCleared) + [PartitionReset]
              && q == r.(log := q.log, haltReason := None, needsReset := false, haltCount := |r.halts|)
            else q == r
  {
    hide Faithful;
  }

  /** A restore dirties the partition whatever happens next; on success it records and reports the
      saved halt and nothing else, and a failure only leaves the halts that raced in. */
  lemma RestoreExact(r: Runner, saved: Saved, o: RestoreOutcome)
    requires Settled(r) && !r.unitStarted
    ensures var q, ok := Restore(r, saved, o).runner, Restore(r, saved, o).ok;
            && q.needsReset && r.log + [RestoreAttempted] <= q.log
            && (ok <==> o.parsed && o.partitionOk && o.vpsOk && r.haltReason.None? && r.halts == [] && o.raced == [])
            && (if ok then
                  && q.haltReason == saved.haltReason && q.halts == []
                  && q.log == r.log + [RestoreAttempted] +
                              (if saved.haltReason.Some? then [Reported(saved.haltReason.value)] else [])
                else
                  && q.haltReason == r.haltReason && q.log == r.log + [RestoreAttempted]
                  && (q.halts == r.halts || q.halts == r.halts + o.raced))
  {
    hide Faithful;
  }

  /** What each event does, besides keeping the unit in order: who is started, which halt is recorded
      and what is queued. */
  lemma EventEffects(s: System, e: Event)
    requires Inv(s) && Possible(s, e) && !Panics(s, e)
    ensures var r, q := s.runner, Next(s, e).runner;
            match e
            case OnStart => q.unitStarted && q.haltReason == r.haltReason && q.halts == r.halts
            case OnStop => !q.unitStarted && q.halts == [] && q.haltReason == Earliest(r)
            case OnClose => !q.unitStarted && Next(s, e).closed && (r.unitStarted ==> q.halts == [] && q.haltReason == Earliest(r))
            case OnHalt =>
              && q.unitStarted == r.unitStarted && q.halts == r.halts[1..]
              && q.haltReason == (if r.haltReason.None? && r.halts[0].Halt? then Some(r.halts[0].reason) else r.haltReason)
            case HaltRaised(h) => q.halts == r.halts + [h] && q.haltReason == r.haltReason && q.unitStarted == r.unitStarted
            case OnInspect(clear) => q.unitStarted == r.unitStarted && q.halts == r.halts && q.haltReason == (if clear then None else r.haltReason)
            case OnRequest(_, _) =>
              && q.unitStarted == r.unitStarted && q.halts == r.halts
              && q.haltReason == (if s.requests[0].ClearHaltRequest? then None else r.haltReason)
              && Next(s, e).requests == s.requests[1..]
            case _ => q.unitStarted == r.unitStarted
  {
    hide Settled, StopsBalanced, Start, Stop, HandleHalt, ClearHalt, Handled, Reset, Restore;
    var r := s.runner;
    match e
    case OnStart => StartEffects(r);
    case OnStop => StopSettles(r);
    case OnClose => StopSettles(r);
    case OnHalt =>
      HaltEventSettles(r);
      HandleHaltEffects(StopSet(r.(halts := r.halts[1..])), r.halts[0]);
    case OnInspect(_) =>
      ClearHaltSettles(r);
      ClearHaltEffects(r);
    case OnRequest(regs, _) => RequestEffects(r, s.requests[0], regs);
    case OnReset(p, v) => ResetExact(r, p, v);
    case OnRestore(saved, o) => RestoreKeepsStarted(r, saved, o);
    case _ =>
  }

  /** What each event does to what clients hold and what is on its way. */
  lemma ClientEffects(s: System, e: Event)
    requires Inv(s) && Possible(s, e) && !Panics(s, e)
    ensures var t := Next(s, e);
            var stops := e.OnRequest? && (s.requests[0].StopRequest? || s.requests[0].StopAtIoBoundary?);
            var answered := stops && (s.requests[0].StopRequest? || e.ioOk);
            && t.guards == s.guards + (if e.GuardTaken? then 1 else 0) - (if e.GuardDropped? then 1 else 0)
            && t.replies == s.replies + (if answered then 1 else 0) - (if e.GuardTaken? || e.CallAbandoned? then 1 else 0)
            && t.stranded == s.stranded + (if e.CallAbandoned? || (stops && !answered) then 1 else 0)
            && t.requests == (match e
                              case Sent(q) => s.requests + [q]
                              case GuardDropped => s.requests + [StartRequest]
                              case OnRequest(_, _) => s.requests[1..]
                              case _ => s.requests)
            && (t.closed <==> s.closed || e.OnClose?)
  {
    hide Settled, StopsBalanced, Start, Stop, HandleHalt, ClearHalt, Handled, Reset, Restore;
  }

  /** The halt that stands after a stop. */
  function Earliest(r: Runner): Option<Reason> {
    if r.haltReason.Some? then r.haltReason else FirstHalt(r.halts)
  }

  lemma TryStartEffects(r: Runner)
    ensures var q := TryStart(r);
            q.unitStarted == r.unitStarted && q.haltReason == r.haltReason && q.halts == r.halts
  {
  }

  lemma StartEffects(r: Runner)
    ensures Start(r).unitStarted && Start(r).haltReason == r.haltReason && Start(r).halts == r.halts
  {
    hide TryStart;
    TryStartEffects(Thaw(r).(unitStarted := true));
  }

  lemma ClearHaltEffects(r: Runner)
    requires r.haltReason.Some? ==> Releasable(r)
    ensures var q := ClearHalt(r);
            q.unitStarted == r.unitStarted && q.haltReason.None? && q.halts == r.halts
  {
    hide TryStart;
    if r.haltReason.Some? { TryStartEffects(ReleaseLatch(Did(r.(haltReason := None), HaltCleared))); }
  }

  /** Replaying MTRRs happens only if there are registers to replay, and leaves the halt as it is. */
  lemma HandleHaltEffects(r: Runner, h: HaltRequest)
    requires h == ReplayMtrrs || r.haltReason.Some? ==> Releasable(r)
    ensures var q := HandleHalt(r, h);
            && q.unitStarted == r.unitStarted && q.halts == r.halts
            && q.haltReason == (if r.haltReason.None? && h.Halt? then Some(h.reason) else r.haltReason)
            && r.log + When(h.ReplayMtrrs? && r.initialRegs.Some?, MtrrsReplayed) <= q.log
            && (MtrrsReplayed in q.log[|r.log|..] <==> h.ReplayMtrrs? && r.initialRegs.Some?)
  {
    hide Thaw, StartSet, MayRun;
    if h.ReplayMtrrs? {
      var done := ReleaseLatch(if r.initialRegs.Some? then Did(r, MtrrsReplayed) else r);
      TryStartEffects(done);
      TryStartLogs(done);
      var q := HandleHalt(r, h);
      if r.initialRegs.Some? {
        assert q.log[|r.log|..][0] == MtrrsReplayed;
      } else {
        assert q.log[|r.log|..] == q.log[|done.log|..];
      }
    }
  }

  lemma TryStartLogs(r: Runner)
    ensures r.log <= TryStart(r).log && MtrrsReplayed !in TryStart(r).log[|r.log|..]
  {
  }

  lemma RestoreKeepsStarted(r: Runner, saved: Saved, o: RestoreOutcome)
    ensures Restore(r, saved, o).runner.unitStarted == r.unitStarted
  {
  }

  /** A clear request leaves no halt recorded; the others leave the halt as it is. */
  lemma RequestEffects(r: Runner, q: Request, regs: RegsOutcome)
    requires Settled(r) && !FailsAssertion(r, q)
    ensures var after := Handled(r, q, regs);
            && after.unitStarted == r.unitStarted && after.halts == r.halts
            && after.haltReason == (if q.ClearHaltRequest? then None else r.haltReason)
            && (q.AcceptPages? ==> after == r)
            && (q.SetRegs? ==> after == SetInitialRegs(r, q.vtl, q.regs, regs).runner)
            && (q.StopRequest? || q.StopAtIoBoundary? || q.Dump? ==> r.log + When(r.vpsStarted, VpsStopped) <= after.log)
            && (q.StopRequest? || q.StopAtIoBoundary? ==> !after.vpsStarted)
  {
    hide Settled, TryStart, ClearHalt, SetInitialRegs;
    match q
    case ClearHaltRequest =>
      ClearHaltSettles(r);
      ClearHaltEffects(r);
    case SetRegs(vtl, value) => SetInitialRegsExact(r, vtl, value, regs);
    case StartRequest => TryStartEffects(r.(stopCount := r.stopCount - 1));
    case Dump =>
      TryStartEffects(StopVps(r).(stopCount := StopVps(r).stopCount - 1));
      TryStartLogs(StopVps(r).(stopCount := StopVps(r).stopCount - 1));
    case _ =>
  }

  // ---- Scrubbing one VTL ----

  /** The documented promise, that the target VTL is clean when its registers are loaded, holds
      exactly when the partition needs a reset at the time of the call, or was never dirtied, or
      was last cleaned by a reset or by a scrub of this same VTL. */
  lemma ScrubPromiseExact(r: Runner, vtl: Vtl, regs: nat, o: RegsOutcome)
    requires Settled(r) && (!r.unitStarted || r.stopCount > 0)
    requires SetInitialRegs(r, vtl, regs, o).ok
    ensures var after := SetInitialRegs(r, vtl, regs, o).runner;
            && Replay(r.log).Some? && Replay(after.log).Some?
            && (vtl !in Replay(after.log).value.stale <==>
                  r.needsReset || !Replay(r.log).value.cleaner.ByScrub? || Replay(r.log).value.cleaner == ByScrub(vtl))
  {
    hide Replay;
    var scrubbed := if !r.needsReset then r else if o.freezes then Freeze(r) else r;
    FreezeKeeps(r);
    ReplayOne(r.log, TimeFrozen);
    ReplayOne(scrubbed.log, VtlScrubbed(vtl));
    var clean := if r.needsReset then Did(scrubbed.(needsReset := false), VtlScrubbed(vtl)) else r;
    if r.needsReset { ScrubCleans(scrubbed, vtl); }
    ReplayOne(clean.log, RegsLoaded(vtl));
  }

  /** Registers for two VTLs after a run: the second VTL is loaded without ever being scrubbed. */
  lemma SecondVtlNotScrubbed(regs: nat)
    ensures var ok := RegsOutcome(false, true, true, true, true);
            var ran := Stop(Start(Init(true).runner));
            var first := SetInitialRegs(ran, Vtl2, regs, ok);
            var second := SetInitialRegs(first.runner, Vtl0, regs, ok);
            && first.ok && second.ok
            && second.runner.log == ran.log + [VtlScrubbed(Vtl2), RegsLoaded(Vtl2), RegsLoaded(Vtl0)]
            && Replay(second.runner.log).Some? && Vtl0 in Replay(second.runner.log).value.stale
  {
    hide Replay, Faithful;
    var ok := RegsOutcome(false, true, true, true, true);
    var ran := Stop(Start(Init(true).runner));
    InitInv(true);
    StartSettles(Init(true).runner);
    StopSettles(Start(Init(true).runner));
    var first := SetInitialRegs(ran, Vtl2, regs, ok);
    SetInitialRegsSettles(ran, Vtl2, regs, ok);
    CleanerIs(ran, Vtl2);
    ScrubPromiseExact(first.runner, Vtl0, regs, ok);
    var second := SetInitialRegs(first.runner, Vtl0, regs, ok);
    assert second.runner.log == ran.log + [VtlScrubbed(Vtl2), RegsLoaded(Vtl2), RegsLoaded(Vtl0)];
  }

  lemma CleanerIs(r: Runner, vtl: Vtl)
    requires Quiet(r) && r.needsReset
    ensures var log := r.log + [VtlScrubbed(vtl)] + [RegsLoaded(vtl)];
            Replay(log).Some? && Replay(log).value.cleaner == ByScrub(vtl)
  {
    hide Replay;
    ReplayOne(r.log, VtlScrubbed(vtl));
    ReplayOne(r.log + [VtlScrubbed(vtl)], RegsLoaded(vtl));
  }

  /** A saved halt is latched and reported again by a restore into a clean, stopped unit. */
  lemma SaveRestoreKeepsHalt(r: Runner, target: Runner)
    requires Settled(target) && !target.unitStarted && target.haltReason.None? && target.halts == []
    ensures var result := Restore(target, Save(r), RestoreOutcome(true, true, true, []));
            && result.ok && Settled(result.runner) && result.runner.haltReason == r.haltReason
            && result.runner.haltCount == (if r.haltReason.Some? then 1 else 0)
            && (r.haltReason.Some? ==> result.runner.log == target.log + [RestoreAttempted, Reported(r.haltReason.value)])
  {
    RestoreSettles(target, Save(r), RestoreOutcome(true, true, true, []));
  }

  /** A restore succeeds only into a unit without a halt, recorded or latched, from start to end. */
  lemma RestoreRefusesHalts(r: Runner, saved: Saved, o: RestoreOutcome)
    requires Settled(r) && !r.unitStarted
    ensures Restore(r, saved, o).ok <==>
              o.parsed && o.partitionOk && o.vpsOk && r.haltReason.None? && r.halts == [] && o.raced == []
    ensures !Restore(r, saved, o).ok ==>
              Restore(r, saved, o).runner.haltReason == r.haltReason
  {
  }
}
