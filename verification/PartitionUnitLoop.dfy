/** The event loop of the partition unit and its handlers, updating the unit's fields step by step;
    each is tied to its specification in module `PartitionUnit`. */
module PartitionUnitLoop {
  import opened Wrappers
  import S = PartitionUnit

  class PartitionUnitRunner {
    var unitStarted: bool
    var stopCount: nat
    var needsReset: bool
    var haltReason: Option<S.Reason>
    var initialRegs: Option<nat>
    // the VP set and the halt latch it shares with other threads
    var vpsStarted: bool
    var haltCount: nat
    var halts: seq<S.HaltRequest>
    // the backend
    var frozen: bool
    var log: seq<S.Action>

    function View(): S.Runner
      reads this
    {
      S.Runner(unitStarted, stopCount, needsReset, haltReason, initialRegs, vpsStarted, haltCount, halts, frozen, log)
    }

    constructor (frozen: bool)
      ensures View() == S.Init(frozen).runner
    {
      unitStarted, stopCount, needsReset := false, 0, false;
      haltReason, initialRegs := None, None;
      vpsStarted, haltCount, halts := false, 0, [];
      this.frozen, log := frozen, if frozen then [S.TimeFrozen] else [];
    }

    // ---- The backend and the VP set ----

    method FreezeTime()
      modifies this`frozen, this`log
      ensures View() == S.Freeze(old(View()))
    {
      if !frozen { frozen, log := true, log + [S.TimeFrozen]; }
    }

    method ThawTime()
      modifies this`frozen, this`log
      ensures View() == S.Thaw(old(View()))
    {
      if frozen { frozen, log := false, log + [S.TimeThawed]; }
    }

    method StopVpSet()
      modifies this`vpsStarted, this`log
      ensures View() == S.StopSet(old(View()))
    {
      if vpsStarted { vpsStarted, log := false, log + [S.VpsStopped]; }
    }

    method StartVpSet()
      modifies this`vpsStarted, this`log
      ensures View() == S.StartSet(old(View()))
    {
      if !vpsStarted { vpsStarted, log := true, log + [S.VpsStarted]; }
    }

    method ReleaseHaltLatch()
      requires S.Releasable(View())
      modifies this`haltCount
      ensures View() == S.ReleaseLatch(old(View()))
    {
      assert !vpsStarted;
      haltCount := haltCount - 1;
    }

    /** Any thread may halt the VPs at any time. */
    method RaiseHalt(h: S.HaltRequest)
      modifies this`haltCount, this`halts
      ensures View() == S.Raise(old(View()), [h])
    {
      haltCount := haltCount + 1;
      halts := halts + [h];
    }

    // ---- The handlers ----

    method TryStart()
      modifies this
      ensures View() == S.TryStart(old(View()))
    {
      if unitStarted && haltReason.None? && stopCount == 0 {
        ThawTime();
        needsReset := true;
        StartVpSet();
      }
    }

    method RecordHalt(reason: S.Reason)
      requires haltReason.None?
      modifies this`haltReason, this`log
      ensures View() == S.RecordHalt(old(View()), reason)
    {
      haltReason := Some(reason);
      log := log + [S.Reported(reason)];
    }

    method ClearHalt() returns (cleared: bool)
      requires haltReason.Some? ==> S.Releasable(View())
      modifies this
      ensures View() == S.ClearHalt(old(View()))
      ensures cleared == old(haltReason.Some?)
    {
      if haltReason.Some? {
        haltReason := None;
        log := log + [S.HaltCleared];
        ReleaseHaltLatch();
        TryStart();
        cleared := true;
      } else {
        cleared := false;
      }
    }

    method HandleHalt(h: S.HaltRequest)
      requires h == S.ReplayMtrrs || haltReason.Some? ==> S.Releasable(View())
      modifies this
      ensures View() == S.HandleHalt(old(View()), h)
    {
      match h
      case Halt(reason) =>
        if haltReason.None? {
          RecordHalt(reason);
        } else {
          ReleaseHaltLatch();
        }
      case ReplayMtrrs =>
        if initialRegs.Some? { log := log + [S.MtrrsReplayed]; }
        ReleaseHaltLatch();
        TryStart();
    }

    /** Takes one halt request off the queue, stopping the VPs before anything is reported. */
    method OnHalt()
      requires S.Settled(View()) && halts != []
      modifies this
      ensures var r := old(View());
              && S.Settled(View())
              && View() == S.HandleHalt(S.StopSet(r.(halts := r.halts[1..])), r.halts[0])
    {
      hide S.Faithful;
      S.HaltEventSettles(View());
      var h := halts[0];
      halts := halts[1..];
      StopVpSet();
      HandleHalt(h);
    }

    method SetInitialRegs(vtl: S.Vtl, regs: nat, o: S.RegsOutcome) returns (ok: bool)
      requires S.Settled(View()) && (!unitStarted || stopCount > 0)
      modifies this
      ensures S.RegsResult(View(), ok) == S.SetInitialRegs(old(View()), vtl, regs, o)
      ensures ok <==> (old(needsReset) ==> o.scrubVtlOk && o.scrubVpsOk) && (o.fromRegisters ==> o.loadOk)
      ensures needsReset <==> old(needsReset) && !(o.scrubVtlOk && o.scrubVpsOk)
      ensures initialRegs == if ok then Some(regs) else old(initialRegs)
      ensures S.Settled(View())
    {
      hide S.Faithful;
      S.SetInitialRegsSettles(View(), vtl, regs, o);
      assert !vpsStarted;
      if needsReset {
        if o.freezes { FreezeTime(); }
        if !o.scrubVtlOk { return false; }
        if !o.scrubVpsOk { return false; }
        needsReset := false;
        log := log + [S.VtlScrubbed(vtl)];
      }
      if o.fromRegisters {
        log := log + [S.RegsLoaded(vtl)];
        if !o.loadOk { return false; }
      }
      initialRegs := Some(regs);
      ok := true;
    }

    method StopVps()
      requires S.Settled(View())
      modifies this
      ensures View() == S.StopVps(old(View())) && S.Settled(View())
    {
      S.StopVpsSettles(View());
      StopVpSet();
      stopCount := stopCount + 1;
    }

    method ResumeVps()
      requires S.Settled(View()) && stopCount > 0
      modifies this
      ensures View() == S.ResumeVps(old(View())) && S.Settled(View())
    {
      S.ResumeVpsSettles(View());
      stopCount := stopCount - 1;
      TryStart();
    }

    method Start()
      requires S.Settled(View())
      modifies this
      ensures View() == S.Start(old(View())) && S.Settled(View())
    {
      S.StartSettles(View());
      ThawTime();
      unitStarted := true;
      TryStart();
    }

    /** Handles the halt requests that raced with a stop. */
    method FlushHalts()
      requires !vpsStarted && !unitStarted && S.LatchBalanced(View())
      modifies this
      ensures View() == S.Flush(old(View()))
    {
      hide S.Flush, S.HandleHalt;
      while halts != []
        invariant !vpsStarted && !unitStarted && S.LatchBalanced(View())
        invariant S.Flush(View()) == S.Flush(old(View()))
        decreases |halts|
      {
        S.FlushStep(View());
        var h := halts[0];
        halts := halts[1..];
        HandleHalt(h);
      }
      S.FlushNothing(View());
    }

    method Stop()
      requires S.Settled(View())
      modifies this
      ensures View() == S.Stop(old(View())) && S.Settled(View())
    {
      hide S.Flush, S.Faithful;
      S.StopSettles(View());
      StopVpSet();
      FreezeTime();
      unitStarted := false;
      FlushHalts();
    }

    method Reset(partitionOk: bool, vpsOk: bool) returns (ok: bool)
      requires S.Settled(View()) && !unitStarted
      modifies this
      ensures S.Settled(View()) && ok == (partitionOk && vpsOk)
      ensures View() == S.Reset(old(View()), partitionOk, vpsOk)
    {
      hide S.Faithful;
      S.ResetSettles(View(), partitionOk, vpsOk);
      if !partitionOk { return false; }
      assert !vpsStarted;
      if !vpsOk { return false; }
      var _ := ClearHalt();
      needsReset := false;
      log := log + [S.PartitionReset];
      ok := true;
    }

    method Restore(saved: S.Saved, o: S.RestoreOutcome) returns (ok: bool)
      requires S.Settled(View()) && !unitStarted
      modifies this
      ensures S.RestoreResult(View(), ok) == S.Restore(old(View()), saved, o)
      ensures S.Settled(View())
    {
      hide S.Faithful;
      S.RestoreSettles(View(), saved, o);
      needsReset := true;
      log := log + [S.RestoreAttempted];
      if !o.parsed { return false; }
      if haltReason.Some? { return false; }
      if vpsStarted || haltCount != 0 { return false; }
      // halts that other threads raise while the partition and the VPs are restored
      for i := 0 to |o.raced|
        invariant View() == S.Raise(S.Did(old(View()).(needsReset := true), S.RestoreAttempted), o.raced[..i])
      {
        RaiseHalt(o.raced[i]);
        assert o.raced[..i + 1] == o.raced[..i] + [o.raced[i]];
      }
      assert o.raced[..|o.raced|] == o.raced;
      if !o.partitionOk || !o.vpsOk { return false; }
      if haltCount != 0 { return false; }
      if saved.haltReason.Some? {
        haltCount := 1;
        RecordHalt(saved.haltReason.value);
      }
      ok := true;
    }

    /** Counts the stop first, and keeps it even if the boundary fails. */
    method StopAtIoBoundary()
      requires S.Settled(View())
      modifies this
      ensures View() == S.StopVps(old(View())) && S.Settled(View())
    {
      S.StopVpsSettles(View());
      stopCount := stopCount + 1;
      StopVpSet();
    }

    method BuildDump()
      requires S.Settled(View())
      modifies this
      ensures View() == S.ResumeVps(S.StopVps(old(View()))) && S.Settled(View())
    {
      StopVps();
      ResumeVps();
    }

    /** Handles one request; `ok` is false where the handler's assertion fails. */
    method OnRequest(q: S.Request, regs: S.RegsOutcome) returns (ok: bool)
      requires S.Settled(View())
      modifies this
      ensures ok <==> !S.FailsAssertion(old(View()), q)
      ensures ok ==> View() == S.Handled(old(View()), q, regs)
    {
      hide S.Faithful;
      ok := true;
      match q {
        case ClearHaltRequest =>
          S.ClearHaltSettles(View());
          var _ := ClearHalt();
        case SetRegs(vtl, value) =>
          if unitStarted && stopCount == 0 { return false; }
          var _ := SetInitialRegs(vtl, value, regs);
        case AcceptPages =>
          if unitStarted { return false; }
        case StopRequest =>
          StopVps();
        case StopAtIoBoundary =>
          StopAtIoBoundary();
        case StartRequest =>
          if stopCount == 0 { return false; }
          ResumeVps();
        case Dump =>
          BuildDump();
      }
    }
  }

  /** The unit with its clients. */
  class Machine {
    const runner: PartitionUnitRunner
    var requests: seq<S.Request>
    var guards: nat
    var replies: nat
    var stranded: nat
    var closed: bool

    function View(): S.System
      reads this, runner
    {
      S.System(runner.View(), requests, guards, replies, stranded, closed)
    }

    constructor (frozen: bool)
      ensures View() == S.Init(frozen) && fresh(runner)
    {
      runner := new PartitionUnitRunner(frozen);
      requests, guards, replies, stranded, closed := [], 0, 0, 0, false;
    }

    /** What clients and other threads do. */
    method OnClient(e: S.Event)
      requires S.Inv(View()) && S.Possible(View(), e) && !S.Panics(View(), e)
      requires e.HaltRaised? || e.Sent? || e.GuardTaken? || e.CallAbandoned? || e.GuardDropped?
      modifies this, runner
      ensures View() == S.Next(old(View()), e)
    {
      hide S.Inv;
      match e
      case HaltRaised(h) => runner.RaiseHalt(h);
      case Sent(q) => requests := requests + [q];
      case GuardTaken => replies, guards := replies - 1, guards + 1;
      case CallAbandoned => replies, stranded := replies - 1, stranded + 1;
      case GuardDropped => guards, requests := guards - 1, requests + [S.StartRequest];
    }

    /** Takes one request off the queue. */
    method OnRequest(regs: S.RegsOutcome, ioOk: bool) returns (ok: bool)
      requires S.Inv(View()) && requests != [] && !closed
      modifies this, runner
      ensures ok <==> !S.FailsAssertion(old(View()).runner, old(requests)[0])
      ensures ok ==> View() == S.Next(old(View()), S.OnRequest(regs, ioOk))
    {
      hide S.Settled, S.Handled, S.StopsBalanced;
      var q := requests[0];
      requests := requests[1..];
      ok := runner.OnRequest(q, regs);
      if !ok { return; }
      if q.StopRequest? || (q.StopAtIoBoundary? && ioOk) {
        replies := replies + 1;
      } else if q.StopAtIoBoundary? {
        stranded := stranded + 1;
      }
    }

    /** What the state-unit framework asks for, and halts. */
    method OnUnit(e: S.Event)
      requires S.Inv(View()) && S.Possible(View(), e) && !S.Panics(View(), e)
      requires e.OnHalt? || e.OnStart? || e.OnStop? || e.OnReset? || e.OnSave? || e.OnRestore? || e.OnInspect? || e.OnClose?
      modifies this, runner
      ensures View() == S.Next(old(View()), e)
    {
      hide S.Faithful, S.StopsBalanced;
      match e
      case OnHalt => runner.OnHalt();
      case OnStart => runner.Start();
      case OnStop => runner.Stop();
      case OnReset(p, v) =>
        var _ := runner.Reset(p, v);
      case OnSave =>
      case OnRestore(saved, o) =>
        var _ := runner.Restore(saved, o);
      case OnInspect(clear) =>
        S.ClearHaltSettles(runner.View());
        if clear {
          var _ := runner.ClearHalt();
        }
      case OnClose =>
        if runner.unitStarted { runner.Stop(); }
        closed := true;
    }
  }

  /** The event loop: running the class on any events leads where the specification says, so what is
      proved of every run holds of the class. */
  method Run(frozen: bool, events: seq<S.Event>) returns (outcome: S.Outcome)
    ensures outcome == S.Run(frozen, events)
  {
    hide S.Next, S.Inv, S.Possible, S.Panics, S.Run;
    var m := new Machine(frozen);
    S.RunNothing(frozen);
    for i := 0 to |events|
      invariant fresh(m) && fresh(m.runner) && S.Run(frozen, events[..i]) == S.Reached(m.View())
    {
      var e := events[i];
      assert events[..i + 1] == events[..i] + [e];
      if !S.Possible(m.View(), e) {
        S.StopsAt(frozen, events, i, S.Impossible);
        return S.Impossible;
      }
      S.RunOne(frozen, events[..i], e);
      S.PossibleRequest(m.View(), e);
      match e {
        case OnRequest(regs, ioOk) =>
          var ok := m.OnRequest(regs, ioOk);
          if !ok {
            S.StopsAt(frozen, events, i, S.Panicked);
            return S.Panicked;
          }
        case HaltRaised(_) => m.OnClient(e);
        case Sent(_) => m.OnClient(e);
        case GuardTaken => m.OnClient(e);
        case CallAbandoned => m.OnClient(e);
        case GuardDropped => m.OnClient(e);
        case _ => m.OnUnit(e);
      }
    }
    assert events[..|events|] == events;
    outcome := S.Reached(m.View());
  }
}
