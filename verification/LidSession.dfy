/** Lid-closed sessions (crates/app/src/lid.rs): the owner of a guardian, from its spawning to
    its reaping, on every error path. */
module LidSessions {
  import opened Wrappers
  import opened LidLedger
  import opened Platform
  import Protocol = GuardianProtocol

  datatype LidError =
    | Spawn
    | Io
    | Enable
    | ResetFailed

  class LidSession {
    const machine: Machine
    var input: bool              // the write end of the guardian's pipe is open
    var guardian: Option<nat>    // the child process, until it has been taken to be reaped
    var diagnostics: bool        // the stderr drain, until it has been joined

    constructor (machine: Machine, g: nat)
      ensures this.machine == machine && input && guardian == Some(g) && !diagnostics
    {
      this.machine, input, guardian, diagnostics := machine, true, Some(g), false;
    }

    /** The session owns a guardian that the application may still stop. */
    ghost predicate Owns(g: nat)
      reads this, machine
    {
      && guardian == Some(g)
      && (machine.sys.app == Protocol.Starting(g) || (machine.sys.app.Idle? && g in machine.sys.held))
    }

    /** Dropping the write end of the pipe. */
    method CloseInput(g: nat)
      requires machine.Valid()
      requires machine.sys.app == Protocol.Starting(g) || (machine.sys.app.Idle? && g in machine.sys.held)
      modifies machine`sys, machine`trace
      ensures machine.Valid() && Closed(old(machine.sys), machine.sys, g)
      ensures old(machine.sys.app).Idle? ==> machine.sys.guardians[g].pc.Reading?
      ensures machine.sys.flag == old(machine.sys.flag)
    {
      hide Machine.Valid;
      machine.ProtocolHolds();
      Protocol.OwnedGuardian(machine.sys, g);
      if machine.sys.app.Starting? {
        machine.Do(Protocol.GiveUp);
      } else {
        machine.Do(Protocol.BeginStop(g));
      }
    }

    /** How far a guardian has come that was blocked in its read, since these values. */
    ghost predicate Ran(g: nat, asked: nat, flag: bool)
      requires g < |machine.sys.guardians|
      reads machine`asked, machine`sys
    {
      match machine.sys.guardians[g].pc
      case Reading => machine.asked == asked && machine.sys.flag == flag
      case Resetting => machine.asked == asked && machine.sys.flag == flag
      case Exited(ok) =>
        && ok == machine.choice(asked) && machine.asked == asked + 1
        && machine.sys.flag == (flag && !ok) && machine.sys.tainted == !ok
      case _ => false
    }

    /** What stopping a session in use comes to. The first answer is the reset's, and it alone decides
        the sleep setting; the second, if diagnostics are drained, is the join's. Success takes
        both. */
    twostate predicate StopOutcome(ok: bool)
      reads machine`asked, machine`sys
    {
      var asked := old(machine.asked);
      && (ok <==> machine.choice(asked) && (old(diagnostics) ==> machine.choice(asked + 1)))
      && machine.asked == asked + (if old(diagnostics) then 2 else 1)
      && machine.sys.flag == (old(machine.sys.flag) && !machine.choice(asked))
      && machine.sys.tainted == !machine.choice(asked)
    }

    /** `wait`: the guardian runs its script to the end and is reaped. */
    method Wait(g: nat) returns (success: bool)
      requires machine.Valid() && g < |machine.sys.guardians|
      requires machine.sys.app == Protocol.Failing(g) || machine.sys.app == Protocol.Stopping(g)
      requires !machine.sys.guardians[g].inputOpen && machine.sys.guardians[g].pc != Protocol.Exited(true)
      modifies machine`asked, machine`sys, machine`trace
      ensures machine.Valid() && machine.sys.app.Idle? && machine.sys.held == old(machine.sys.held)
      ensures machine.sys.calls
           == old(machine.sys.calls) + [if old(machine.sys.app).Failing? then Failed else Stopped(g)]
      ensures OnlyGuardian(old(machine.sys), machine.sys, g)
      ensures machine.sys.guardians[g].pc == Protocol.Exited(success)
      ensures success ==> !machine.sys.flag && !machine.sys.tainted
      ensures machine.Smooth() && !old(machine.sys.guardians[g].pc).Exited? ==> success
      ensures old(machine.sys.guardians[g].pc).Reading? ==>
                && success == machine.choice(old(machine.asked)) && machine.asked == old(machine.asked) + 1
                && machine.sys.flag == (old(machine.sys.flag) && !success) && machine.sys.tainted == !success
      ensures machine.asked == AfterScript(machine, old(machine.sys.guardians[g].pc), old(machine.asked))
      ensures machine.sys.flag
           == SetAfterScript(machine, old(machine.sys.guardians[g].pc), old(machine.asked), old(machine.sys.flag))
    {
      hide Machine.Valid, Machine.Smooth;
      while !machine.sys.guardians[g].pc.Exited?
        invariant machine.Valid() && machine.sys.app == old(machine.sys.app)
        invariant machine.sys.held == old(machine.sys.held) && machine.sys.calls == old(machine.sys.calls)
        invariant OnlyGuardian(old(machine.sys), machine.sys, g) && !machine.sys.guardians[g].inputOpen
        invariant machine.sys.guardians[g].pc == Protocol.Exited(true) ==> !machine.sys.flag && !machine.sys.tainted
        invariant machine.Smooth() && !old(machine.sys.guardians[g].pc).Exited? ==>
                    machine.sys.guardians[g].pc != Protocol.Exited(false)
        invariant old(machine.sys.guardians[g].pc).Reading? ==> Ran(g, old(machine.asked), old(machine.sys.flag))
        invariant AfterScript(machine, machine.sys.guardians[g].pc, machine.asked)
               == AfterScript(machine, old(machine.sys.guardians[g].pc), old(machine.asked))
        invariant SetAfterScript(machine, machine.sys.guardians[g].pc, machine.asked, machine.sys.flag)
               == SetAfterScript(machine, old(machine.sys.guardians[g].pc), old(machine.asked), old(machine.sys.flag))
        decreases Protocol.Distance(machine.sys.guardians[g].pc)
      {
        GuardianMoves(g);
      }
      success := machine.sys.guardians[g].pc.ok;
      machine.Do(Protocol.Reap);
    }

    /** One step of the guardian's script. */
    method GuardianMoves(g: nat)
      requires machine.Valid() && g < |machine.sys.guardians|
      requires !machine.sys.guardians[g].pc.Exited?
      requires machine.sys.guardians[g].pc.Reading? ==> !machine.sys.guardians[g].inputOpen
      modifies machine`asked, machine`sys, machine`trace
      ensures machine.Valid() && machine.sys.app == old(machine.sys.app)
      ensures machine.sys.held == old(machine.sys.held) && machine.sys.calls == old(machine.sys.calls)
      ensures OnlyGuardian(old(machine.sys), machine.sys, g)
      ensures machine.sys.guardians[g].inputOpen == old(machine.sys.guardians[g].inputOpen)
      ensures Protocol.Distance(machine.sys.guardians[g].pc) < old(Protocol.Distance(machine.sys.guardians[g].pc))
      ensures machine.sys.guardians[g].pc == Protocol.Exited(true) ==> !machine.sys.flag && !machine.sys.tainted
      ensures old(machine.sys.guardians[g].pc).Enabling? && machine.sys.guardians[g].pc.Announcing? ==> machine.sys.flag
      ensures old(machine.sys.guardians[g].pc).Enabling? ==>
                if machine.choice(old(machine.asked)) then machine.sys.guardians[g].pc.Announcing?
                else machine.sys.guardians[g].pc == Protocol.Exited(false) && machine.sys.flag == old(machine.sys.flag)
      ensures old(machine.sys.guardians[g].pc).Announcing? ==>
                && machine.sys.guardians[g].pc.Reading? && machine.sys.flag == old(machine.sys.flag)
                && machine.sys.guardians[g].announced == machine.choice(old(machine.asked))
      ensures machine.Smooth() ==>
                && machine.sys.guardians[g].pc != Protocol.Exited(false)
                && (old(machine.sys.guardians[g].pc).Announcing? ==> machine.sys.guardians[g].announced)
      ensures !old(machine.sys.guardians[g].pc).Reading? ==> machine.asked == old(machine.asked) + 1
      ensures old(machine.sys.guardians[g].pc).Reading? ==>
                && machine.sys.guardians[g].pc.Resetting? && machine.asked == old(machine.asked)
                && machine.sys.flag == old(machine.sys.flag)
      ensures old(machine.sys.guardians[g].pc).Resetting? ==>
                var ok := machine.choice(old(machine.asked));
                && machine.sys.guardians[g].pc == Protocol.Exited(ok)
                && machine.sys.flag == (old(machine.sys.flag) && !ok) && machine.sys.tainted == !ok
    {
      hide Machine.Valid, Machine.Smooth;
      var ok := true;
      if !machine.sys.guardians[g].pc.Reading? {
        ok := machine.Ask();
      }
      var step := match machine.sys.guardians[g].pc
        case Enabling => Protocol.Enable(g, ok)
        case Announcing => Protocol.Announce(g, ok)
        case Reading => Protocol.SeeEof(g)
        case _ => Protocol.Step.Reset(g, ok);
      machine.Do(step);
    }

    /** The guardian enables and announces, and the application reads its line. */
    method AwaitReady(g: nat) returns (ready: bool)
      requires machine.Valid() && g < |machine.sys.guardians|
      requires machine.sys.app == Protocol.Starting(g) && machine.sys.guardians[g].pc.Enabling?
      modifies machine`asked, machine`sys, machine`trace
      ensures machine.Valid() && machine.sys.app == old(machine.sys.app)
      ensures machine.sys.held == old(machine.sys.held) && machine.sys.calls == old(machine.sys.calls)
      ensures OnlyGuardian(old(machine.sys), machine.sys, g)
      ensures ready ==> machine.sys.guardians[g].announced && machine.sys.flag
      ensures machine.Smooth() ==> ready
      ensures ready <==> machine.Yes(old(machine.asked), 3)
      ensures if machine.choice(old(machine.asked))
              then machine.sys.guardians[g].pc.Reading? && machine.asked == old(machine.asked) + 3
              else machine.sys.guardians[g].pc.Exited? && machine.asked == old(machine.asked) + 2
      ensures machine.sys.flag == (machine.choice(old(machine.asked)) || old(machine.sys.flag))
    {
      hide Machine.Valid, Machine.Smooth;
      GuardianMoves(g);
      if machine.sys.guardians[g].pc.Announcing? {
        GuardianMoves(g);
      }
      var readable := machine.Ask();
      ready := machine.sys.guardians[g].pc.Reading? && machine.sys.guardians[g].announced && readable;
    }

    /** `finish`: closes the pipe, waits for the guardian, joins the drain. Reports whether the
        guardian exited successfully, which for a session in use means that it cleared the
        setting. */
    method Finish() returns (r: Result<bool, LidError>)
      requires machine.Valid()
      requires guardian.Some? ==> Owns(guardian.value)
      modifies this, machine`asked, machine`sys, machine`trace
      ensures machine.Valid() && guardian == None && !input && !diagnostics
      ensures old(guardian).None? ==> r == Err(Io) && machine.sys == old(machine.sys)
      ensures old(guardian).Some? ==> Finished(old(machine.sys), machine.sys, old(guardian).value)
      ensures r == Ok(true) ==> !machine.sys.flag && !machine.sys.tainted
      ensures machine.Smooth() && old(guardian).Some? && old(machine.sys.app).Idle? ==> r == Ok(true)
      ensures old(guardian).Some? && old(machine.sys.app).Idle? ==>
                && StopOutcome(r == Ok(true))
                && (r.Ok? ==> r.value == machine.choice(old(machine.asked)))
      ensures old(guardian).Some? && old(guardian).value < |old(machine.sys.guardians)| ==>
                machine.asked == AfterScript(machine, old(machine.sys.guardians[guardian.value].pc), old(machine.asked))
                                 + (if old(diagnostics) then 1 else 0)
      ensures old(guardian).Some? && old(guardian).value < |old(machine.sys.guardians)| ==>
                machine.sys.flag
                == SetAfterScript(machine, old(machine.sys.guardians[guardian.value].pc), old(machine.asked),
                                  old(machine.sys.flag))
    {
      hide Machine.Valid, Machine.Smooth;
      input := false;
      var taken := guardian;
      guardian := None;
      if taken.None? {
        diagnostics := false;
        return Err(Io);
      }
      CloseInput(taken.value);
      var success := Wait(taken.value);
      var joined := true;
      if diagnostics {
        joined := machine.Ask();
      }
      diagnostics := false;
      return if joined then Ok(success) else Err(Io);
    }

    /** `restore`. */
    method Restore() returns (r: Result<(), LidError>)
      requires machine.Valid()
      requires guardian.Some? ==> Owns(guardian.value)
      modifies this, machine`asked, machine`sys, machine`trace
      ensures machine.Valid() && guardian == None
      ensures old(guardian).None? ==> r == Err(Io) && machine.sys == old(machine.sys)
      ensures old(guardian).Some? ==> Finished(old(machine.sys), machine.sys, old(guardian).value)
      ensures r.Ok? ==> !machine.sys.flag && !machine.sys.tainted
      ensures machine.Smooth() && old(guardian).Some? && old(machine.sys.app).Idle? ==> r.Ok?
      ensures old(guardian).Some? && old(machine.sys.app).Idle? ==> StopOutcome(r.Ok?)
      ensures old(guardian).Some? && old(guardian).value < |old(machine.sys.guardians)| ==>
                machine.asked == AfterScript(machine, old(machine.sys.guardians[guardian.value].pc), old(machine.asked))
                                 + (if old(diagnostics) then 1 else 0)
      ensures old(guardian).Some? && old(guardian).value < |old(machine.sys.guardians)| ==>
                machine.sys.flag
                == SetAfterScript(machine, old(machine.sys.guardians[guardian.value].pc), old(machine.asked),
                                  old(machine.sys.flag))
    {
      hide Machine.Valid, Machine.Smooth, Finished;
      var finished := Finish();
      match finished
      case Err(e) => r := Err(e);
      case Ok(success) => r := if success then Ok(()) else Err(ResetFailed);
    }

    /** The part of `start_with` that has a child to account for. */
    method Start(g: nat) returns (r: Result<(), LidError>)
      requires machine.Valid() && guardian == Some(g) && !diagnostics && machine.sys.app == Protocol.Starting(g)
      requires g < |machine.sys.guardians| && machine.sys.guardians[g].pc.Enabling?
      modifies this, machine`asked, machine`sys, machine`trace
      ensures machine.Valid() && machine.sys.app.Idle?
      ensures r.Err? ==> machine.sys.held == old(machine.sys.held) - {g}
                         && machine.sys.calls == old(machine.sys.calls) + [Failed]
      ensures r.Ok? ==>
                && guardian == old(guardian) && diagnostics && machine.sys.held == old(machine.sys.held) + {g}
                && machine.sys.calls == old(machine.sys.calls) + [Started(g)] && machine.sys.flag
      ensures machine.Smooth() ==> r.Ok?
      ensures r.Ok? <==> machine.Yes(old(machine.asked), 4)
      ensures machine.asked == AfterSpawn(machine, old(machine.asked))
      ensures r.Err? ==>
                var a := old(machine.asked);
                machine.sys.flag == if !machine.choice(a + 1) then old(machine.sys.flag)
                                    else !machine.choice(a + if machine.choice(a) then 4 else 3)
    {
      hide Machine.Valid, Machine.Smooth;
      var draining := machine.Ask();
      if !draining {
        Drop();
        return Err(Io);
      }
      diagnostics := true;
      var ready := AwaitReady(g);
      if ready {
        machine.Do(Protocol.Acknowledge);
        return Ok(());
      }
      var finished := Finish();
      match finished
      case Err(e) => r := Err(e);
      case Ok(_) => r := Err(Enable);
    }

    /** `drop`: restores only what has not been taken, so never a second time. */
    method Drop()
      requires machine.Valid()
      requires guardian.Some? ==> Owns(guardian.value)
      modifies this, machine`asked, machine`sys, machine`trace
      ensures machine.Valid() && guardian == None
      ensures old(guardian).None? ==> machine.sys == old(machine.sys) && machine.asked == old(machine.asked)
      ensures old(guardian).Some? ==> Finished(old(machine.sys), machine.sys, old(guardian).value)
      ensures old(guardian).Some? && old(guardian).value < |old(machine.sys.guardians)| ==>
                machine.asked == AfterScript(machine, old(machine.sys.guardians[guardian.value].pc), old(machine.asked))
                                 + (if old(diagnostics) then 1 else 0)
      ensures old(guardian).Some? && old(guardian).value < |old(machine.sys.guardians)| ==>
                machine.sys.flag
                == SetAfterScript(machine, old(machine.sys.guardians[guardian.value].pc), old(machine.asked),
                                  old(machine.sys.flag))
    {
      hide Machine.Valid, Finished;
      if guardian.Some? {
        var logged := Restore();
      }
    }

    /** `stop`, which consumes the session: `restore`, and then the drop of what is left. A
        success means the guardian cleared the setting; an error may also be a diagnostics
        failure after it did. */
    method Stop() returns (r: Result<(), LidError>)
      requires machine.Valid() && guardian.Some? && machine.sys.app.Idle? && guardian.value in machine.sys.held
      modifies this, machine`asked, machine`sys, machine`trace
      ensures machine.Valid() && guardian == None
      ensures Finished(old(machine.sys), machine.sys, old(guardian).value)
      ensures r.Ok? ==> !machine.sys.flag && !machine.sys.tainted
      ensures machine.Smooth() ==> r.Ok?
      ensures StopOutcome(r.Ok?)
    {
      hide Machine.Valid, Machine.Smooth, Finished;
      r := Restore();
      Drop();
    }
  }

  /** The number of the next answer when a guardian with a closed pipe has run from here to its end. */
  ghost function AfterScript(machine: Machine, pc: Protocol.Pc, asked: nat): nat {
    match pc
    case Enabling => if machine.choice(asked) then asked + 3 else asked + 1
    case Announcing => asked + 2
    case Exited(_) => asked
    case _ => asked + 1
  }

  /** The sleep setting when it has. */
  ghost function SetAfterScript(machine: Machine, pc: Protocol.Pc, asked: nat, flag: bool): bool {
    match pc
    case Enabling => if machine.choice(asked) then !machine.choice(asked + 2) else flag
    case Announcing => flag && !machine.choice(asked + 1)
    case Exited(_) => flag
    case _ => flag && !machine.choice(asked)
  }

  /** The number of the next answer after the last part of `start_with`. */
  ghost function AfterSpawn(machine: Machine, asked: nat): nat {
    if !machine.choice(asked) then AfterScript(machine, Protocol.Enabling, asked + 1)
    else if !machine.choice(asked + 1) then asked + 4
    else if machine.choice(asked + 2) && machine.choice(asked + 3) then asked + 4
    else asked + 6
  }

  /** The number of the next answer after `start_with`: six have been given if it succeeds, and
      otherwise those up to the failure and those of the guardian's end. */
  ghost function AfterStart(machine: Machine, asked: nat): nat {
    if !machine.choice(asked) then asked + 1
    else if !machine.choice(asked + 1) then asked + 2
    else AfterSpawn(machine, asked + 2)
  }

  /** No guardian but g has changed. */
  ghost predicate OnlyGuardian(s: Protocol.State, t: Protocol.State, g: nat) {
    && |t.guardians| == |s.guardians| && g < |s.guardians|
    && forall i | 0 <= i < |s.guardians| && i != g :: t.guardians[i] == s.guardians[i]
  }

  /** Only guardian g's pipe has been closed. */
  ghost predicate Closed(s: Protocol.State, t: Protocol.State, g: nat) {
    && t.app == (if s.app.Idle? then Protocol.Stopping(g) else Protocol.Failing(g))
    && t.held == s.held - {g} && t.calls == s.calls
    && OnlyGuardian(s, t, g)
    && !t.guardians[g].inputOpen && t.guardians[g].pc == s.guardians[g].pc != Protocol.Exited(true)
  }

  /** Guardian g has been stopped and reaped, and the ledger says so, once. */
  ghost predicate Finished(s: Protocol.State, t: Protocol.State, g: nat) {
    && t.app.Idle? && t.held == s.held - {g}
    && t.calls == s.calls + [if s.app.Idle? then Stopped(g) else Failed]
    && OnlyGuardian(s, t, g) && t.guardians[g].pc.Exited?
  }

  /** `start_with`: an error leaves no guardian behind, a session owns exactly the new one and
      the setting is then 1. */
  method StartLid(machine: Machine) returns (r: Result<LidSession, LidError>)
    requires machine.Valid() && machine.sys.app.Idle?
    modifies machine`asked, machine`sys, machine`trace
    ensures machine.Valid() && machine.sys.app.Idle?
    ensures r.Err? ==> machine.sys.held == old(machine.sys.held)
                       && machine.sys.calls == old(machine.sys.calls) + [Began] + [Failed]
    ensures r.Ok? ==>
              && fresh(r.value) && r.value.machine == machine && r.value.guardian.Some? && r.value.diagnostics
              && r.value.guardian.value !in old(machine.sys.held)
              && machine.sys.held == old(machine.sys.held) + {r.value.guardian.value}
              && machine.sys.calls == old(machine.sys.calls) + [Began] + [Started(r.value.guardian.value)]
              && machine.sys.flag
    ensures machine.Smooth() ==> r.Ok?
    ensures r.Ok? <==> machine.Yes(old(machine.asked), 6)
    ensures machine.asked == AfterStart(machine, old(machine.asked))
    ensures r.Err? ==>
              var a := old(machine.asked);
              machine.sys.flag == if machine.Yes(a, 2) && machine.choice(a + 3)
                                  then !machine.choice(a + if machine.choice(a + 2) then 6 else 5)
                                  else old(machine.sys.flag)
  {
    hide AfterSpawn;
    hide Machine.Valid, Machine.Smooth;
    NewGuardianIsNew(machine);
    ghost var held := machine.sys.held;
    machine.Do(Protocol.Begin);
    var piped := machine.Ask();
    if !piped {
      machine.Do(Protocol.SpawnFails);
      return Err(Io);
    }
    var spawned := machine.Ask();
    if !spawned {
      machine.Do(Protocol.SpawnFails);
      return Err(Spawn);
    }
    var g := |machine.sys.guardians|;
    machine.Do(Protocol.Spawn);
    var session := new LidSession(machine, g);
    var started := session.Start(g);
    assert held - {g} == held;
    r := if started.Ok? then Ok(session) else Err(started.error);
  }

  lemma NewGuardianIsNew(machine: Machine)
    requires machine.Valid()
    ensures |machine.sys.guardians| !in machine.sys.held
  {
    machine.ProtocolHolds();
  }
}
