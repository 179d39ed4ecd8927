/** The guardian script and the application's side of it as interleaved atomic steps
    (crates/app/src/lid.rs): the guardian enables, announces, blocks on its pipe and resets
    at end of file; the application spawns, awaits the acknowledgment, closes the pipe, reaps,
    and may die between any two steps. */
module GuardianProtocol {
  import opened LidLedger

  datatype Pc =
    | Enabling           // about to run the power command with 1
    | Announcing         // enabled; about to print "ready"
    | Reading            // blocked in `read` until its input is closed
    | Resetting          // about to exec the power command with 0
    | Exited(ok: bool)
  {
    /** The reset this guardian owes has not been attempted yet. */
    predicate Pending() {
      Announcing? || Reading? || Resetting?
    }
  }

  datatype Guardian = Guardian(pc: Pc, inputOpen: bool, announced: bool)

  datatype App =
    | Idle
    | Beginning          // entered `start_with`, nothing spawned yet
    | Starting(g: nat)   // in `start_with`, waiting for the acknowledgment
    | Failing(g: nat)    // in `finish` on the error path of `start_with`
    | Stopping(g: nat)   // in `finish` called by `stop` or `drop`
    | Dead

  /** `flag` is the system-wide setting. `tainted` remembers that it was already set before the
      first guardian, or that a guardian's reset has failed since the last successful one. */
  datatype State = State(
    flag: bool, tainted: bool, guardians: seq<Guardian>, app: App, held: set<nat>, calls: seq<LidCall>)

  datatype Step =
    | Begin | Spawn | SpawnFails
    | Acknowledge        // the application reads "ready\n" and returns the session
    | GiveUp             // end of file, a read error or a missing diagnostics thread
    | BeginStop(g: nat)  // `finish` drops the write end of the pipe
    | Reap               // `wait` returns
    | Verify(ok: bool)   // `set_sleep_disabled(false)` from `authorize`
    | Crash
    | Enable(g: nat, ok: bool)
    | Announce(g: nat, ok: bool)
    | SeeEof(g: nat)
    | Reset(g: nat, ok: bool)
  {
    predicate OfGuardian() {
      Enable? || Announce? || SeeEof? || Reset?
    }
  }

  function Init(stale: bool): State {
    State(stale, stale, [], Idle, {}, [])
  }

  predicate Enabled(s: State, step: Step) {
    match step
    case Begin => s.app.Idle?
    case Spawn => s.app.Beginning?
    case SpawnFails => s.app.Beginning?
    case Acknowledge => s.app.Starting? && s.app.g < |s.guardians| && s.guardians[s.app.g].announced
    case GiveUp => s.app.Starting? && s.app.g < |s.guardians|
    case BeginStop(g) => s.app.Idle? && g in s.held && g < |s.guardians|
    case Reap => (s.app.Failing? || s.app.Stopping?) && s.app.g < |s.guardians| && s.guardians[s.app.g].pc.Exited?
    case Verify(_) => s.app.Idle?
    case Crash => !s.app.Dead?
    case Enable(g, _) => g < |s.guardians| && s.guardians[g].pc.Enabling?
    case Announce(g, _) => g < |s.guardians| && s.guardians[g].pc.Announcing?
    case SeeEof(g) => g < |s.guardians| && s.guardians[g].pc.Reading? && !s.guardians[g].inputOpen
    case Reset(g, _) => g < |s.guardians| && s.guardians[g].pc.Resetting?
  }

  function Move(s: State, g: nat, pc: Pc): State
    requires g < |s.guardians|
  {
    s.(guardians := s.guardians[g := s.guardians[g].(pc := pc)])
  }

  function CloseInput(s: State, g: nat): State
    requires g < |s.guardians|
  {
    s.(guardians := s.guardians[g := s.guardians[g].(inputOpen := false)])
  }

  /** Process death: the kernel closes the write end of every pipe. */
  function CloseAll(gs: seq<Guardian>): (r: seq<Guardian>)
    ensures |r| == |gs| && forall i | 0 <= i < |gs| :: r[i] == gs[i].(inputOpen := false)
  {
    seq(|gs|, i requires 0 <= i < |gs| => gs[i].(inputOpen := false))
  }

  function Apply(s: State, step: Step): State
    requires Enabled(s, step)
  {
    match step
    case Begin => s.(app := Beginning, calls := s.calls + [Began])
    case Spawn =>
      s.(guardians := s.guardians + [Guardian(Enabling, true, false)], app := Starting(|s.guardians|))
    case SpawnFails => s.(app := Idle, calls := s.calls + [Failed])
    case Acknowledge => s.(app := Idle, held := s.held + {s.app.g}, calls := s.calls + [Started(s.app.g)])
    case GiveUp => CloseInput(s, s.app.g).(app := Failing(s.app.g))
    case BeginStop(g) => CloseInput(s, g).(app := Stopping(g), held := s.held - {g})
    case Reap => s.(app := Idle, calls := s.calls + [if s.app.Failing? then Failed else Stopped(s.app.g)])
    case Verify(ok) =>
      (if ok then s.(flag := false, tainted := false) else s).(calls := s.calls + [Verified])
    case Crash => s.(app := Dead, guardians := CloseAll(s.guardians))
    case Enable(g, ok) =>
      if ok then Move(s, g, Announcing).(flag := true) else Move(s, g, Exited(false))
    case Announce(g, ok) =>
      s.(guardians := s.guardians[g := s.guardians[g].(pc := Reading, announced := ok)])
    case SeeEof(g) => Move(s, g, Resetting)
    case Reset(g, ok) =>
      if ok then Move(s, g, Exited(true)).(flag := false, tainted := false)
      else Move(s, g, Exited(false)).(tainted := true)
  }

  predicate CanRun(s: State, steps: seq<Step>)
    decreases |steps|
  {
    steps == [] || (Enabled(s, steps[0]) && CanRun(Apply(s, steps[0]), steps[1..]))
  }

  function Run(s: State, steps: seq<Step>): State
    requires CanRun(s, steps)
    decreases |steps|
  {
    if steps == [] then s else Run(Apply(s, steps[0]), steps[1..])
  }

  // ----- The invariant -----

  /** The call in progress, if any, is about this guardian. */
  predicate InCall(s: State, g: nat) {
    (s.app.Starting? || s.app.Failing? || s.app.Stopping?) && s.app.g == g
  }

  /** A guardian's pipe and program counter agree with what the application holds. */
  predicate Owned(s: State, g: nat, x: Guardian) {
    && (x.inputOpen <==> !s.app.Dead? && (g in s.held || s.app == Starting(g)))
    && (g in s.held ==> x.announced)
    && (x.announced ==> !x.pc.Enabling? && !x.pc.Announcing?)
    && (x.announced && x.inputOpen ==> x.pc.Reading?)
    && (x.inputOpen ==> !x.pc.Resetting? && x.pc != Exited(true))
    && (x.pc.Exited? || s.app.Dead? || g in s.held || InCall(s, g))
  }

  ghost predicate Ownership(s: State) {
    && (forall g | g in s.held :: g < |s.guardians|)
    && (forall g: nat | InCall(s, g) :: g < |s.guardians| && g !in s.held)
    && (forall g: nat | g < |s.guardians| :: Owned(s, g, s.guardians[g]))
  }

  /** The ledger records exactly the sessions the application owns. */
  ghost predicate Recorded(s: State) {
    && Legal(s.calls)
    && (forall g: nat | g >= |s.guardians| :: Started(g) !in s.calls)
    && (s.app.Beginning? || s.app.Starting? || s.app.Failing? ==> s.calls != [] && Last(s.calls) == Began)
    && (s.app.Starting? || s.app.Failing? ==> Started(s.app.g) !in s.calls)
    && (!s.app.Dead? ==> Open(s.calls) == s.held + if s.app.Stopping? then {s.app.g} else {})
    && s.held <= Open(s.calls)
  }

  /** A set flag is somebody's to reset. */
  ghost predicate Covered(s: State) {
    s.flag && !s.tainted ==> exists g :: 0 <= g < |s.guardians| && s.guardians[g].pc.Pending()
  }

  /** Under the discipline guardians do not coexist, and none loses the flag to another. */
  ghost predicate Alone(s: State) {
    Exclusive(s.calls) ==>
      && (forall i, j | 0 <= i < j < |s.guardians| :: s.guardians[i].pc.Exited? || s.guardians[j].pc.Exited?)
      && (forall g | 0 <= g < |s.guardians| && s.guardians[g].pc.Pending() :: s.flag)
      && (s.app.Beginning? ==> s.held == {})
  }

  ghost predicate Inv(s: State) {
    Ownership(s) && Recorded(s) && Covered(s) && Alone(s)
  }

  lemma OwnershipKept(s: State, step: Step)
    requires Ownership(s) && Enabled(s, step)
    ensures Ownership(Apply(s, step))
  {
    var t := Apply(s, step);
    forall g: nat | g < |t.guardians| ensures Owned(t, g, t.guardians[g]) {
      if g < |s.guardians| {
        assert Owned(s, g, s.guardians[g]);
      }
    }
  }

  /** What a step writes into the ledger. */
  function Entry(s: State, step: Step): seq<LidCall>
    requires Enabled(s, step)
  {
    match step
    case Begin => [Began]
    case SpawnFails => [Failed]
    case Acknowledge => [Started(s.app.g)]
    case Reap => [if s.app.Failing? then Failed else Stopped(s.app.g)]
    case Verify(_) => [Verified]
    case _ => []
  }

  lemma EntryAppended(s: State, step: Step)
    requires Enabled(s, step)
    ensures Apply(s, step).calls == s.calls + Entry(s, step)
    ensures Entry(s, step) != [] ==>
      var c := Entry(s, step)[0];
      && Open(Apply(s, step).calls) == OpenNext(Open(s.calls), c)
      && (Legal(Apply(s, step).calls) <==> Legal(s.calls) && LegalNext(s.calls, c))
      && (Exclusive(Apply(s, step).calls) <==> Exclusive(s.calls) && ExclusiveNext(s.calls, c))
      && Apply(s, step).calls != [] && Last(Apply(s, step).calls) == c
  {
    if Entry(s, step) != [] {
      Append(s.calls, Entry(s, step)[0]);
    }
  }

  lemma RecordedKept(s: State, step: Step)
    requires Ownership(s) && Recorded(s) && Enabled(s, step)
    ensures Recorded(Apply(s, step))
  {
    hide Open, Legal, Exclusive;
    EntryAppended(s, step);
  }

  lemma CoveredKept(s: State, step: Step)
    requires Covered(s) && Enabled(s, step)
    ensures Covered(Apply(s, step))
  {
    var t := Apply(s, step);
    if t.flag && !t.tainted {
      if step.Enable? && step.ok {
        assert t.guardians[step.g].pc.Pending();
      } else {
        var g :| 0 <= g < |s.guardians| && s.guardians[g].pc.Pending();
        assert t.guardians[g].pc.Pending();
      }
    }
  }

  lemma AloneKept(s: State, step: Step)
    requires Inv(s) && Enabled(s, step)
    ensures Alone(Apply(s, step))
  {
    hide Exclusive, Open, Legal;
    EntryAppended(s, step);
    if step.OfGuardian() {
      AloneKeptByGuardian(s, step);
    } else {
      var t := Apply(s, step);
      forall g | 0 <= g < |s.guardians| ensures t.guardians[g].pc == s.guardians[g].pc {
      }
      if step == Spawn || (step == Verify(true) && Exclusive(t.calls)) {
        forall g | 0 <= g < |s.guardians| && (step == Spawn ==> Exclusive(t.calls)) ensures s.guardians[g].pc.Exited? {
          assert Owned(s, g, s.guardians[g]);
        }
      }
    }
  }

  lemma AloneKeptByGuardian(s: State, step: Step)
    requires Alone(s) && Enabled(s, step) && step.OfGuardian()
    ensures Alone(Apply(s, step))
  {
    hide Exclusive;
  }

  lemma InvKept(s: State, step: Step)
    requires Inv(s) && Enabled(s, step)
    ensures Inv(Apply(s, step))
  {
    OwnershipKept(s, step);
    RecordedKept(s, step);
    CoveredKept(s, step);
    AloneKept(s, step);
  }

  lemma {:induction false} InvRun(s: State, steps: seq<Step>)
    requires Inv(s) && CanRun(s, steps)
    ensures Inv(Run(s, steps))
    decreases |steps|
  {
    if steps != [] {
      InvKept(s, steps[0]);
      InvRun(Apply(s, steps[0]), steps[1..]);
    }
  }

  /** A guardian the application can still stop has not reset anything yet. */
  lemma OwnedGuardian(s: State, g: nat)
    requires Inv(s) && !s.app.Dead? && (s.app == Starting(g) || g in s.held)
    ensures g < |s.guardians| && s.guardians[g].pc != Exited(true)
    ensures g in s.held ==> s.guardians[g].pc.Reading?
  {
    assert InCall(s, g) || g in s.held;
    assert Owned(s, g, s.guardians[g]);
  }

  /** The state after a run from launch; `stale` is the setting an earlier process left. */
  function After(stale: bool, steps: seq<Step>): State
    requires CanRun(Init(stale), steps)
  {
    Run(Init(stale), steps)
  }

  lemma InvAfter(stale: bool, steps: seq<Step>)
    requires CanRun(Init(stale), steps)
    ensures Inv(After(stale, steps))
  {
    InvRun(Init(stale), steps);
  }

  // ----- Safety under crash -----

  /** In every interleaving, with a crash at any point or none, and however many sessions
      overlap: a set flag always has a live guardian that has not yet tried to reset it. */
  lemma SetFlagIsCovered(stale: bool, steps: seq<Step>)
    requires CanRun(Init(stale), steps)
    requires After(stale, steps).flag && !After(stale, steps).tainted
    ensures exists g :: 0 <= g < |After(stale, steps).guardians| && After(stale, steps).guardians[g].pc.Pending()
  {
    InvAfter(stale, steps);
  }

  predicate Clears(step: Step) {
    step == Verify(true) || (step.Reset? && step.ok)
  }

  predicate NoneClears(steps: seq<Step>) {
    forall j | 0 <= j < |steps| :: !Clears(steps[j])
  }

  /** The reset at step i failed and nothing has succeeded in clearing the setting since. */
  predicate FailsLast(steps: seq<Step>, i: nat) {
    i < |steps| && steps[i].Reset? && !steps[i].ok && NoneClears(steps[i + 1..])
  }

  /** Exactly what the exception in `SetFlagIsCovered` covers: a reset failed and no later one
      succeeded, or the setting was stale at the start and none succeeded at all. */
  lemma {:induction false} TaintExplained(s: State, steps: seq<Step>)
    requires CanRun(s, steps)
    ensures Run(s, steps).tainted <==>
            (s.tainted && NoneClears(steps)) || exists i: nat :: FailsLast(steps, i)
    decreases |steps|
  {
    if steps != [] {
      var x, rest := steps[0], steps[1..];
      TaintExplained(Apply(s, x), rest);
      assert steps == [x] + rest;
      assert NoneClears(steps) <==> !Clears(x) && NoneClears(rest);
      assert FailsLast(steps, 0) <==> x.Reset? && !x.ok && NoneClears(rest);
      forall i: nat | i < |rest| ensures FailsLast(rest, i) <==> FailsLast(steps, i + 1) {
        assert steps[i + 1] == rest[i] && steps[i + 2..] == rest[i + 1..];
      }
      if exists i: nat :: FailsLast(rest, i) {
        var i: nat :| FailsLast(rest, i);
        assert FailsLast(steps, i + 1);
      }
      if exists i: nat :: FailsLast(steps, i) {
        var i: nat :| FailsLast(steps, i);
        assert i > 0 ==> FailsLast(rest, i - 1);
      }
    }
  }

  // ----- Crash recovery -----

  function Distance(pc: Pc): nat {
    match pc
    case Enabling => 4
    case Announcing => 3
    case Reading => 2
    case Resetting => 1
    case Exited(_) => 0
  }

  /** Script steps left in all guardians together. */
  function Remaining(gs: seq<Guardian>): nat {
    if gs == [] then 0 else Distance(gs[0].pc) + Remaining(gs[1..])
  }

  lemma {:induction false} RemainingUpdate(gs: seq<Guardian>, g: nat, x: Guardian)
    requires g < |gs|
    ensures Remaining(gs[g := x]) == Remaining(gs) - Distance(gs[g].pc) + Distance(x.pc)
  {
    var us := gs[g := x];
    if g == 0 {
      assert us[1..] == gs[1..];
    } else {
      assert us[1..] == gs[1..][g - 1 := x];
      RemainingUpdate(gs[1..], g - 1, x);
    }
  }

  lemma DeadStep(s: State, step: Step)
    requires s.app.Dead? && Enabled(s, step)
    ensures step.OfGuardian() && Apply(s, step).app.Dead?
    ensures Remaining(Apply(s, step).guardians) < Remaining(s.guardians)
  {
    hide Remaining;
    RemainingUpdate(s.guardians, step.g, Apply(s, step).guardians[step.g]);
  }

  /** With the application dead only guardians move, and each move uses up a script step. */
  lemma {:induction false} DeadRunIsShort(s: State, steps: seq<Step>)
    requires s.app.Dead? && CanRun(s, steps)
    ensures Run(s, steps).app.Dead?
    ensures forall i | 0 <= i < |steps| :: steps[i].OfGuardian()
    ensures |steps| + Remaining(Run(s, steps).guardians) <= Remaining(s.guardians)
    decreases |steps|
  {
    if steps != [] {
      DeadStep(s, steps[0]);
      DeadRunIsShort(Apply(s, steps[0]), steps[1..]);
      assert steps == [steps[0]] + steps[1..];
    }
  }

  /** The next thing a guardian does; `read` returns because a dead parent's pipe is closed. */
  lemma NoGuardianIsStuck(stale: bool, steps: seq<Step>, g: nat) returns (step: Step)
    requires CanRun(Init(stale), steps) && After(stale, steps).app.Dead?
    requires g < |After(stale, steps).guardians| && !After(stale, steps).guardians[g].pc.Exited?
    ensures step.OfGuardian() && step.g == g && Enabled(After(stale, steps), step)
  {
    InvAfter(stale, steps);
    var s := After(stale, steps);
    assert Owned(s, g, s.guardians[g]);
    step := match s.guardians[g].pc
      case Enabling => Enable(g, true)
      case Announcing => Announce(g, true)
      case Reading => SeeEof(g)
      case _ => Reset(g, true);
  }

  lemma {:induction false} RunConcat(s: State, xs: seq<Step>, ys: seq<Step>)
    requires CanRun(s, xs) && CanRun(Run(s, xs), ys)
    ensures CanRun(s, xs + ys) && Run(s, xs + ys) == Run(Run(s, xs), ys)
    decreases |xs|
  {
    if xs == [] {
      assert xs + ys == ys;
    } else {
      assert (xs + ys)[0] == xs[0] && (xs + ys)[1..] == xs[1..] + ys;
      RunConcat(Apply(s, xs[0]), xs[1..], ys);
    }
  }

  ghost predicate AllExited(s: State) {
    forall g | 0 <= g < |s.guardians| :: s.guardians[g].pc.Exited?
  }

  predicate NoResetFails(steps: seq<Step>) {
    forall j | 0 <= j < |steps| :: steps[j].Reset? ==> steps[j].ok
  }

  predicate NoneEnables(steps: seq<Step>) {
    forall j | 0 <= j < |steps| :: steps[j].Enable? ==> !steps[j].ok
  }

  ghost predicate SomePending(s: State) {
    exists g :: 0 <= g < |s.guardians| && s.guardians[g].pc.Pending()
  }

  /** Where the guardians' steps after a crash leave the setting once all of them are gone. It can
      only stay set if it was tainted and nothing cleared it, or if the last attempt failed. And
      if no reset fails it stays set exactly if it was set, no guardian still owed a reset at the
      crash, and none enables afterwards. */
  ghost predicate Recovers(s: State, after: seq<Step>)
    requires CanRun(s, after)
  {
    AllExited(Run(s, after)) ==>
      && (Run(s, after).flag ==> (s.tainted && NoneClears(after)) || exists i: nat :: FailsLast(after, i))
      && (NoResetFails(after) ==> (Run(s, after).flag <==> s.flag && !SomePending(s) && NoneEnables(after)))
  }

  lemma PendingKept(s: State, step: Step)
    requires Enabled(s, step) && step.OfGuardian()
    ensures SomePending(s) && !step.Reset? ==> SomePending(Apply(s, step))
    ensures step.Enable? && step.ok ==> SomePending(Apply(s, step))
    ensures !SomePending(s) && !(step.Enable? && step.ok) ==> !SomePending(Apply(s, step)) && !step.Reset?
  {
    var t := Apply(s, step);
    assert t.guardians[step.g].pc.Pending() <==> !t.guardians[step.g].pc.Exited? && !t.guardians[step.g].pc.Enabling?;
    if SomePending(s) {
      var g :| 0 <= g < |s.guardians| && s.guardians[g].pc.Pending();
      assert g != step.g ==> t.guardians[g].pc.Pending();
    }
    if SomePending(t) {
      var g :| 0 <= g < |t.guardians| && t.guardians[g].pc.Pending();
      assert g != step.g ==> s.guardians[g].pc.Pending();
    }
    assert step.Reset? ==> s.guardians[step.g].pc.Pending();
  }

  /** A guardian that owes a reset makes it before it is gone. */
  lemma {:induction false} LeftSet(s: State, steps: seq<Step>)
    requires CanRun(s, steps) && AllExited(Run(s, steps)) && NoResetFails(steps)
    requires forall i | 0 <= i < |steps| :: steps[i].OfGuardian()
    ensures Run(s, steps).flag <==> s.flag && !SomePending(s) && NoneEnables(steps)
    decreases |steps|
  {
    if steps != [] {
      var x, rest := steps[0], steps[1..];
      assert steps == [x] + rest;
      PendingKept(s, x);
      LeftSet(Apply(s, x), rest);
      assert NoneEnables(steps) <==> (x.Enable? ==> !x.ok) && NoneEnables(rest);
    }
  }

  /** Recovery: from any reachable state with the application dead, what the guardians do is
      bounded. With `NoGuardianIsStuck` it ends with all of them gone, and the setting is then as
      `Recovers` says, also when it was stale at launch or an earlier reset had failed. */
  lemma CrashRecovery(stale: bool, before: seq<Step>, after: seq<Step>)
    requires CanRun(Init(stale), before) && After(stale, before).app.Dead?
    requires CanRun(After(stale, before), after)
    ensures |after| <= Remaining(After(stale, before).guardians)
    ensures Recovers(After(stale, before), after)
  {
    var s := After(stale, before);
    DeadRunIsShort(s, after);
    RunConcat(Init(stale), before, after);
    if AllExited(Run(s, after)) {
      SettledMeansClear(stale, before + after);
      TaintExplained(s, after);
      if NoResetFails(after) {
        LeftSet(s, after);
      }
    }
  }

  /** With every guardian gone a set flag can only be a tainted one. */
  lemma SettledMeansClear(stale: bool, steps: seq<Step>)
    requires CanRun(Init(stale), steps)
    ensures AllExited(After(stale, steps)) && After(stale, steps).flag ==> After(stale, steps).tainted
  {
    InvAfter(stale, steps);
  }

  // ----- No overtaking -----

  /** When sessions are started only after the last one has been stopped, at most one guardian
      is alive at any time, also across a crash. */
  lemma AtMostOneGuardian(stale: bool, steps: seq<Step>, i: nat, j: nat)
    requires CanRun(Init(stale), steps) && Exclusive(After(stale, steps).calls)
    requires i < |After(stale, steps).guardians| && j < |After(stale, steps).guardians|
    requires !After(stale, steps).guardians[i].pc.Exited? && !After(stale, steps).guardians[j].pc.Exited?
    ensures i == j
  {
    InvAfter(stale, steps);
  }

  /** From the acknowledgment until `finish` begins the setting is 1: no earlier session's reset
      lands after a later session's enable. */
  lemma HeldMeansEnabled(stale: bool, steps: seq<Step>, g: nat)
    requires CanRun(Init(stale), steps) && Exclusive(After(stale, steps).calls)
    requires !After(stale, steps).app.Dead? && g in After(stale, steps).held
    ensures After(stale, steps).flag
    ensures g < |After(stale, steps).guardians| && After(stale, steps).guardians[g].pc.Reading?
  {
    InvAfter(stale, steps);
    var s := After(stale, steps);
    assert Owned(s, g, s.guardians[g]);
  }

  lemma {:induction false} RunSnoc(s: State, xs: seq<Step>, x: Step)
    requires CanRun(s, xs) && Enabled(Run(s, xs), x)
    ensures CanRun(s, xs + [x]) && Run(s, xs + [x]) == Apply(Run(s, xs), x)
  {
    assert CanRun(Run(s, xs), [x]);
    assert [x][1..] == [];
    RunConcat(s, xs, [x]);
  }

  // ----- At every moment of a run -----

  lemma {:induction false} RunSplit(s: State, steps: seq<Step>, n: nat)
    requires n <= |steps| && CanRun(s, steps)
    ensures CanRun(s, steps[..n]) && CanRun(Run(s, steps[..n]), steps[n..])
    ensures Run(Run(s, steps[..n]), steps[n..]) == Run(s, steps)
    decreases |steps|
  {
    if n == 0 {
      assert steps[0..] == steps;
    } else {
      RunSplit(Apply(s, steps[0]), steps[1..], n - 1);
      assert steps[..n][1..] == steps[1..][..n - 1] && steps[1..][n - 1..] == steps[n..];
    }
  }

  /** A ledger that keeps to the discipline has always done so. */
  lemma {:induction false} ExclusiveBefore(s: State, steps: seq<Step>)
    requires CanRun(s, steps) && Exclusive(Run(s, steps).calls)
    ensures Exclusive(s.calls)
    decreases |steps|
  {
    hide Exclusive;
    if steps != [] {
      ExclusiveBefore(Apply(s, steps[0]), steps[1..]);
      EntryAppended(s, steps[0]);
    }
  }

  ghost predicate AtMostOneLive(s: State) {
    forall i, j | 0 <= i < |s.guardians| && 0 <= j < |s.guardians| ::
      s.guardians[i].pc.Exited? || s.guardians[j].pc.Exited? || i == j
  }

  /** At most one session is held, and while one is the setting is 1 and its guardian waits. */
  ghost predicate HeldSafely(s: State) {
    && (forall g, h | g in s.held && h in s.held :: g == h)
    && (!s.app.Dead? ==> forall g | g in s.held :: s.flag && g < |s.guardians| && s.guardians[g].pc.Reading?)
  }

  /** No overtaking, at every moment of a run whose ledger keeps to the discipline: at most one
      guardian is alive, at most one session is held, and none loses the setting. */
  lemma NoOvertaking(stale: bool, steps: seq<Step>, n: nat)
    requires CanRun(Init(stale), steps) && Exclusive(After(stale, steps).calls) && n <= |steps|
    ensures CanRun(Init(stale), steps[..n])
    ensures AtMostOneLive(After(stale, steps[..n])) && HeldSafely(After(stale, steps[..n]))
  {
    hide Run, CanRun, Exclusive, Apply;
    RunSplit(Init(stale), steps, n);
    ExclusiveBefore(After(stale, steps[..n]), steps[n..]);
    var s := After(stale, steps[..n]);
    forall i, j | 0 <= i < |s.guardians| && 0 <= j < |s.guardians|
                  && !s.guardians[i].pc.Exited? && !s.guardians[j].pc.Exited?
      ensures i == j
    {
      AtMostOneGuardian(stale, steps[..n], i, j);
    }
    forall g, h | g in s.held && h in s.held ensures g == h {
      OnlyOneHeld(stale, steps[..n], g, h);
    }
    if !s.app.Dead? {
      forall g | g in s.held ensures s.flag && g < |s.guardians| && s.guardians[g].pc.Reading? {
        HeldMeansEnabled(stale, steps[..n], g);
      }
    }
  }

  /** Held sessions are open in the ledger, also after a crash. */
  lemma OnlyOneHeld(stale: bool, steps: seq<Step>, g: nat, h: nat)
    requires CanRun(Init(stale), steps) && Exclusive(After(stale, steps).calls)
    requires g in After(stale, steps).held && h in After(stale, steps).held
    ensures g == h
  {
    hide Run, CanRun, Exclusive, Open, Legal;
    InvAfter(stale, steps);
    AtMostOneOpen(After(stale, steps).calls, g, h);
  }

  lemma {:induction false} OneLiveIsShort(gs: seq<Guardian>)
    requires forall i, j | 0 <= i < |gs| && 0 <= j < |gs| :: gs[i].pc.Exited? || gs[j].pc.Exited? || i == j
    ensures Remaining(gs) <= Distance(Enabling)
    ensures (forall i | 0 <= i < |gs| :: gs[i].pc.Exited?) ==> Remaining(gs) == 0
  {
    if gs != [] {
      OneLiveIsShort(gs[1..]);
      if !gs[0].pc.Exited? {
        forall i | 0 <= i < |gs[1..]| ensures gs[1..][i].pc.Exited? {
          assert gs[i + 1].pc.Exited?;
        }
      }
    }
  }

  /** A crash at any moment of a run: `Recovers` says where it leaves the setting, and if the
      ledger keeps to the discipline no more than one pass of the script follows. */
  lemma CrashAtAnyMoment(stale: bool, steps: seq<Step>, n: nat, after: seq<Step>)
    requires CanRun(Init(stale), steps) && n <= |steps| && !After(stale, steps).app.Dead?
    ensures CanRun(Init(stale), steps[..n]) && !After(stale, steps[..n]).app.Dead?
    ensures CanRun(Init(stale), steps[..n] + [Crash])
    ensures CanRun(After(stale, steps[..n] + [Crash]), after) ==>
              && Recovers(After(stale, steps[..n] + [Crash]), after)
              && (Exclusive(After(stale, steps).calls) ==> |after| <= Distance(Enabling))
  {
    RunSplit(Init(stale), steps, n);
    if After(stale, steps[..n]).app.Dead? {
      DeadRunIsShort(After(stale, steps[..n]), steps[n..]);
      assert false;
    }
    RunSnoc(Init(stale), steps[..n], Crash);
    var s := After(stale, steps[..n] + [Crash]);
    if CanRun(s, after) {
      CrashRecovery(stale, steps[..n] + [Crash], after);
      if Exclusive(After(stale, steps).calls) {
        NoOvertaking(stale, steps, n);
        OneLiveIsShort(s.guardians);
      }
    }
  }

  /** One whole successful start. */
  lemma StartedRun(s: State, xs: seq<Step>) returns (ys: seq<Step>)
    requires CanRun(s, xs) && Run(s, xs).app.Idle?
    ensures CanRun(s, ys)
    ensures var t := Run(s, xs); var g := |t.guardians|;
            Run(s, ys) == State(true, t.tainted, t.guardians + [Guardian(Reading, true, true)], Idle,
                                t.held + {g}, t.calls + [Began] + [Started(g)])
  {
    var g := |Run(s, xs).guardians|;
    RunSnoc(s, xs, Begin);
    RunSnoc(s, xs + [Begin], Spawn);
    ys := xs + [Begin] + [Spawn];
    RunSnoc(s, ys, Enable(g, true));
    ys := ys + [Enable(g, true)];
    RunSnoc(s, ys, Announce(g, true));
    ys := ys + [Announce(g, true)];
    RunSnoc(s, ys, Acknowledge);
    ys := ys + [Acknowledge];
    assert Run(s, ys).guardians == Run(s, xs).guardians + [Guardian(Reading, true, true)];
  }

  /** One whole successful stop. */
  lemma StoppedRun(s: State, xs: seq<Step>, g: nat) returns (ys: seq<Step>)
    requires CanRun(s, xs) && Run(s, xs).app.Idle? && g in Run(s, xs).held
    requires g < |Run(s, xs).guardians| && Run(s, xs).guardians[g].pc.Reading?
    ensures CanRun(s, ys)
    ensures var t, u := Run(s, xs), Run(s, ys);
            u.app.Idle? && u.held == t.held - {g} && !u.flag && !u.tainted && u.calls == t.calls + [Stopped(g)]
  {
    RunSnoc(s, xs, BeginStop(g));
    ys := xs + [BeginStop(g)];
    RunSnoc(s, ys, SeeEof(g));
    ys := ys + [SeeEof(g)];
    RunSnoc(s, ys, Step.Reset(g, true));
    ys := ys + [Step.Reset(g, true)];
    RunSnoc(s, ys, Reap);
    ys := ys + [Reap];
  }

  lemma OverlapIsNotExclusive(calls: seq<LidCall>, g: nat)
    requires calls == [] + [Began] + [Started(0)] + [Began] + [Started(1)] + [Stopped(g)]
    ensures !Exclusive(calls)
  {
    var c1 := [] + [Began];
    var c2 := c1 + [Started(0)];
    var c3 := c2 + [Began];
    var c4 := c3 + [Started(1)];
    Append([], Began);
    Append(c1, Started(0));
    Append(c2, Began);
    Append(c3, Started(1));
    Append(c4, Stopped(g));
  }

  /** Without the discipline this fails: of two overlapping sessions, stopping either one, the
      older or the newer, clears the setting under the other, which is still held. */
  lemma OverlapLosesTheFlag(stopped: nat) returns (steps: seq<Step>)
    requires stopped <= 1
    ensures CanRun(Init(false), steps)
    ensures var s := After(false, steps);
            s.app.Idle? && s.held == {1 - stopped} && !s.flag && !s.tainted && !Exclusive(s.calls)
  {
    hide Run, CanRun, Exclusive, Open;
    var s := Init(false);
    assert CanRun(s, []) && Run(s, []) == s by { EmptyRun(s); }
    var one := StartedRun(s, []);
    var two := StartedRun(s, one);
    steps := StoppedRun(s, two, stopped);
    OverlapIsNotExclusive(Run(s, steps).calls, stopped);
  }

  lemma EmptyRun(s: State)
    ensures CanRun(s, []) && Run(s, []) == s
  {
  }
}
