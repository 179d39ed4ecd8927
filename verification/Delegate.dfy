/** The application delegate (crates/app/src/app_delegate.rs): the state machine over the power
    assertion, the lid session and the timers. Every access to the state may find it borrowed,
    every platform call may fail, and the wall clock may read anything. */
module Delegates {
  import opened Wrappers
  import opened Text
  import opened DurationText
  import opened LidLedger
  import opened Platform
  import opened LidSessions
  import opened Power
  import Ipc
  import Protocol = GuardianProtocol

  const THERMAL_CHECK_INTERVAL: nat := 30 * NANOS_PER_SECOND
  const COUNTDOWN_UPDATE_INTERVAL: nat := 60 * NANOS_PER_SECOND
  const TERMINATION_DELAY: nat := 50_000_000
  const UNIT_MINUTES_INDEX: int := 0
  const UNIT_DAYS_INDEX: int := 2

  const STARTED: string := "Started sleep prevention"
  const STOPPED: string := "Stopped sleep prevention"
  const NOTICE_THERMAL_CUTOFF: string := "Mac is too hot \U{2014} lid-closed mode turned off."

  datatype AwakeMode = SystemOnly | Display | LidClosed

  /** What the user has set in the popover. */
  datatype Controls = Controls(noTimeLimit: bool, mode: AwakeMode, durationText: string, unitIndex: int)

  /** The errors and notices shown to the user. */
  datatype Message =
    | StateUnavailable
    | Restore(lidError: LidError)
    | Rollback(source: Message, rollback: Message)
    | InvalidDuration
    | TooHot
    | NeedsSetup
    | AuthorizationFailed
    | LidFailed(lidError: LidError)
    | PowerFailed(error: PowerError)
    | Both(first: Message, second: Message)
    | ThermalCutoff
    | ThermalCutoffAnd(source: Message)
  {
    function Text(): string {
      match this
      case StateUnavailable => "App state is busy or unavailable"
      case Restore(source) =>
        "Couldn't restore normal sleep: " + LidErrorText(source) + ". Run `sudo pmset -a disablesleep 0` in Terminal."
      case Rollback(source, rollback) => source.Text() + " " + rollback.Text()
      case InvalidDuration => "Enter a whole number from 1 to 365 days."
      case TooHot => "Mac is too hot to keep running with the lid closed. Let it cool down and try again."
      case NeedsSetup => "Open Melaffeine and click Start once to set up lid-closed mode."
      case AuthorizationFailed => "Authorization failed."
      case LidFailed(source) => LidErrorText(source)
      case PowerFailed(AcquisitionFailed) => "Failed to acquire power assertion"
      case PowerFailed(DurationOverflow) => "Requested duration exceeds the representable system time"
      case Both(first, second) => first.Text() + " " + second.Text()
      case ThermalCutoff => NOTICE_THERMAL_CUTOFF
      case ThermalCutoffAnd(source) => NOTICE_THERMAL_CUTOFF + " " + source.Text()
    }
  }

  function LidErrorText(error: LidError): string {
    match error
    case Spawn => "couldn't spawn sleep guardian"
    case Io => "couldn't communicate with sleep guardian"
    case Enable => "couldn't enable lid-closed mode"
    case ResetFailed => "couldn't reset sleep suppression"
  }

  /** The seconds in the unit that is selected. */
  function UnitSeconds(unitIndex: int): nat {
    if unitIndex == 0 then 60 else if unitIndex == 2 then 86400 else 3600
  }

  /** What a start from the popover is asked for: nothing when the duration is not valid. */
  function Requested(controls: Controls): (r: Option<(Option<Duration>, AwakeMode)>)
    ensures controls.noTimeLimit ==>
              r == Some((None, if controls.mode.LidClosed? then SystemOnly else controls.mode))
    ensures !controls.noTimeLimit ==>
              r == if Trim(controls.durationText) != [] && AllDigits(Trim(controls.durationText))
                      && 1 <= Value(Trim(controls.durationText)) * UnitSeconds(controls.unitIndex) <= 31_536_000
                   then Some((Some(RawDuration.Duration(
                                Value(Trim(controls.durationText)) * UnitSeconds(controls.unitIndex), 0)),
                              controls.mode))
                   else None
  {
    if controls.noTimeLimit then
      Some((None, if controls.mode.LidClosed? then SystemOnly else controls.mode))
    else
      var unit := if controls.unitIndex == UNIT_MINUTES_INDEX then Minutes
                  else if controls.unitIndex == UNIT_DAYS_INDEX then Days else Hours;
      match ParseDuration(Trim(controls.durationText), unit)
      case None => None
      case Some(d) => Some((Some(d), controls.mode))
  }

  /** `duration_since(now).unwrap_or(ZERO)` of two clock readings. */
  function RemainingAt(endsAt: Time, now: Time): (left: Duration)
    ensures left.secs * 1_000_000_000 + left.nanos == if now < endsAt then endsAt - now else 0
  {
    if endsAt <= now then RawDuration.Duration(0, 0)
    else
      var n := endsAt - now;
      assert n / NANOS_PER_SECOND <= U64_MAX;
      RawDuration.Duration(n / NANOS_PER_SECOND, n % NANOS_PER_SECOND)
  }

  function StartedText(duration: Option<Duration>): (text: string)
    ensures duration.Some? ==> text == "Started finite session (" + FormatCompactDuration(duration.value) + ")"
    ensures duration.None? ==> text == "Started indefinite session"
  {
    if duration.None? then "Started indefinite session"
    else "Started finite session (" + FormatCompactDuration(duration.value) + ")"
  }

  /** When a session of this length ends that starts now, and whether the clock can hold that. */
  function End(now: Time, duration: Option<Duration>): (end: Option<Time>)
    ensures duration.None? ==> end.None?
    ensures duration.Some? && end.Some? ==>
              end.value - now == duration.value.secs * 1_000_000_000 + duration.value.nanos
  {
    if duration.Some? then CheckedAdd(now, duration.value) else None
  }

  predicate Fits(now: Time, duration: Option<Duration>) {
    duration.Some? ==> End(now, duration).Some?
  }

  /** The clock at a session's start: the reading it began from, the reading when its expiry was
      first scheduled, and whether it was stopped there and then for being past its end. */
  datatype Timing = Timing(began: Time, reading: Time, late: bool) {
    /** The second reading is at or after the end of a session of this length. */
    predicate Past(d: Duration) {
      CheckedAdd(began, d).Some? && reading >= CheckedAdd(began, d).value
    }
  }

  datatype Event =
    | StartStopClicked
    | Command(command: Ipc.IpcCommand)
    | TimerFires(id: nat)
    | QuitClicked
    | WillTerminate
    | ControlsEdited(controls: Controls)
    | NoTimeLimitChanged
    | AwakeModeChanged
    | StatusItemClicked
    | PopoverCloses
  {
    predicate Toggles() {
      StartStopClicked? || (Command? && command.Toggle?)
    }

    /** Nobody asks for a start, a stop or the end of the application. */
    predicate Quiet() {
      !StartStopClicked? && !QuitClicked? && !WillTerminate? && (Command? ==> command.Status?)
    }
  }

  /** What an event answers. */
  datatype Answer =
    | Unanswered
    | Toggled(result: Result<bool, Message>)
    | Responded(response: Ipc.IpcResponse)

  // ----- The invariant, clause by clause -----

  /** Conservation: the sessions the guardians know are the stored one and those in transit in a
      local variable, each in one place. */
  ghost predicate Conserved(sys: Protocol.State, stored: Option<nat>, transit: set<nat>) {
    && sys.app.Idle?
    && sys.held == transit + (if stored.Some? then {stored.value} else {})
    && (stored.Some? ==> stored.value !in transit)
  }

  /** The live timers of a kind are exactly the one referred to. */
  ghost predicate Exactly(timers: map<nat, Timer>, kind: TimerKind, timer: Option<nat>) {
    && (forall id | id in timers && timers[id].kind == kind :: timer == Some(id))
    && (timer.Some? ==> timer.value in timers && timers[timer.value].kind == kind)
  }

  /** A field never refers to a timer of another kind, nor to one yet to be made. */
  ghost predicate Refers(timers: map<nat, Timer>, nextTimer: nat, kind: TimerKind, timer: Option<nat>) {
    timer.Some? ==> timer.value < nextTimer && (timer.value in timers ==> timers[timer.value].kind == kind)
  }

  /** A timer of a fixed period has it: 30 seconds between thermal checks, a minute between countdown
      updates, and 50 milliseconds to answer before termination. */
  predicate Punctual(timer: Timer) {
    match timer.kind
    case Expiry => true
    case Thermal => timer.interval == 30_000_000_000
    case Countdown => timer.interval == 60_000_000_000
    case Terminate => timer.interval == 50_000_000
  }

  /** The fields that refer to timers, and whether a lid session is stored. */
  datatype Slots = Slots(lidHeld: bool, thermal: Option<nat>, expiry: Option<nat>, countdown: Option<nat>)

  /** The thermal timer goes with the lid session, always. Expiry and countdown timers are kept
      exactly unless some access found the state busy, and an expiry timer needs a finite session. */
  ghost predicate Tidy(timers: map<nat, Timer>, nextTimer: nat, s: Slots, loose: bool, finite: bool) {
    && (forall id | id in timers :: Punctual(timers[id]))
    && (s.lidHeld <==> s.thermal.Some?)
    && Exactly(timers, Thermal, s.thermal)
    && Refers(timers, nextTimer, Expiry, s.expiry) && Refers(timers, nextTimer, Countdown, s.countdown)
    && (s.expiry.Some? ==> finite)
    && (!loose ==> Exactly(timers, Expiry, s.expiry) && Exactly(timers, Countdown, s.countdown))
  }

  function Without(timers: map<nat, Timer>, timer: Option<nat>): map<nat, Timer> {
    if timer.Some? then timers - {timer.value} else timers
  }

  /** The live expiry timers. */
  function Expiries(timers: map<nat, Timer>): set<nat> {
    set id | id in timers && timers[id].kind == Expiry
  }

  /** The live timers that will end the application. */
  function Terminations(timers: map<nat, Timer>): set<nat> {
    set id | id in timers && timers[id].kind == Terminate
  }

  lemma OneShotsPut(timers: map<nat, Timer>, n: nat, timer: Timer)
    requires n !in timers
    ensures Expiries(timers[n := timer]) == Expiries(timers) + (if timer.kind == Expiry then {n} else {})
    ensures Terminations(timers[n := timer]) == Terminations(timers) + (if timer.kind == Terminate then {n} else {})
    ensures n !in Expiries(timers)
  {
  }

  lemma OneShotsDrop(timers: map<nat, Timer>, timer: Option<nat>)
    ensures Expiries(Without(timers, timer)) == Expiries(timers) - (if timer.Some? then {timer.value} else {})
    ensures Terminations(Without(timers, timer)) == Terminations(timers) - (if timer.Some? then {timer.value} else {})
  {
  }

  /** Cancelling the timer of one field leaves the others kept. */
  lemma TidyCancel(timers: map<nat, Timer>, n: nat, s: Slots, loose: bool, finite: bool)
    requires Tidy(timers, n, s, loose, finite)
    ensures Tidy(Without(timers, s.thermal), n, s.(lidHeld := false, thermal := None), loose, finite)
    ensures Tidy(Without(timers, s.expiry), n, s.(expiry := None), loose, finite)
    ensures Tidy(Without(timers, s.countdown), n, s.(countdown := None), loose, finite)
  {
  }

  // A new timer is put into its empty field, or left out of it because the state was busy.

  lemma TidyCountdown(timers: map<nat, Timer>, n: nat, s: Slots, loose: bool, finite: bool)
    requires Tidy(timers, n, s, loose, finite) && forall id | id in timers :: id < n
    ensures var added := timers[n := Timer(Countdown, COUNTDOWN_UPDATE_INTERVAL)];
            && (s.countdown.None? ==> Tidy(added, n + 1, s.(countdown := Some(n)), loose, finite))
            && Tidy(added, n + 1, s, true, finite)
  {
  }

  lemma TidyExpiry(timers: map<nat, Timer>, n: nat, s: Slots, loose: bool, finite: bool, interval: nat)
    requires Tidy(timers, n, s, loose, finite) && forall id | id in timers :: id < n
    ensures var added := timers[n := Timer(Expiry, interval)];
            && (s.expiry.None? && finite ==> Tidy(added, n + 1, s.(expiry := Some(n)), loose, finite))
            && Tidy(added, n + 1, s, true, finite)
  {
  }

  lemma TidyTerminate(timers: map<nat, Timer>, n: nat, s: Slots, loose: bool, finite: bool)
    requires Tidy(timers, n, s, loose, finite) && forall id | id in timers :: id < n
    ensures Tidy(timers[n := Timer(Terminate, TERMINATION_DELAY)], n + 1, s, loose, finite)
  {
  }

  lemma TidyThermal(timers: map<nat, Timer>, n: nat, s: Slots, loose: bool, finite: bool)
    requires Tidy(timers, n, s, loose, finite) && forall id | id in timers :: id < n
    requires !s.lidHeld
    ensures var added := timers[n := Timer(Thermal, THERMAL_CHECK_INTERVAL)];
            && Tidy(added, n + 1, s.(lidHeld := true, thermal := Some(n)), loose, finite)
            && Tidy(added - {n}, n + 1, s, true, finite)
  {
  }

  /** The end of a one-shot timer that no field refers to any more. */
  lemma TidyExpire(timers: map<nat, Timer>, n: nat, s: Slots, loose: bool, finite: bool, id: nat)
    requires Tidy(timers, n, s, loose, finite)
    requires id in timers && !timers[id].Repeats()
    requires !loose ==> s.expiry != Some(id)
    ensures Tidy(timers - {id}, n, s, loose, finite)
  {
  }

  /** A lid session goes with a finite, system-only power session, always, except that it may be
      held with none after some session had expired at its own start; and unless one had,
      guardians are only started when none is held. */
  ghost predicate Sound(
    lateStart: bool, calls: seq<LidCall>, lidHeld: bool, active: bool, finite: bool, display: bool)
  {
    && (!lateStart ==> Exclusive(calls))
    && (lidHeld && active ==> finite && !display)
    && (lidHeld && !active ==> lateStart)
  }

  class Delegate {
    const machine: Machine
    const power: PowerController

    var lid: Option<LidSession>
    var thermalTimer: Option<nat>
    var expiryTimer: Option<nat>
    var countdownTimer: Option<nat>
    var ipcRunning: bool
    var errorMessage: Option<Message>
    var controls: Controls
    var popoverShown: bool

    /** The events that have been handled. */
    ghost var handled: seq<Event>

    /** The refused accesses there had been when fields and live timers last matched. */
    ghost var settled: nat

    /** Guardians of sessions that are in a local variable of a method in progress. */
    ghost var outstanding: set<nat>

    function LidObjects(): set<LidSession>
      reads this`lid
    {
      if lid.Some? then {lid.value} else {}
    }

    function Fields(): Slots
      reads this`lid, this`thermalTimer, this`expiryTimer, this`countdownTimer
    {
      Slots(lid.Some?, thermalTimer, expiryTimer, countdownTimer)
    }

    /** The guardian of the stored session. */
    function Stored(): Option<nat>
      reads this`lid, LidObjects()`guardian
    {
      if lid.Some? then lid.value.guardian else None
    }

    /** Some access has been refused since fields and live timers last matched. */
    ghost predicate Loose()
      reads this`settled, machine`refusals
    {
      machine.refusals > settled
    }

    /** The part of the invariant that is not about timers. */
    ghost predicate Held()
      reads this`lid, this`outstanding, this`settled, LidObjects()`guardian
      reads machine`sys, machine`trace, machine`timers, machine`nextTimer, machine`handles, machine`nextHandle
      reads machine`refusals, machine`lateStart, power`session
      reads LidObjects()`diagnostics
    {
      // the acquired power assertion is the active session's
      && power.machine == machine && power.Valid()
      && (lid.Some? ==> lid.value.machine == machine && lid.value.guardian.Some? && lid.value.diagnostics)
      && Conserved(machine.sys, Stored(), outstanding)
      && settled <= machine.refusals
      && Sound(machine.lateStart, machine.sys.calls, lid.Some?, power.IsActive(), power.EndsAt().Some?,
               power.KeepDisplayAwake())
    }

    ghost predicate Base()
      reads this`lid, this`thermalTimer, this`expiryTimer, this`countdownTimer, this`outstanding, LidObjects()`guardian
      reads machine`sys, machine`trace, machine`timers, machine`nextTimer, machine`handles, machine`nextHandle
      reads this`settled, machine`refusals, machine`lateStart, power`session
      reads LidObjects()`diagnostics
    {
      Held() && Tidy(machine.timers, machine.nextTimer, Fields(), Loose(), power.EndsAt().Some?)
    }

    /** A finite session has its expiry timer armed. */
    ghost predicate Armed()
      reads this`expiryTimer, this`settled, machine`refusals, power`session
    {
      !Loose() && power.EndsAt().Some? ==> expiryTimer.Some?
    }

    /** The power session can go with a lid session; there is none only after a late start. */
    ghost predicate Hosts()
      reads power`session, machine`lateStart
    {
      if power.session.Some? then power.EndsAt().Some? && !power.KeepDisplayAwake() else machine.lateStart
    }

    /** Between events no session is in transit. */
    ghost predicate Valid()
      reads this`lid, this`thermalTimer, this`expiryTimer, this`countdownTimer, this`outstanding, LidObjects()`guardian
      reads machine`sys, machine`trace, machine`timers, machine`nextTimer, machine`handles, machine`nextHandle
      reads this`settled, machine`refusals, machine`lateStart, power`session
      reads LidObjects()`diagnostics
    {
      Base() && Armed() && outstanding == {}
    }

    /** The live expiry and countdown timers are exactly those the fields refer to, and a finite
        session has its expiry timer. */
    ghost predicate Matched()
      reads this`expiryTimer, this`countdownTimer, machine`timers, power`session
    {
      && Exactly(machine.timers, Expiry, expiryTimer) && Exactly(machine.timers, Countdown, countdownTimer)
      && (power.EndsAt().Some? ==> expiryTimer.Some?)
    }

    lemma NotLooseIsMatched()
      requires Valid() && !Loose()
      ensures Matched()
    {
    }

    /** Where fields and timers match, earlier refusals no longer matter. */
    ghost method Settle()
      requires Valid() && Matched()
      modifies this`settled
      ensures Valid() && !Loose()
    {
      settled := machine.refusals;
    }

    /** The guardians, the setting and the power session are as they were. */
    twostate predicate Untouched()
      reads machine`sys, power`session
    {
      machine.sys == old(machine.sys) && power.session == old(power.session)
    }

    predicate Off()
      reads this`lid, this`thermalTimer, this`expiryTimer, power`session
    {
      power.session.None? && lid.None? && expiryTimer.None? && thermalTimer.None?
    }

    /** The next two readings of the clock, which a finite session starts from; `late` tells
        whether it will have been stopped at the second. */
    ghost function Coming(late: bool): Timing
      reads machine`readings
    {
      Timing(machine.clock(machine.readings), machine.clock(machine.readings + 1), late)
    }

    /** The n answers from the given one on are yes, the popover is closed, no lid session is held,
        and the clock neither overflows nor passes the end of a finite session at its start. */
    ghost predicate Unhindered(from: nat, n: nat, duration: Option<Duration>, clock: Timing)
      reads this`lid, this`popoverShown
    {
      && machine.Yes(from, n) && !popoverShown && lid.None?
      && duration.Some? && Fits(clock.began, duration) && !clock.Past(duration.value)
    }

    /** The k-th answer is the first refusal, of the access that stores the expiry timer, and nothing
        else hinders the start of a finite session. */
    ghost predicate UnstoredExpiry(k: nat, duration: Option<Duration>, clock: Timing)
      reads this`lid, this`popoverShown, machine`asked
    {
      && Unhindered(machine.asked, k, duration, clock)
      && !machine.choice(machine.asked + k) && machine.choice(machine.asked + k + 1)
    }

    /** From this answer of a lid-closed start on, with the setting as given by then: whether the
        start succeeds is decided by the two accesses that look for an earlier lid session and
        store the new one. A start that fails stops the new guardian, whose reset decides the
        setting; and it leaves the power session on if only the second access was refused, or if
        after the first the one that would stop it was refused too. */
    ghost predicate StoreDecides(look: nat, r: Result<bool, Message>, flag: bool)
      reads this`lid, machine`asked, machine`sys, power`session
    {
      && (r.Ok? <==> machine.choice(look) && machine.choice(look + 1))
      && (r.Ok? <==> lid.Some?)
      && (power.session.Some? <==> machine.choice(look) || !machine.choice(look + 3))
      && (r.Ok? ==> machine.asked == look + 2 && machine.sys.flag == flag)
      && (r.Err? ==> machine.sys.flag == (flag && !machine.choice(look + if machine.choice(look) then 2 else 1)))
      && (r.Err? ==> NotInstalled(look, r.error))
    }

    /** The error after a lid session in transit has been stopped: the first one, and what stopping it met. */
    predicate WithRestore(error: Message, first: Message, fine: bool) {
      if fine then error == first else error.Rollback? && error.source == first && error.rollback.Restore?
    }

    /** And the same after everything else was to be stopped too. */
    predicate RolledBack(error: Message, first: Message, released: bool, stopped: bool) {
      if stopped then WithRestore(error, first, released)
      else error.Rollback? && error.rollback == StateUnavailable && WithRestore(error.source, first, released)
    }

    /** The error of an installation that begins with this access, with no earlier lid session. */
    ghost predicate NotInstalled(look: nat, error: Message) {
      if machine.choice(look) then WithRestore(error, StateUnavailable, machine.Yes(look + 2, 2))
      else RolledBack(error, StateUnavailable, machine.Yes(look + 1, 2), machine.choice(look + 3))
    }

    /** The access that shows it. */
    ghost function AfterNotInstalled(look: nat): nat {
      if !machine.choice(look) && machine.choice(look + 3) then look + 4 + Refreshing(look + 4) else look + 4
    }

    // ----- Obtaining a lid session: the heat at one answer, the guardian at the next ones -----

    /** The answer that `authorize` begins with, once the first guardian has failed. */
    ghost function Second(from: nat): nat {
      AfterStart(machine, from + 1)
    }

    /** On a cool machine the first guardian starts, or an interactive start finds the user, is granted
        the password, verifies the power command, and starts a second guardian. */
    ghost predicate Obtains(from: nat, interactive: bool) {
      && !machine.heat(from)
      && (machine.Yes(from + 1, 6) || (interactive && machine.Yes(Second(from), 9)))
    }

    /** The answer that follows. */
    ghost function Obtained(from: nat): nat {
      if machine.Yes(from + 1, 6) then from + 7 else Second(from) + 9
    }

    ghost predicate NotObtained(from: nat, interactive: bool, error: Message) {
      if machine.heat(from) then error == TooHot
      else if !interactive then error == NeedsSetup
      else if !machine.Yes(Second(from), 3) then error == AuthorizationFailed
      else error.LidFailed?
    }

    /** The password prompts it takes. */
    ghost function PromptsFor(from: nat, interactive: bool): nat {
      if !machine.heat(from) && !machine.Yes(from + 1, 6) && interactive && machine.choice(Second(from)) then 1 else 0
    }

    constructor (machine: Machine, power: PowerController, controls: Controls, recovered: bool)
      requires machine.Valid() && power.machine == machine && power.session.None? && machine.handles == map[]
      requires machine.sys.app.Idle? && machine.sys.held == {} && machine.timers == map[] && machine.sys.calls == []
      ensures this.machine == machine && this.power == power && this.controls == controls
      ensures Valid() && Off() && Matched() && !popoverShown
      ensures recovered <==> errorMessage.None?
      ensures !Loose() && handled == [] && ipcRunning
    {
      this.machine, this.power, this.controls := machine, power, controls;
      lid, thermalTimer, expiryTimer, countdownTimer := None, None, None, None;
      ipcRunning, popoverShown, outstanding, settled, handled := true, false, {}, machine.refusals, [];
      errorMessage := if recovered then None else Some(Message.Restore(ResetFailed));
    }

    // ----- Timers and display -----

    lemma CancelKeepsTidy()
      requires Base()
      ensures var n, s, busy, finite := machine.nextTimer, Fields(), Loose(), power.EndsAt().Some?;
              && Tidy(Without(machine.timers, thermalTimer), n, s.(lidHeld := false, thermal := None), busy, finite)
              && Tidy(Without(machine.timers, expiryTimer), n, s.(expiry := None), busy, finite)
              && Tidy(Without(machine.timers, countdownTimer), n, s.(countdown := None), busy, finite)
    {
      hide Exclusive, Expiries, Terminations, Tidy;
      TidyCancel(machine.timers, machine.nextTimer, Fields(), Loose(), power.EndsAt().Some?);
    }

    /** `with_state` and `with_state_mut`: whether the state could be accessed. */
    method Access() returns (ok: bool)
      requires Base()
      modifies machine`asked, machine`refusals
      ensures Base() && machine.asked == old(machine.asked) + 1 && ok == machine.choice(old(machine.asked))
      ensures machine.refusals == old(machine.refusals) + (if ok then 0 else 1) && (!ok ==> Loose())
      ensures machine.Smooth() ==> ok
    {
      hide Machine.Valid, Machine.Smooth, Conserved, Sound;
      ok := machine.Borrow();
    }

    /** The same with a timer not yet put into its field. */
    method AccessAgain() returns (ok: bool)
      requires Held()
      modifies machine`asked, machine`refusals
      ensures Held() && machine.asked == old(machine.asked) + 1 && ok == machine.choice(old(machine.asked))
      ensures machine.refusals == old(machine.refusals) + (if ok then 0 else 1) && (!ok ==> Loose())
      ensures machine.Smooth() ==> ok
    {
      hide Machine.Valid, Machine.Smooth, Conserved, Sound;
      ok := machine.Borrow();
    }

    /** Records what the invariant depends on from here on. */
    ghost method NoteStart(late: bool)
      requires Base()
      modifies machine`lateStart
      ensures Base() && machine.lateStart == (old(machine.lateStart) || late)
    {
      machine.lateStart := machine.lateStart || late;
    }

    /** `invalidate` on the timer a field refers to. */
    method Cancel(timer: Option<nat>)
      requires machine.Valid()
      modifies machine`timers
      ensures machine.Valid()
      ensures machine.timers == Without(old(machine.timers), timer)
    {
      if timer.Some? {
        machine.Invalidate(timer.value);
      }
    }

    /** The live expiry timers that no field refers to. */
    ghost function Stray(): set<nat>
      reads this`expiryTimer, machine`timers
    {
      Expiries(machine.timers) - (if expiryTimer.Some? then {expiryTimer.value} else {})
    }

    /** A stray expiry timer stays live, and stray: nothing can cancel it. */
    twostate predicate KeepsStray()
      reads this`expiryTimer, machine`timers
    {
      old(Stray()) <= Stray()
    }

    twostate predicate SameOneShots()
      reads machine`timers
    {
      && Expiries(machine.timers) == old(Expiries(machine.timers))
      && Terminations(machine.timers) == old(Terminations(machine.timers))
    }

    twostate predicate NoNewOneShots()
      reads machine`timers
    {
      Expiries(machine.timers) <= old(Expiries(machine.timers)) && NoNewTerminations()
    }

    twostate predicate NoNewTerminations()
      reads machine`timers
    {
      Terminations(machine.timers) <= old(Terminations(machine.timers))
    }

    lemma FieldsReferByKind()
      requires Base()
      ensures thermalTimer.Some? ==>
                thermalTimer.value !in Expiries(machine.timers) && thermalTimer.value !in Terminations(machine.timers)
      ensures countdownTimer.Some? ==>
                && countdownTimer.value !in Expiries(machine.timers)
                && countdownTimer.value !in Terminations(machine.timers)
      ensures power.EndsAt().None? ==> expiryTimer.None?
    {
    }

    /** What refreshing the display leaves alone: every timer there was. */
    twostate predicate OnlyAddsTimers()
      reads machine`timers
    {
      forall id | id in old(machine.timers) :: id in machine.timers && machine.timers[id] == old(machine.timers)[id]
    }

    lemma NewTimerIsNew()
      requires Base()
      ensures machine.nextTimer !in machine.timers
    {
    }

    /** What a new timer of each kind does to the invariant. */
    lemma NewTimerIsTidy(interval: nat)
      requires Base()
      ensures var n, s, busy, finite := machine.nextTimer, Fields(), Loose(), power.EndsAt().Some?;
              var countdown := machine.timers[n := Timer(Countdown, COUNTDOWN_UPDATE_INTERVAL)];
              var expiry := machine.timers[n := Timer(Expiry, interval)];
              var thermal := machine.timers[n := Timer(Thermal, THERMAL_CHECK_INTERVAL)];
              && (s.countdown.None? ==> Tidy(countdown, n + 1, s.(countdown := Some(n)), busy, finite))
              && Tidy(countdown, n + 1, s, true, finite)
              && (s.expiry.None? && finite ==> Tidy(expiry, n + 1, s.(expiry := Some(n)), busy, finite))
              && Tidy(expiry, n + 1, s, true, finite)
              && Tidy(machine.timers[n := Timer(Terminate, TERMINATION_DELAY)], n + 1, s, busy, finite)
              && (lid.None? ==>
                    && Tidy(thermal, n + 1, s.(lidHeld := true, thermal := Some(n)), busy, finite)
                    && Tidy(thermal - {n}, n + 1, s, true, finite))
    {
      hide Tidy;
      var timers, n, s, loose, finite := machine.timers, machine.nextTimer, Fields(), Loose(), power.EndsAt().Some?;
      TidyCountdown(timers, n, s, loose, finite);
      TidyExpiry(timers, n, s, loose, finite, interval);
      TidyTerminate(timers, n, s, loose, finite);
      if lid.None? {
        TidyThermal(timers, n, s, loose, finite);
      }
    }

    method StartCountdownTimerIfNeeded()
      requires Base()
      modifies this`countdownTimer, machine`asked, machine`refusals, machine`timers, machine`nextTimer
      ensures Base() && machine.Watched() && OnlyAddsTimers()
      ensures !(popoverShown && power.EndsAt().Some?) ==> machine.asked == old(machine.asked) + 1
      ensures SameOneShots() && KeepsStray()
      ensures machine.Granted() && popoverShown && power.EndsAt().Some? ==> countdownTimer.Some?
      ensures !(popoverShown && power.EndsAt().Some?) ==> countdownTimer == old(countdownTimer)
    {
      hide Exclusive, Expiries, Terminations, Machine.Valid, Machine.Smooth, Conserved, Sound, Tidy;
      var ok := Access();
      var shouldStart := ok && countdownTimer.None? && popoverShown && power.IsActive() && power.EndsAt().Some?;
      if shouldStart {
        ArmCountdownTimer();
      }
    }

    /** `schedule_timer`. */
    method AddTimer(kind: TimerKind, interval: nat) returns (timer: nat)
      requires Base()
      modifies machine`timers, machine`nextTimer
      ensures Held() && timer == old(machine.nextTimer) && timer !in old(machine.timers)
      ensures machine.timers == old(machine.timers)[timer := Timer(kind, interval)] && machine.nextTimer == timer + 1
    {
      hide Exclusive, Expiries, Terminations, Machine.Smooth, Conserved, Sound, Tidy;
      NewTimerIsNew();
      timer := machine.Schedule(kind, interval);
    }

    method ArmCountdownTimer()
      requires Base() && countdownTimer.None?
      modifies this`countdownTimer, machine`asked, machine`refusals, machine`timers, machine`nextTimer
      ensures Base() && machine.Watched() && OnlyAddsTimers()
      ensures SameOneShots() && KeepsStray()
      ensures machine.Granted() ==> countdownTimer.Some?
    {
      hide Exclusive, Expiries, Terminations, Machine.Smooth, Held, Tidy;
      NewTimerIsTidy(COUNTDOWN_UPDATE_INTERVAL);
      ghost var timers := machine.timers;
      var timer := AddTimer(Countdown, COUNTDOWN_UPDATE_INTERVAL);
      OneShotsPut(timers, timer, Timer(Countdown, COUNTDOWN_UPDATE_INTERVAL));
      var ok := AccessAgain();
      if ok {
        countdownTimer := Some(timer);
      }
    }

    /** The accesses of `update_ui` from this one on, with no countdown to show. */
    ghost function Refreshing(from: nat): nat {
      if machine.choice(from) then 2 else 1
    }

    /** `update_ui`: of what it refreshes, only the countdown timer is state. */
    method UpdateUi()
      requires Base()
      modifies this`countdownTimer, machine`asked, machine`refusals, machine`timers, machine`nextTimer
      ensures Base() && machine.Watched() && OnlyAddsTimers()
      ensures !machine.choice(old(machine.asked)) ==>
                machine.asked == old(machine.asked) + 1 && countdownTimer == old(countdownTimer)
      ensures !(popoverShown && power.EndsAt().Some?) && machine.choice(old(machine.asked)) ==>
                machine.asked == old(machine.asked) + 2
      ensures SameOneShots() && KeepsStray()
      ensures machine.Granted() && popoverShown && power.EndsAt().Some? ==> countdownTimer.Some?
      ensures !(popoverShown && power.EndsAt().Some?) ==> countdownTimer == old(countdownTimer)
    {
      hide Exclusive, Expiries, Terminations, Machine.Valid, Machine.Smooth, Conserved, Sound, Tidy;
      var updated := Access();
      if updated {
        StartCountdownTimerIfNeeded();
      }
    }

    method ShowError(message: Message)
      requires Base()
      modifies this`countdownTimer, this`errorMessage, machine`asked, machine`refusals, machine`timers
      modifies machine`nextTimer
      ensures Base() && machine.Watched() && OnlyAddsTimers()
      ensures errorMessage == if machine.choice(old(machine.asked)) then Some(message) else old(errorMessage)
      ensures machine.Granted() ==> errorMessage == Some(message)
      ensures machine.Granted() && popoverShown && power.EndsAt().Some? ==> countdownTimer.Some?
      ensures SameOneShots() && KeepsStray()
    {
      hide Exclusive, Expiries, Terminations, Machine.Valid, Machine.Smooth, Conserved, Sound, Tidy;
      var ok := Access();
      if ok {
        errorMessage := Some(message);
      }
      UpdateUi();
    }

    method ClearError()
      requires Base()
      modifies this`countdownTimer, this`errorMessage, machine`asked, machine`refusals, machine`timers
      modifies machine`nextTimer
      ensures Base() && machine.Watched()
      ensures errorMessage == if !machine.choice(old(machine.asked)) || old(errorMessage) == Some(ThermalCutoff)
                              then old(errorMessage) else None
      ensures machine.Granted() ==> machine.choice(old(machine.asked))
      ensures machine.Granted() && popoverShown && power.EndsAt().Some? ==> countdownTimer.Some?
      ensures SameOneShots() && KeepsStray()
    {
      hide Exclusive, Expiries, Terminations, Machine.Valid, Machine.Smooth, Conserved, Sound, Tidy;
      var ok := Access();
      if ok && errorMessage != Some(ThermalCutoff) {
        errorMessage := None;
      }
      UpdateUi();
    }

    // ----- Sessions in transit -----

    /** A session in transit, with its drain as it was started. */
    ghost predicate Carried(session: LidSession)
      reads this`outstanding, session`guardian, session`diagnostics
    {
      && session.machine == machine && session.guardian.Some? && session.diagnostics
      && session.guardian.value in outstanding
    }

    /** The only session in transit, if any, is this one. */
    ghost predicate InTransit(session: Option<LidSession>)
      reads this`outstanding
      reads (if session.Some? then {session.value} else {})`guardian
      reads (if session.Some? then {session.value} else {})`diagnostics
    {
      if session.Some? then Carried(session.value) && outstanding == {session.value.guardian.value}
      else outstanding == {}
    }

    /** These two answers in a row are yes; for a stop, those of the reset and of the drain's join. */
    twostate predicate BothYes(calls: nat) {
      machine.choice(old(machine.asked) + calls) && machine.choice(old(machine.asked) + calls + 1)
    }

    /** How the sleep setting changes when a lid session is stopped, if one is: the answer this many
        calls on, which is the reset's, decides. */
    twostate predicate Restores(stopped: bool, calls: nat)
      reads machine`sys
    {
      machine.sys.flag == (old(machine.sys.flag) && !(stopped && machine.choice(old(machine.asked) + calls)))
    }

    /** `take_lid_session`: the session leaves the state with its thermal timer. */
    method TakeLidSession() returns (taken: Option<LidSession>)
      requires Base()
      modifies this`lid, this`thermalTimer, this`outstanding, machine`timers
      ensures Base() && lid.None? && thermalTimer.None? && taken == old(lid)
      ensures taken.Some? ==> Carried(taken.value) && taken.value.guardian.value !in old(outstanding)
      ensures outstanding == old(outstanding) + (if taken.Some? then {taken.value.guardian.value} else {})
      ensures SameOneShots() && KeepsStray()
    {
      hide Expiries, Terminations, Machine.Valid, Machine.Smooth, Exclusive, Tidy;
      CancelKeepsTidy();
      FieldsReferByKind();
      OneShotsDrop(machine.timers, thermalTimer);
      Cancel(thermalTimer);
      thermalTimer := None;
      taken := lid;
      if lid.Some? {
        outstanding := outstanding + {lid.value.guardian.value};
      }
      lid := None;
    }

    method CancelExpiryTimer()
      requires Base()
      modifies this`expiryTimer, machine`timers
      ensures Base() && expiryTimer.None?
      ensures NoNewOneShots() && KeepsStray()
    {
      hide Exclusive, Expiries, Terminations, Machine.Valid, Machine.Smooth, Conserved, Sound, Tidy;
      CancelKeepsTidy();
      OneShotsDrop(machine.timers, expiryTimer);
      Cancel(expiryTimer);
      expiryTimer := None;
    }

    method CancelCountdownTimer()
      requires Base()
      modifies this`countdownTimer, machine`timers
      ensures Base() && countdownTimer.None?
      ensures SameOneShots() && KeepsStray()
    {
      hide Exclusive, Expiries, Terminations, Machine.Valid, Machine.Smooth, Conserved, Sound, Tidy;
      CancelKeepsTidy();
      FieldsReferByKind();
      OneShotsDrop(machine.timers, countdownTimer);
      Cancel(countdownTimer);
      countdownTimer := None;
    }

    /** `invalidate_timers`. */
    method InvalidateTimers() returns (taken: Option<LidSession>)
      requires Base()
      modifies this`lid, this`thermalTimer, this`expiryTimer, this`countdownTimer, this`outstanding, machine`timers
      ensures Base() && lid.None? && thermalTimer.None? && expiryTimer.None? && countdownTimer.None?
      ensures taken == old(lid)
      ensures taken.Some? ==> Carried(taken.value) && taken.value.guardian.value !in old(outstanding)
      ensures outstanding == old(outstanding) + (if taken.Some? then {taken.value.guardian.value} else {})
      ensures NoNewOneShots() && KeepsStray()
    {
      hide Exclusive, Expiries, Terminations, Stray, Base;
      taken := TakeLidSession();
      CancelExpiryTimer();
      CancelCountdownTimer();
    }

    /** `release_lid`: stops a session taken from the state or just started. */
    method ReleaseLid(session: Option<LidSession>) returns (r: Result<(), Message>)
      requires Base()
      requires session.Some? ==> Carried(session.value)
      modifies if session.Some? then {session.value} else {}
      modifies this`outstanding, machine`asked, machine`sys, machine`trace
      ensures Base()
      ensures outstanding == old(outstanding) - (if session.Some? then {old(session.value.guardian.value)} else {})
      ensures machine.sys.calls == old(machine.sys.calls)
              + (if session.Some? then [Stopped(old(session.value.guardian.value))] else [])
      ensures session.None? ==> r.Ok? && machine.sys == old(machine.sys) && machine.asked == old(machine.asked)
      ensures r.Ok? && session.Some? ==> !machine.sys.flag && !machine.sys.tainted
      ensures r.Err? ==> r.error.Restore?
      ensures session.Some? ==> session.value.guardian.None?
      ensures machine.Smooth() ==> r.Ok?
      ensures Restores(session.Some?, 0)
      ensures r.Ok? <==> (session.Some? ==> BothYes(0))
      ensures machine.asked == old(machine.asked) + (if session.Some? then 2 else 0)
      ensures machine.Disciplined()
    {
      hide Exclusive, Expiries, Terminations, Machine.Valid, Machine.Smooth, Tidy;
      r := Ok(());
      if session.Some? {
        ghost var g := session.value.guardian.value;
        ghost var calls := machine.sys.calls;
        var stopped := session.value.Stop();
        outstanding := outstanding - {g};
        Append(calls, Stopped(g));
        if stopped.Err? {
          r := Err(Message.Restore(stopped.error));
        }
      }
    }

    /** Takes the stored lid session, if the state can be accessed, and stops it. */
    method TakeAndRelease() returns (r: Result<(), Message>)
      requires Base() && Armed()
      modifies this`lid, this`thermalTimer, this`outstanding, LidObjects()
      modifies machine`asked, machine`refusals, machine`timers, machine`sys, machine`trace
      ensures Base() && Armed() && outstanding == old(outstanding) && machine.Watched()
      ensures r == Err(StateUnavailable) ==> !machine.Granted() && lid == old(lid) && machine.sys == old(machine.sys)
      ensures r != Err(StateUnavailable) ==>
                && lid.None?
                && machine.sys.calls == old(machine.sys.calls)
                   + (if old(lid).Some? then [Stopped(old(lid.value.guardian.value))] else [])
      ensures r.Ok? && old(lid).Some? ==> !machine.sys.flag && !machine.sys.tainted
      ensures r.Ok? <==> machine.choice(old(machine.asked)) && (old(lid).Some? ==> BothYes(1))
      ensures r.Err? ==> r.error == StateUnavailable || r.error.Restore?
      ensures machine.choice(old(machine.asked)) ==>
                machine.asked == old(machine.asked) + (if old(lid).Some? then 3 else 1)
      ensures r == Err(StateUnavailable) <==> !machine.choice(old(machine.asked))
      ensures old(lid).None? ==>
                && (r.Ok? || r == Err(StateUnavailable))
                && machine.sys == old(machine.sys) && machine.asked == old(machine.asked) + 1
      ensures machine.Smooth() ==> r.Ok?
      ensures Restores(old(lid).Some? && machine.choice(old(machine.asked)), 1)
      ensures machine.Disciplined()
      ensures SameOneShots() && KeepsStray()
      ensures r != Err(NeedsSetup)
    {
      hide Held;
      hide Exclusive, Expiries, Terminations, Stray, Machine.Valid, Machine.Smooth, Conserved, Sound, Tidy;
      var ok := Access();
      if !ok {
        return Err(StateUnavailable);
      }
      var taken := TakeLidSession();
      r := ReleaseLid(taken);
    }

    // ----- Starting and stopping -----

    /** `power.stop()` once the timers are gone. */
    method StopPower()
      requires Base() && lid.None? && expiryTimer.None?
      modifies power, machine`handles
      ensures Base() && power.session.None?
    {
      hide Machine.Valid, Machine.Smooth, Conserved;
      power.Stop();
    }

    /** `power.start(..)` from the current time, once everything else is off. */
    method StartPower(duration: Option<Duration>, keepDisplay: bool) returns (r: Result<(), Message>)
      requires Base() && lid.None? && expiryTimer.None?
      modifies power, machine`asked, machine`refusals, machine`readings, machine`handles, machine`nextHandle
      ensures Base() && machine.Watched()
      ensures r == Err(StateUnavailable) <==> !machine.choice(old(machine.asked))
      ensures r == Err(StateUnavailable) ==> !machine.Granted() && power.session == old(power.session)
      ensures r != Err(StateUnavailable) ==> machine.readings == old(machine.readings) + 1
      ensures r.Err? && r != Err(StateUnavailable) ==> power.session.None?
      ensures r.Ok? ==>
                && power.session.Some? && power.KeepDisplayAwake() == keepDisplay
                && power.EndsAt() == End(machine.clock(old(machine.readings)), duration)
                && (duration.Some? <==> power.EndsAt().Some?)
      ensures machine.Smooth() && Fits(machine.clock(old(machine.readings)), duration) ==> r.Ok?
      ensures machine.Yes(old(machine.asked), 2) && Fits(machine.clock(old(machine.readings)), duration) ==>
                r.Ok? && machine.asked == old(machine.asked) + 2
      ensures r.Err? ==> !r.error.Restore?
      ensures var once := r == Err(StateUnavailable) || r == Err(PowerFailed(DurationOverflow));
              machine.asked == old(machine.asked) + (if once then 1 else 2)
      ensures r != Err(NeedsSetup)
    {
      hide Machine.Valid, Machine.Smooth, Conserved, CheckedAdd;
      var ok := Access();
      if !ok {
        return Err(StateUnavailable);
      }
      var now := machine.Now();
      var started := power.Start(duration, keepDisplay, now);
      r := if started.Ok? then Ok(()) else Err(PowerFailed(started.error));
    }

    /** What stopping, starting and terminating begin with once they have the state: the timers,
        the assertion and the lid session all go. */
    method TurnOff() returns (r: Result<(), Message>)
      requires Base()
      modifies this`lid, this`thermalTimer, this`expiryTimer, this`countdownTimer, this`outstanding, LidObjects()
      modifies power, machine`asked, machine`timers, machine`handles, machine`sys, machine`trace
      ensures Base() && Off() && outstanding == old(outstanding)
      ensures machine.sys.calls == old(machine.sys.calls)
              + (if old(lid).Some? then [Stopped(old(lid.value.guardian.value))] else [])
      ensures r.Ok? && old(lid).Some? ==> !machine.sys.flag && !machine.sys.tainted
      ensures r.Err? ==> r.error.Restore? && old(lid).Some?
      ensures old(lid).None? ==> machine.sys == old(machine.sys) && machine.asked == old(machine.asked)
      ensures machine.Smooth() ==> r.Ok?
      ensures Restores(old(lid).Some?, 0)
      ensures r.Ok? <==> (old(lid).Some? ==> BothYes(0))
      ensures machine.asked == old(machine.asked) + (if old(lid).Some? then 2 else 0)
      ensures machine.Disciplined()
      ensures NoNewOneShots() && KeepsStray()
    {
      hide Exclusive, Expiries, Terminations, Stray, Machine.Valid, Machine.Smooth, Conserved, Sound, Tidy;
      var taken := InvalidateTimers();
      StopPower();
      r := ReleaseLid(taken);
    }

    /** `stop_session`: everything goes off together, unless the state was busy; then nothing
        changes. The lid session, if there was one, is stopped exactly once. */
    method StopSession() returns (r: Result<(), Message>)
      requires Base()
      modifies this`lid, this`thermalTimer, this`expiryTimer, this`countdownTimer, this`outstanding, LidObjects()
      modifies power, machine`asked, machine`refusals, machine`timers, machine`nextTimer, machine`handles
      modifies machine`sys, machine`trace
      ensures Base() && Armed() && outstanding == old(outstanding)
      ensures machine.Watched()
      ensures Off() || (r == Err(StateUnavailable) && !machine.Granted())
      ensures lid.None? || lid == old(lid)
      ensures power.session.None? || power.session == old(power.session)
      ensures r == Err(StateUnavailable) ==>
                && !machine.Granted() && lid == old(lid) && thermalTimer == old(thermalTimer)
                && expiryTimer == old(expiryTimer) && power.session == old(power.session)
                && machine.sys == old(machine.sys)
      ensures r != Err(StateUnavailable) ==>
                && Off()
                && machine.sys.calls == old(machine.sys.calls)
                   + (if old(lid).Some? then [Stopped(old(lid.value.guardian.value))] else [])
      ensures r.Ok? && old(lid).Some? ==> !machine.sys.flag && !machine.sys.tainted
      ensures r.Err? ==> r.error == StateUnavailable || (r.error.Restore? && old(lid).Some?)
      ensures r == Err(StateUnavailable) <==> !machine.choice(old(machine.asked))
      ensures old(lid).None? ==> machine.sys == old(machine.sys)
      ensures var next := old(machine.asked) + (if old(lid).Some? then 3 else 1);
              machine.asked == if machine.choice(old(machine.asked)) then next + Refreshing(next)
                               else old(machine.asked) + 1
      ensures machine.Smooth() ==> r.Ok?
      ensures lid.Some? ==> Untouched()
      ensures Restores(old(lid).Some? && machine.choice(old(machine.asked)), 1)
      ensures r.Ok? <==> machine.choice(old(machine.asked)) && (old(lid).Some? ==> BothYes(1))
      ensures machine.Disciplined()
      ensures NoNewOneShots() && KeepsStray()
    {
      hide Exclusive, Expiries, Terminations, Stray, Base, OnlyAddsTimers, Machine.Smooth;
      var ok := Access();
      if !ok {
        return Err(StateUnavailable);
      }
      r := TurnOff();
      UpdateUi();
    }

    /** Cancels the expiry timer and reads off the time left, `None` when there is none. */
    method TakeRemaining() returns (remaining: Option<nat>)
      requires Base()
      modifies this`expiryTimer, machine`timers, machine`readings
      ensures Base() && expiryTimer.None?
      ensures machine.readings == old(machine.readings) + (if power.EndsAt().Some? then 1 else 0)
      ensures remaining ==
              if power.EndsAt().Some? && power.EndsAt().value > machine.clock(old(machine.readings))
              then Some(power.EndsAt().value - machine.clock(old(machine.readings))) else None
      ensures NoNewOneShots() && KeepsStray()
    {
      hide Exclusive, Expiries, Terminations, Machine.Valid, Machine.Smooth, Conserved, Sound, Tidy;
      CancelExpiryTimer();
      remaining := None;
      if power.EndsAt().Some? {
        var now := machine.Now();
        if power.EndsAt().value > now {
          remaining := Some(power.EndsAt().value - now);
        }
      }
    }

    /** `stop_session`, with an error shown. */
    method StopOrShow()
      requires Base()
      modifies this`lid, this`thermalTimer, this`expiryTimer, this`countdownTimer, this`errorMessage
      modifies this`outstanding, LidObjects()
      modifies power, machine`asked, machine`refusals, machine`timers, machine`nextTimer, machine`handles
      modifies machine`sys, machine`trace
      ensures Base() && (old(expiryTimer).None? && power.EndsAt().Some? ==> Loose()) && outstanding == old(outstanding)
      ensures machine.Watched() && machine.Disciplined() && NoNewOneShots() && KeepsStray()
      ensures if machine.choice(old(machine.asked)) then Off()
              else Untouched() && lid == old(lid) && expiryTimer == old(expiryTimer) && !machine.Granted()
      ensures Restores(old(lid).Some? && machine.choice(old(machine.asked)), 1)
      ensures machine.Granted() && old(lid).Some? && !BothYes(1) ==> errorMessage.Some? && errorMessage.value.Restore?
      ensures old(lid).None? ==> machine.sys == old(machine.sys)
      ensures lid.Some? ==> Untouched()
    {
      hide Refreshing;
      hide Exclusive, Expiries, Terminations, Stray, Base, OnlyAddsTimers, Machine.Smooth;
      var stopped := StopSession();
      if stopped.Err? {
        ShowError(stopped.error);
      }
    }

    /** `schedule_expiry_timer`, at the start of a finite session and whenever its timer fires.
        `now` is the reading of the clock, `expired` whether the session is to be stopped. */
    method ScheduleExpiryTimer() returns (ghost now: Time, ghost expired: bool)
      requires Base()
      modifies this`lid, this`thermalTimer, this`expiryTimer, this`countdownTimer, this`errorMessage
      modifies this`outstanding, LidObjects()
      modifies power, machine`asked, machine`refusals, machine`readings, machine`timers, machine`nextTimer
      modifies machine`handles, machine`sys, machine`trace
      ensures Base() && Armed() && outstanding == old(outstanding)
      ensures machine.Watched()
      ensures now == machine.clock(old(machine.readings))
      ensures machine.Granted() ==> machine.choice(old(machine.asked))
      ensures machine.readings == old(machine.readings)
              + (if machine.choice(old(machine.asked)) && old(power.EndsAt()).Some? then 1 else 0)
      ensures expired <==> machine.choice(old(machine.asked))
                           && (old(power.EndsAt()).None? || now >= old(power.EndsAt()).value)
      ensures expired ==>
                if machine.choice(old(machine.asked) + 1) then Off()
                else power.session == old(power.session) && lid == old(lid)
      ensures machine.choice(old(machine.asked)) && !expired ==> machine.asked == old(machine.asked) + 2
      ensures old(lid).None? ==> machine.sys == old(machine.sys)
      ensures !expired ==> lid == old(lid) && thermalTimer == old(thermalTimer)
                           && power.session == old(power.session) && machine.sys == old(machine.sys)
      ensures machine.Granted() && expired ==> machine.choice(old(machine.asked) + 1)
      ensures machine.Granted() && expired && old(lid).Some? && !BothYes(2) ==>
                errorMessage.Some? && errorMessage.value.Restore?
      ensures machine.Granted() && expiryTimer.Some? ==> expiryTimer.value >= old(machine.nextTimer)
      ensures machine.Granted() && !expired ==>
                && old(power.EndsAt()).Some? && now < old(power.EndsAt()).value
                && expiryTimer.Some? && expiryTimer.value in machine.timers
                && machine.timers[expiryTimer.value] == Timer(Expiry, old(power.EndsAt()).value - now)
      ensures lid == old(lid) || lid.None?
      ensures power.session == old(power.session) || power.session.None?
      ensures lid.Some? ==> Untouched()
      ensures Restores(old(lid).Some? && expired && machine.choice(old(machine.asked) + 1), 2)
      ensures machine.Disciplined()
      ensures KeepsStray() && NoNewTerminations() && (old(power.EndsAt()).None? ==> NoNewOneShots())
      ensures machine.choice(old(machine.asked)) && !expired && !machine.choice(old(machine.asked) + 1) ==>
                old(machine.nextTimer) in Stray()
      ensures !expired ==> errorMessage == old(errorMessage)
    {
      hide Refreshing;
      hide Exclusive, Expiries, Terminations, Stray, Base, OnlyAddsTimers, Machine.Smooth;
      now, expired := machine.clock(machine.readings), false;
      var ok := Access();
      if !ok {
        return;
      }
      var remaining := TakeRemaining();
      match remaining
      case Some(interval) =>
        ArmExpiryTimer(interval);
      case None =>
        expired := true;
        StopOrShow();
    }

    /** Schedules the expiry timer and stores it in the state. */
    method ArmExpiryTimer(interval: nat)
      requires Base() && expiryTimer.None? && power.EndsAt().Some?
      modifies this`expiryTimer, machine`asked, machine`refusals, machine`timers, machine`nextTimer
      ensures Base() && Armed() && machine.Watched()
      ensures machine.Granted() ==> expiryTimer == Some(old(machine.nextTimer)) && expiryTimer.value in machine.timers
                                    && machine.timers[expiryTimer.value] == Timer(Expiry, interval)
      ensures machine.asked == old(machine.asked) + 1
      ensures KeepsStray() && NoNewTerminations()
      ensures !machine.choice(old(machine.asked)) ==> old(machine.nextTimer) in Stray()
    {
      hide Exclusive, Expiries, Terminations, Machine.Smooth, Held, Tidy;
      NewTimerIsTidy(interval);
      ghost var timers := machine.timers;
      var timer := AddTimer(Expiry, interval);
      OneShotsPut(timers, timer, Timer(Expiry, interval));
      var ok := AccessAgain();
      if ok {
        expiryTimer := Some(timer);
      }
    }

    /** The first half of `start_session`: everything goes off, and the error message. */
    method ReleaseOld() returns (r: Result<(), Message>)
      requires Base()
      modifies this`lid, this`thermalTimer, this`expiryTimer, this`countdownTimer, this`errorMessage
      modifies this`outstanding, LidObjects()
      modifies power, machine`asked, machine`refusals, machine`timers, machine`nextTimer, machine`handles
      modifies machine`sys, machine`trace
      ensures Base() && outstanding == old(outstanding) && (r.Err? ==> Armed())
      ensures machine.Watched() && machine.Disciplined() && KeepsStray()
      ensures Restores(old(lid).Some? && machine.choice(old(machine.asked)), 1)
      ensures r.Ok? ==>
                && Off() && machine.choice(old(machine.asked)) && machine.nextTimer == old(machine.nextTimer)
                && (old(lid).Some? ==> !machine.sys.flag)
      ensures old(lid).None? ==>
                && machine.sys == old(machine.sys) && (r.Ok? <==> machine.choice(old(machine.asked)))
                && (r.Ok? ==> machine.asked == old(machine.asked) + 1)
      ensures machine.Granted() && r.Err? ==> Off() && errorMessage == Some(r.error) && r.error.Restore?
      ensures machine.Granted() ==> (r.Err? <==> old(lid).Some? && !BothYes(1))
      ensures lid == old(lid) || lid.None?
      ensures lid.Some? ==> Untouched()
      ensures old(power.session).None? ==> power.session.None?
      ensures machine.Smooth() ==> r.Ok?
      ensures r.Ok? ==> errorMessage.None?
      ensures r != Err(NeedsSetup)
    {
      hide Exclusive, Expiries, Terminations, Stray, Base, OnlyAddsTimers, Machine.Smooth;
      var ok := Access();
      if !ok {
        return Err(StateUnavailable);
      }
      errorMessage := None;
      r := TurnOff();
      if r.Err? {
        ShowError(r.error);
      }
    }

    /** `start_session`. */
    method StartSession(duration: Option<Duration>, keepDisplay: bool)
      returns (r: Result<(), Message>, ghost clock: Timing)
      requires Base()
      modifies this`lid, this`thermalTimer, this`expiryTimer, this`countdownTimer, this`errorMessage
      modifies this`outstanding, LidObjects()
      modifies power, machine`asked, machine`refusals, machine`lateStart, machine`readings, machine`timers
      modifies machine`nextTimer
      modifies machine`handles, machine`nextHandle, machine`sys, machine`trace
      ensures Base() && Armed() && outstanding == old(outstanding)
      ensures machine.Watched()
      ensures clock == old(Coming(clock.late))
      ensures machine.lateStart == (old(machine.lateStart) || (clock.late && old(outstanding) != {}))
      ensures machine.Granted() && (r.Err? || clock.late) ==> Off()
      ensures machine.Granted() && r.Err? ==>
                && (r.error.Restore? <==> old(lid).Some? && !BothYes(1))
                && (if r.error.Restore? then errorMessage == Some(r.error) else errorMessage.None?)
      ensures clock.late ==> r.Ok? && duration.Some? && clock.Past(duration.value)
      ensures machine.Granted() && r.Ok? && duration.Some? && !clock.late ==> !clock.Past(duration.value)
      ensures r.Ok? ==> lid.None?
      ensures r.Ok? && !clock.late ==> power.session.Some?
      ensures r.Ok? && power.session.Some? ==>
                && power.KeepDisplayAwake() == keepDisplay
                && power.EndsAt() == End(clock.began, duration) && EndsAfter(duration, clock)
      ensures lid == old(lid) || lid.None?
      ensures r.Err? && old(power.session).None? && old(lid).None? ==> power.session.None?
      ensures machine.Smooth() && Fits(clock.began, duration) ==> r.Ok?
      ensures old(lid).None? ==> machine.sys == old(machine.sys)
      ensures r.Ok? ==> machine.sys.flag == (old(machine.sys.flag) && old(lid).None?)
      ensures machine.Granted() && r.Ok? ==>
                machine.readings == old(machine.readings) + (if duration.Some? then 2 else 1)
      ensures old(Unhindered(machine.asked, 7, duration, clock)) ==>
                r.Ok? && power.session.Some? && !clock.late && machine.asked == old(machine.asked) + 7
      ensures lid.Some? ==> Untouched()
      ensures Restores(old(lid).Some? && machine.choice(old(machine.asked)), 1)
      ensures machine.Disciplined()
      ensures KeepsStray()
      ensures old(UnstoredExpiry(4, duration, clock)) ==>
                && r.Ok? && power.session.Some? && machine.asked == old(machine.asked) + 7
                && old(machine.nextTimer) in Stray()
      ensures duration.None? && machine.Yes(old(machine.asked), 4) && !popoverShown && old(lid).None? ==>
                r.Ok? && power.session.Some? && power.EndsAt().None? && machine.asked == old(machine.asked) + 5
      ensures r.Ok? && !clock.late ==> errorMessage.None?
      ensures r != Err(NeedsSetup)
    {
      hide Exclusive, Expiries, Terminations, Stray, Base, OnlyAddsTimers, Machine.Smooth, Timing.Past, CheckedAdd;
      clock := Coming(false);
      var released := ReleaseOld();
      match released
      case Err(error) =>
        r := Err(error);
      case Ok(_) =>
        r, clock := BeginSession(duration, keepDisplay);
    }

    /** The second half of `start_session`, with everything off. */
    method BeginSession(duration: Option<Duration>, keepDisplay: bool)
      returns (r: Result<(), Message>, ghost clock: Timing)
      requires Base() && Off()
      modifies this`lid, this`thermalTimer, this`expiryTimer, this`countdownTimer, this`errorMessage, this`outstanding
      modifies power, machine`asked, machine`refusals, machine`lateStart, machine`readings, machine`timers
      modifies machine`nextTimer
      modifies machine`handles, machine`nextHandle, machine`sys, machine`trace
      ensures Base() && Armed() && outstanding == old(outstanding) && lid.None?
      ensures machine.Watched()
      ensures clock == old(Coming(clock.late))
      ensures machine.lateStart == (old(machine.lateStart) || (clock.late && old(outstanding) != {}))
      ensures r.Err? ==> power.session.None?
      ensures machine.Granted() && (r.Err? || clock.late) ==> Off()
      ensures clock.late ==> r.Ok? && duration.Some? && clock.Past(duration.value)
      ensures machine.Granted() && r.Ok? && duration.Some? && !clock.late ==> !clock.Past(duration.value)
      ensures r.Ok? && !clock.late ==> power.session.Some?
      ensures r.Ok? && power.session.Some? ==>
                && power.KeepDisplayAwake() == keepDisplay
                && power.EndsAt() == End(clock.began, duration) && EndsAfter(duration, clock)
      ensures machine.Smooth() && Fits(clock.began, duration) ==> r.Ok?
      ensures machine.sys == old(machine.sys)
      ensures machine.Granted() && r.Ok? ==>
                machine.readings == old(machine.readings) + (if duration.Some? then 2 else 1)
      ensures old(Unhindered(machine.asked, 6, duration, clock)) ==>
                r.Ok? && power.session.Some? && !clock.late && machine.asked == old(machine.asked) + 6
      ensures KeepsStray()
      ensures old(UnstoredExpiry(3, duration, clock)) ==>
                && r.Ok? && power.session.Some? && machine.asked == old(machine.asked) + 6
                && old(machine.nextTimer) in Stray()
      ensures duration.None? && machine.Yes(old(machine.asked), 3) && !popoverShown && old(lid).None? ==>
                r.Ok? && power.session.Some? && power.EndsAt().None? && machine.asked == old(machine.asked) + 4
      ensures r.Ok? && !clock.late ==> errorMessage == old(errorMessage)
      ensures r.Err? ==>
                var next := old(machine.asked) + (if r.error == PowerFailed(DurationOverflow) then 1 else 2);
                machine.asked == if r.error == StateUnavailable then old(machine.asked) + 1 else next + Refreshing(next)
      ensures r.Err? ==> !r.error.Restore? && errorMessage == old(errorMessage)
      ensures r != Err(NeedsSetup)
    {
      hide Exclusive, Expiries, Terminations, Stray, Base, OnlyAddsTimers, Machine.Smooth, CheckedAdd;
      hide PowerController.KeepDisplayAwake;
      clock := Coming(false);
      var started := StartPower(duration, keepDisplay);
      match started
      case Err(error) =>
        if error != StateUnavailable {
          UpdateUi();
        }
        r := Err(error);
      case Ok(_) =>
        ghost var late := ScheduleAndRefresh(duration.Some?);
        clock := clock.(late := late);
        r := Ok(());
    }

    /** The last part of `start_session`, with the power session on. */
    method ScheduleAndRefresh(finite: bool) returns (ghost late: bool)
      requires Base() && lid.None? && power.session.Some? && (finite <==> power.EndsAt().Some?)
      modifies this`lid, this`thermalTimer, this`expiryTimer, this`countdownTimer, this`errorMessage, this`outstanding
      modifies power, machine`asked, machine`refusals, machine`lateStart, machine`readings, machine`timers
      modifies machine`nextTimer, machine`handles, machine`sys, machine`trace
      ensures Base() && Armed() && outstanding == old(outstanding) && lid.None?
      ensures machine.Watched() && machine.sys == old(machine.sys) && KeepsStray()
      ensures machine.lateStart == (old(machine.lateStart) || (late && old(outstanding) != {}))
      ensures late ==> finite && machine.clock(old(machine.readings)) >= old(power.EndsAt()).value
      ensures power.session == old(power.session) || (late && power.session.None?)
      ensures machine.Granted() ==>
                && machine.readings == old(machine.readings) + (if finite then 1 else 0)
                && (if late then Off() else finite ==> machine.clock(old(machine.readings)) < old(power.EndsAt()).value)
      ensures !finite && !popoverShown && machine.choice(old(machine.asked)) ==> machine.asked == old(machine.asked) + 2
      ensures finite && !popoverShown && machine.clock(old(machine.readings)) < old(power.EndsAt()).value
              && machine.choice(old(machine.asked)) && machine.choice(old(machine.asked) + 2) ==>
                && !late && machine.asked == old(machine.asked) + 4
                && (!machine.choice(old(machine.asked) + 1) ==> old(machine.nextTimer) in Stray())
      ensures !late ==> errorMessage == old(errorMessage)
    {
      hide Exclusive, Expiries, Terminations, Stray, Base, OnlyAddsTimers, Machine.Smooth;
      late := false;
      if finite {
        ghost var reading;
        reading, late := ScheduleExpiryTimer();
        NoteStart(late && outstanding != {});
      }
      UpdateUi();
    }

    /** `install_lid_session`: the new session is stored with its thermal timer; on any failure
        it has been stopped, once. */
    method InstallLidSession(session: LidSession) returns (r: Result<(), Message>)
      requires Base() && Armed()
      requires Carried(session)
      requires Hosts()
      modifies this`lid, this`thermalTimer, this`expiryTimer, this`countdownTimer, this`outstanding
      modifies LidObjects(), session
      modifies power, machine`asked, machine`refusals, machine`timers, machine`nextTimer, machine`handles
      modifies machine`sys, machine`trace
      ensures Base() && Armed() && outstanding == old(outstanding) - {old(session.guardian.value)}
      ensures machine.Watched()
      ensures r.Ok? ==> lid == Some(session) && power.session == old(power.session)
      ensures r.Err? ==> session.guardian.None? && lid != Some(session)
      ensures lid.None? || lid == old(lid) || lid == Some(session)
      ensures old(lid).None? ==>
                && (r.Ok? <==> machine.choice(old(machine.asked)) && machine.choice(old(machine.asked) + 1))
                && (if !machine.choice(old(machine.asked)) && machine.choice(old(machine.asked) + 3) then Off()
                    else power.session == old(power.session))
                && (r.Err? ==> Restores(true, if machine.choice(old(machine.asked)) then 2 else 1))
                && (r.Ok? ==> machine.sys == old(machine.sys) && machine.asked == old(machine.asked) + 2)
                && (r.Err? ==> machine.asked == AfterNotInstalled(old(machine.asked)))
                && (r.Err? ==> !machine.Granted() && NotInstalled(old(machine.asked), r.error))
      ensures machine.Disciplined()
      ensures r != Err(NeedsSetup)
    {
      hide Exclusive, Expiries, Terminations, Machine.Valid, Machine.Smooth, Conserved, Sound, Tidy;
      SessionIsNotStored(session);
      var restore := TakeAndRelease();
      if restore.Err? {
        var source := RollBackInstall(restore.error, session);
        return Err(source);
      }
      r := StoreLidSession(session);
    }

    /** Stops the new lid session and everything else. */
    method RollBackInstall(error: Message, session: LidSession) returns (source: Message)
      requires Base() && Armed()
      requires Carried(session)
      modifies this`lid, this`thermalTimer, this`expiryTimer, this`countdownTimer, this`outstanding
      modifies LidObjects(), session
      modifies power, machine`asked, machine`refusals, machine`timers, machine`nextTimer, machine`handles
      modifies machine`sys, machine`trace
      ensures Base() && Armed() && outstanding == old(outstanding) - {old(session.guardian.value)}
      ensures machine.Watched()
      ensures session.guardian.None? && (lid.None? || lid == old(lid))
      ensures old(lid).None? ==>
                && Restores(true, 0)
                && machine.asked == old(machine.asked) + 3 + (if machine.choice(old(machine.asked) + 2)
                                                              then Refreshing(old(machine.asked) + 3) else 0)
                && RolledBack(source, error, BothYes(0), machine.choice(old(machine.asked) + 2))
                && if machine.choice(old(machine.asked) + 2) then Off() else power.session == old(power.session)
      ensures machine.Disciplined()
      ensures error != NeedsSetup ==> source != NeedsSetup
    {
      hide Held;
      hide Exclusive, Expiries, Terminations, Machine.Valid, Machine.Smooth, Conserved, Sound, Tidy;
      SessionIsNotStored(session);
      source := error;
      var rollback := ReleaseLid(Some(session));
      if rollback.Err? {
        source := Message.Rollback(source, rollback.error);
      }
      var stopped := StopSession();
      if stopped.Err? {
        source := Message.Rollback(source, stopped.error);
      }
    }

    lemma SessionIsNotStored(session: LidSession)
      requires Base() && Carried(session)
      ensures lid != Some(session)
    {
    }

    /** Schedules the thermal timer, and cancels it again if the state cannot be accessed. */
    method ScheduleThermalTimer() returns (timer: nat, ok: bool)
      requires Base() && Armed() && lid.None?
      modifies machine`asked, machine`refusals, machine`timers, machine`nextTimer
      ensures Held() && Armed() && machine.Watched()
      ensures ok == machine.choice(old(machine.asked)) && machine.asked == old(machine.asked) + 1
      ensures ok ==> Tidy(machine.timers, machine.nextTimer, Fields().(lidHeld := true, thermal := Some(timer)),
                          Loose(), power.EndsAt().Some?)
      ensures !ok ==> Base() && !machine.Granted()
    {
      hide Exclusive, Expiries, Terminations, Machine.Valid, Machine.Smooth, Machine.Cool, Conserved, Sound, Tidy;
      NewTimerIsTidy(THERMAL_CHECK_INTERVAL);
      timer := AddTimer(Thermal, THERMAL_CHECK_INTERVAL);
      ok := AccessAgain();
      if !ok {
        machine.Invalidate(timer);
      }
    }

    /** Schedules the thermal timer and stores the session with it, or neither. */
    method StoreWithTimer(session: LidSession) returns (ok: bool)
      requires Base() && Armed() && lid.None?
      requires Carried(session)
      requires Hosts()
      modifies this`lid, this`thermalTimer, this`outstanding
      modifies machine`asked, machine`refusals, machine`timers, machine`nextTimer
      ensures Base() && Armed() && machine.Watched()
      ensures ok ==> lid == Some(session) && outstanding == old(outstanding) - {session.guardian.value}
      ensures !ok ==> lid.None? && outstanding == old(outstanding) && !machine.Granted()
      ensures ok == machine.choice(old(machine.asked)) && machine.asked == old(machine.asked) + 1
    {
      hide Expiries, Terminations, Machine.Valid, Machine.Smooth, Machine.Cool, Exclusive, Tidy;
      var timer;
      timer, ok := ScheduleThermalTimer();
      if ok {
        lid := Some(session);
        thermalTimer := Some(timer);
        outstanding := outstanding - {session.guardian.value};
      }
    }

    /** The last part of `install_lid_session`, with no session stored. */
    method StoreLidSession(session: LidSession) returns (r: Result<(), Message>)
      requires Base() && Armed() && lid.None?
      requires Carried(session)
      requires Hosts()
      modifies this`lid, this`thermalTimer, this`outstanding, session
      modifies machine`asked, machine`refusals, machine`timers, machine`nextTimer, machine`sys, machine`trace
      ensures Base() && Armed() && outstanding == old(outstanding) - {old(session.guardian.value)}
      ensures machine.Watched()
      ensures r.Ok? ==> lid == Some(session)
      ensures r.Err? ==> session.guardian.None? && lid.None? && !machine.Granted()
      ensures r.Ok? <==> machine.choice(old(machine.asked))
      ensures r.Ok? ==> machine.sys == old(machine.sys) && machine.asked == old(machine.asked) + 1
      ensures r.Err? ==> machine.asked == old(machine.asked) + 3
      ensures r.Err? ==> Restores(true, 1) && WithRestore(r.error, StateUnavailable, BothYes(1))
      ensures machine.Disciplined()
      ensures r != Err(NeedsSetup)
    {
      hide Exclusive, Expiries, Terminations, Base, Machine.Smooth;
      var stored := StoreWithTimer(session);
      if stored {
        return Ok(());
      }
      var released := ReleaseLid(Some(session));
      r := if released.Ok? then Err(StateUnavailable) else Err(Message.Rollback(StateUnavailable, released.error));
    }

    // ----- The start/stop toggle -----

    /** `authorize`: looks up the user, prompts for the password, and verifies by clearing the
        setting. */
    method Authorize() returns (r: Result<(), Message>)
      requires Base() && (!machine.lateStart ==> lid.None? && outstanding == {})
      modifies machine`asked, machine`prompts, machine`sys, machine`trace
      ensures Base() && machine.sys.held == old(machine.sys.held)
      ensures old(lid).None? && old(outstanding) == {} ==> machine.Disciplined()
      ensures r.Ok? <==> machine.Yes(old(machine.asked), 3)
      ensures r.Ok? ==> machine.asked == old(machine.asked) + 3
      ensures machine.sys.flag == (old(machine.sys.flag) && r.Err?)
      ensures machine.prompts == old(machine.prompts) + (if machine.choice(old(machine.asked)) then 1 else 0)
    {
      hide Exclusive, Expiries, Terminations, Machine.Valid, Machine.Smooth, Conserved, Sound, Tidy;
      var found := machine.Ask();
      if !found {
        return Err(AuthorizationFailed);
      }
      machine.prompts := machine.prompts + 1;
      var granted := machine.Ask();
      if !granted {
        return Err(AuthorizationFailed);
      }
      var verified := machine.Ask();
      ClearSetting(verified);
      r := if verified then Ok(()) else Err(AuthorizationFailed);
    }

    /** `set_sleep_disabled(false)`. */
    method ClearSetting(ok: bool)
      requires Base() && (!machine.lateStart ==> lid.None? && outstanding == {})
      modifies machine`sys, machine`trace
      ensures Base() && machine.sys.held == old(machine.sys.held)
      ensures machine.sys.flag == (old(machine.sys.flag) && !ok)
      ensures old(lid).None? && old(outstanding) == {} ==> machine.Disciplined()
    {
      hide Expiries, Terminations, Machine.Valid, Machine.Smooth, Tidy, Exclusive, Open, Legal;
      OpenIsHeld();
      Append(machine.sys.calls, Verified);
      machine.Do(Protocol.Verify(ok));
    }

    /** The ledger's open sessions are the held ones. */
    lemma OpenIsHeld()
      requires Base()
      ensures Open(machine.sys.calls) == machine.sys.held
    {
      machine.ProtocolHolds();
    }

    /** `start_lid`, with the session taken into a local variable. */
    method StartLidSession() returns (r: Result<LidSession, LidError>)
      requires Base() && outstanding == {} && (!machine.lateStart ==> lid.None?)
      modifies this`outstanding, machine`asked, machine`sys, machine`trace
      ensures Base()
      ensures r.Err? ==> outstanding == {}
      ensures r.Ok? ==> fresh(r.value) && Carried(r.value)
                        && outstanding == {r.value.guardian.value} && machine.sys.flag
      ensures machine.Smooth() ==> r.Ok?
      ensures r.Ok? <==> machine.Yes(old(machine.asked), 6)
      ensures machine.asked == AfterStart(machine, old(machine.asked))
      ensures old(lid).None? ==> machine.Disciplined()
    {
      hide Expiries, Terminations, Machine.Valid, Machine.Smooth, Tidy, Exclusive, Open, Legal;
      OpenIsHeld();
      ghost var calls := machine.sys.calls;
      Append(calls, Began);
      r := StartLid(machine);
      if r.Ok? {
        Append(calls + [Began], LidCall.Started(r.value.guardian.value));
        outstanding := {r.value.guardian.value};
      } else {
        Append(calls + [Began], Failed);
      }
    }

    /** What an interactive start does when its first guardian has failed. */
    method StartAuthorized() returns (r: Result<LidSession, Message>)
      requires Base() && Armed() && outstanding == {} && (!machine.lateStart ==> lid.None?)
      modifies this`outstanding, machine`asked, machine`prompts, machine`sys, machine`trace
      ensures Base() && Armed()
      ensures r.Err? ==> outstanding == {}
      ensures r.Ok? ==> fresh(r.value) && Carried(r.value)
                        && outstanding == {r.value.guardian.value} && machine.sys.flag
      ensures r.Ok? <==> machine.Yes(old(machine.asked), 9)
      ensures r.Err? ==>
                if machine.Yes(old(machine.asked), 3) then r.error.LidFailed? else r.error == AuthorizationFailed
      ensures r.Ok? ==> machine.asked == old(machine.asked) + 9
      ensures machine.prompts == old(machine.prompts) + (if machine.choice(old(machine.asked)) then 1 else 0)
      ensures old(lid).None? ==> machine.Disciplined()
    {
      hide Exclusive, Expiries, Terminations, Machine.Valid, Machine.Smooth, Conserved, Sound, Tidy;
      var authorized := Authorize();
      if authorized.Err? {
        return Err(AuthorizationFailed);
      }
      var second := StartLidSession();
      match second
      case Ok(session) => r := Ok(session);
      case Err(error) => r := Err(LidFailed(error));
    }

    /** The lid part of `try_start_stop`: only on a cool machine, and with a password prompt only
        for an interactive start. */
    method ObtainLidSession(interactive: bool) returns (r: Result<LidSession, Message>)
      requires Valid() && power.session.None?
      modifies this`outstanding, machine`asked, machine`lastHot, machine`prompts, machine`sys, machine`trace
      ensures Base() && Armed() && machine.Watched()
      ensures r.Err? ==> outstanding == {}
      ensures r.Ok? ==> fresh(r.value) && Carried(r.value)
                        && outstanding == {r.value.guardian.value} && machine.sys.flag && !machine.lastHot
      ensures r == Err(TooHot) <==> machine.lastHot
      ensures machine.lastHot ==> machine.sys == old(machine.sys) && machine.prompts == old(machine.prompts)
      ensures !interactive ==> machine.prompts == old(machine.prompts)
      ensures machine.Smooth() && !machine.lastHot ==> r.Ok?
      ensures machine.lastHot == machine.heat(old(machine.asked))
      ensures r.Ok? <==> Obtains(old(machine.asked), interactive)
      ensures r.Err? ==> NotObtained(old(machine.asked), interactive, r.error)
      ensures r.Ok? ==> machine.asked == Obtained(old(machine.asked))
      ensures machine.prompts == old(machine.prompts) + PromptsFor(old(machine.asked), interactive)
      ensures old(lid).None? ==> machine.Disciplined()
      ensures r == Err(NeedsSetup) ==> !interactive
    {
      hide Exclusive, Expiries, Terminations, Machine.Valid, Machine.Smooth, Conserved, Sound, Tidy;
      InactiveHasNoLid();
      var hot := machine.ThermalTooHot();
      if hot {
        return Err(TooHot);
      }
      var first := StartLidSession();
      if first.Ok? {
        return Ok(first.value);
      }
      if !interactive {
        return Err(NeedsSetup);
      }
      r := StartAuthorized();
    }

    method ObtainIfWanted(wanted: bool, interactive: bool) returns (r: Result<Option<LidSession>, Message>)
      requires Valid() && power.session.None?
      modifies this`outstanding, machine`asked, machine`lastHot, machine`prompts, machine`sys, machine`trace
      ensures Base() && Armed() && machine.Watched()
      ensures r.Err? ==> wanted && outstanding == {}
      ensures r.Ok? ==> (r.value.Some? <==> wanted) && InTransit(r.value)
      ensures r.Ok? && r.value.Some? ==> fresh(r.value.value) && r.value != lid && machine.sys.flag && !machine.lastHot
      ensures !interactive ==> machine.prompts == old(machine.prompts)
      ensures machine.Smooth() && !(wanted && machine.lastHot) ==> r.Ok?
      ensures !wanted ==> r.Ok? && machine.sys == old(machine.sys)
      ensures wanted ==>
                && (r.Ok? <==> Obtains(old(machine.asked), interactive))
                && (r.Err? ==> NotObtained(old(machine.asked), interactive, r.error))
                && (r.Ok? ==> machine.asked == Obtained(old(machine.asked)))
                && machine.prompts == old(machine.prompts) + PromptsFor(old(machine.asked), interactive)
      ensures !wanted ==> machine.prompts == old(machine.prompts)
      ensures old(lid).None? || !wanted ==> machine.Disciplined()
      ensures r == Err(NeedsSetup) ==> !interactive
    {
      hide Exclusive, Expiries, Terminations, Base, Armed, Machine.Smooth;
      r := Ok(None);
      if wanted {
        var obtained := ObtainLidSession(interactive);
        if obtained.Err? {
          return Err(obtained.error);
        }
        SessionIsNotStored(obtained.value);
        r := Ok(Some(obtained.value));
      }
    }

    lemma InactiveHasNoLid()
      requires Base() && power.session.None?
      ensures !machine.lateStart ==> lid.None?
    {
    }

    /** The sleep setting after a successful start: 1 exactly if no earlier lid session was held
        and a lid session was asked for, or the setting was 1 before. */
    twostate predicate FlagAfterStart(lidWanted: bool)
      reads machine`sys
    {
      machine.sys.flag <==> old(lid).None? && (lidWanted || old(machine.sys.flag))
    }

    /** What a successful start leaves: the session that was asked for, active exactly when the
        clock, on scheduling its expiry, had not yet reached its end; and the lid session that was
        asked for, held in either case. */
    predicate Started(lidWanted: bool, duration: Option<Duration>, keepDisplay: bool, clock: Timing)
      reads this`lid, this`errorMessage, power`session
    {
      && (lid.Some? <==> lidWanted)
      && (power.session.Some? <==> !clock.late)
      && (clock.late <==> duration.Some? && clock.Past(duration.value))
      && (!clock.late ==>
            && power.KeepDisplayAwake() == keepDisplay && errorMessage.None?
            && power.EndsAt() == End(clock.began, duration) && EndsAfter(duration, clock))
    }

    /** The second half of `try_start_stop`, for valid inputs of an inactive application. */
    method StartRequested(duration: Option<Duration>, mode: AwakeMode, interactive: bool)
      returns (r: Result<bool, Message>, ghost clock: Timing)
      requires Valid() && power.session.None?
      modifies this`lid, this`thermalTimer, this`expiryTimer, this`countdownTimer, this`errorMessage
      modifies this`outstanding, LidObjects()
      modifies power, machine
      ensures Valid()
      ensures machine.Watched()
      ensures clock == old(Coming(clock.late))
      ensures machine.lateStart == (old(machine.lateStart) || (clock.late && duration.Some? && mode.LidClosed?))
      ensures r.Err? || r == Ok(true)
      ensures machine.Granted() && old(lid).None? && r.Err? ==> Off()
      ensures machine.Granted() && r.Ok? ==> Started(duration.Some? && mode.LidClosed?, duration, mode.Display?, clock)
      ensures lid.Some? && lid != old(lid) ==> fresh(lid.value) && !machine.lastHot
      ensures !interactive ==> machine.prompts == old(machine.prompts)
      ensures machine.Smooth() && Fits(clock.began, duration) && !(duration.Some? && mode.LidClosed? && machine.lastHot)
              ==> r.Ok?
      ensures r.Ok? ==> FlagAfterStart(duration.Some? && mode.LidClosed?)
      ensures machine.Granted() && r.Ok? ==>
                machine.readings == old(machine.readings) + (if duration.Some? then 2 else 1)
      ensures var from := old(machine.asked);
              if duration.Some? && mode.LidClosed? then
                && machine.prompts == old(machine.prompts) + PromptsFor(from, interactive)
                && (!Obtains(from, interactive) ==> r.Err? && NotObtained(from, interactive, r.error))
                && (Obtains(from, interactive) && old(Unhindered(Obtained(from), 7, duration, clock)) ==>
                      StoreDecides(Obtained(from) + 7, r, true))
              else machine.prompts == old(machine.prompts)
      ensures old(lid).None? || !(duration.Some? && mode.LidClosed?) ==> machine.Disciplined()
      ensures r == Err(NeedsSetup) ==> !interactive
    {
      hide Obtains, Obtained, NotObtained, PromptsFor, Unhindered;
      hide Exclusive, Expiries, Terminations, Base, Armed, InTransit, Machine.Smooth, Started, CheckedAdd, Timing.Past;
      hide PowerController.EndsAt, PowerController.KeepDisplayAwake;
      InactiveHasNoLid();
      clock := Coming(false);
      var obtained := ObtainIfWanted(duration.Some? && mode.LidClosed?, interactive);
      match obtained
      case Err(error) =>
        OffWhenInactive();
        r := Err(error);
      case Ok(lidSession) =>
        r, clock := StartAndInstall(lidSession, duration, mode.Display?);
    }

    /** The last part of `try_start_stop`: the power session, and then the lid session that was
        started for it, or on failure the release of that one. */
    method StartAndInstall(lidSession: Option<LidSession>, duration: Option<Duration>, keepDisplay: bool)
      returns (r: Result<bool, Message>, ghost clock: Timing)
      requires Base()
      requires InTransit(lidSession) && (lidSession.Some? ==> duration.Some? && !keepDisplay)
      modifies this`lid, this`thermalTimer, this`expiryTimer, this`countdownTimer, this`errorMessage
      modifies this`outstanding, LidObjects()
      modifies if lidSession.Some? then {lidSession.value} else {}
      modifies power, machine`asked, machine`refusals, machine`lateStart, machine`readings, machine`timers
      modifies machine`nextTimer
      modifies machine`handles, machine`nextHandle, machine`sys, machine`trace
      ensures Valid()
      ensures machine.Watched()
      ensures clock == old(Coming(clock.late))
      ensures machine.lateStart == (old(machine.lateStart) || (clock.late && lidSession.Some?))
      ensures r.Err? || r == Ok(true)
      ensures machine.Granted() && r.Err? ==> Off()
      ensures machine.Granted() && r.Ok? ==> Started(lidSession.Some?, duration, keepDisplay, clock)
      ensures lid.None? || lid == old(lid) || lid == lidSession
      ensures machine.Smooth() && Fits(clock.began, duration) ==> r.Ok?
      ensures r.Ok? ==> machine.sys.flag == (old(machine.sys.flag) && old(lid).None?)
      ensures machine.Granted() && r.Ok? ==>
                machine.readings == old(machine.readings) + (if duration.Some? then 2 else 1)
      ensures lidSession.Some? && old(Unhindered(machine.asked, 7, duration, clock)) ==>
                StoreDecides(old(machine.asked) + 7, r, old(machine.sys.flag))
      ensures machine.Disciplined()
      ensures r != Err(NeedsSetup)
    {
      hide Exclusive, Expiries, Terminations, Base, Machine.Smooth, Machine.Cool, CheckedAdd, Timing.Past;
      if lidSession.Some? {
        SessionIsNotStored(lidSession.value);
      }
      var started;
      started, clock := StartSession(duration, keepDisplay);
      r := Conclude(started, lidSession);
    }

    /** What `try_start_stop` does with the outcome of `start_session`. */
    method Conclude(started: Result<(), Message>, lidSession: Option<LidSession>) returns (r: Result<bool, Message>)
      requires Base() && Armed()
      requires InTransit(lidSession)
      requires started.Ok? ==>
                 && lid.None?
                 && (lidSession.Some? ==> Hosts())
      modifies this`lid, this`thermalTimer, this`expiryTimer, this`countdownTimer, this`errorMessage, this`outstanding
      modifies if lidSession.Some? then {lidSession.value} else {}
      modifies power, machine`asked, machine`refusals, machine`timers, machine`nextTimer, machine`handles
      modifies machine`sys, machine`trace
      ensures Valid() && machine.Watched()
      ensures r.Err? || r == Ok(true)
      ensures started.Err? ==> r.Err? && lid == old(lid) && (old(Off()) ==> Off())
      ensures started.Ok? && r.Ok? ==> lid == lidSession && power.session == old(power.session)
      ensures started.Ok? && r.Err? ==> !machine.Granted() && lid.None?
      ensures started.Ok? && r.Ok? ==> machine.sys == old(machine.sys)
      ensures started.Ok? && lidSession.Some? && old(power.session).Some? ==>
                StoreDecides(old(machine.asked), r, old(machine.sys.flag))
      ensures started.Ok? && lidSession.None? ==> r.Ok?
      ensures machine.Smooth() && started.Ok? ==> r.Ok?
      ensures machine.Disciplined()
      ensures started.Ok? && r.Ok? ==> errorMessage == old(errorMessage)
      ensures started != Err(NeedsSetup) ==> r != Err(NeedsSetup)
    {
      hide Exclusive, Expiries, Terminations, Machine.Valid, Machine.Smooth, Conserved, Sound, Tidy;
      if started.Err? {
        var error := AbandonStart(started.error, lidSession);
        return Err(error);
      }
      r := Ok(true);
      if lidSession.Some? {
        var installed := InstallOrReport(lidSession.value);
        if installed.Err? {
          r := Err(installed.error);
        }
      }
    }

    method InstallOrReport(session: LidSession) returns (r: Result<(), Message>)
      requires Base() && Armed() && lid.None?
      requires Carried(session) && outstanding == {session.guardian.value}
      requires Hosts()
      modifies this`lid, this`thermalTimer, this`expiryTimer, this`countdownTimer, this`errorMessage
      modifies this`outstanding, session
      modifies power, machine`asked, machine`refusals, machine`timers, machine`nextTimer, machine`handles
      modifies machine`sys, machine`trace
      ensures Valid() && machine.Watched()
      ensures r.Ok? ==> lid == Some(session) && power.session == old(power.session)
      ensures r.Err? ==> lid.None? && !machine.Granted()
      ensures r.Ok? <==> machine.choice(old(machine.asked)) && machine.choice(old(machine.asked) + 1)
      ensures if !machine.choice(old(machine.asked)) && machine.choice(old(machine.asked) + 3) then Off()
              else power.session == old(power.session)
      ensures r.Err? ==> Restores(true, if machine.choice(old(machine.asked)) then 2 else 1)
      ensures r.Ok? ==> machine.sys == old(machine.sys) && machine.asked == old(machine.asked) + 2
      ensures r.Err? ==> NotInstalled(old(machine.asked), r.error)
      ensures r.Err? && machine.choice(AfterNotInstalled(old(machine.asked))) ==> errorMessage == Some(r.error)
      ensures machine.Smooth() ==> r.Ok?
      ensures machine.Disciplined()
      ensures r.Ok? ==> errorMessage == old(errorMessage)
      ensures r != Err(NeedsSetup)
    {
      hide Exclusive, Expiries, Terminations, Machine.Valid, Machine.Smooth, Conserved, Sound, Tidy;
      r := InstallLidSession(session);
      if r.Err? {
        ShowError(r.error);
      }
    }

    /** Releases the lid session of a start whose power session failed. */
    method AbandonStart(error: Message, lidSession: Option<LidSession>) returns (shown: Message)
      requires Base() && Armed()
      requires InTransit(lidSession)
      modifies this`countdownTimer, this`errorMessage, this`outstanding
      modifies if lidSession.Some? then {lidSession.value} else {}
      modifies machine`asked, machine`refusals, machine`timers, machine`nextTimer, machine`sys, machine`trace
      ensures Valid() && machine.Watched()
      ensures Restores(lidSession.Some?, 0)
      ensures if lidSession.None? || BothYes(0) then shown == error && errorMessage == old(errorMessage)
              else shown.Both? && shown.first == error && shown.second.Restore?
                   && (machine.choice(old(machine.asked) + 2) ==> errorMessage == Some(shown.second))
      ensures machine.Disciplined()
      ensures error != NeedsSetup ==> shown != NeedsSetup
    {
      hide Exclusive, Expiries, Terminations, Machine.Valid, Machine.Smooth, Conserved, Sound, Tidy;
      var released := ReleaseLid(lidSession);
      if released.Err? {
        ShowError(released.error);
        return Message.Both(error, released.error);
      }
      shown := error;
    }

    lemma OffWhenInactive()
      requires Base() && power.session.None?
      ensures lid.None? ==> Off()
    {
    }

    /** A lid session is asked for. */
    predicate WantsLid()
      reads this`controls
    {
      Requested(controls).Some? && Requested(controls).value.0.Some? && Requested(controls).value.1.LidClosed?
    }

    /** A toggle would start a lid-closed session beside one that is held with no power session. Only
        this makes two guardians overlap. */
    ghost predicate Overlaps()
      reads this`lid, this`controls, power`session
    {
      lid.Some? && power.session.None? && WantsLid()
    }

    /** What `Ok(true)` and `Ok(false)` say about what was on before and about the sleep setting,
        whatever else is refused. */
    twostate predicate FlagOutcome(new r: Result<bool, Message>)
      reads this`controls, machine`sys
    {
      && (r.Ok? ==> (r.value <==> old(power.session).None?))
      && (r == Ok(true) ==> FlagAfterStart(WantsLid()))
      && (r == Ok(false) && old(lid).Some? ==> !machine.sys.flag && !machine.sys.tainted)
    }

    /** The outcome of a toggle agrees with the state, as long as no access is refused during it.
        `Ok(true)` answers an inactive application with valid inputs and `Ok(false)` an active
        one, and leaves what the controls ask for. `Ok(false)` and every error leave everything
        off, except that an error may leave a lid session that was held with no power session. */
    twostate predicate ToggleOutcome(new r: Result<bool, Message>, new clock: Timing)
      reads this`lid, this`thermalTimer, this`expiryTimer, this`controls, this`errorMessage
      reads machine`refusals, machine`readings, power`session
    {
      machine.Granted() ==>
        && ((old(power.session).Some? || old(lid).None?) && (r.Err? || !r.value) ==> Off())
        && (old(power.session).None? && Requested(controls).None? ==> r == Err(InvalidDuration))
        && (r == Ok(true) ==>
              && Requested(controls).Some?
              && var (duration, mode) := Requested(controls).value;
                 && Started(duration.Some? && mode.LidClosed?, duration, mode.Display?, clock)
                 && machine.readings == old(machine.readings) + (if duration.Some? then 2 else 1))
    }

    /** What an inactive application that is asked for a lid session makes of it: the prompts, the error
        if none is obtained, and from then on, if nothing hinders the seven answers of the power
        session, what `StoreDecides` says. */
    twostate predicate LidStart(from: nat, interactive: bool, new r: Result<bool, Message>, new clock: Timing)
      reads this`lid, this`controls, machine`asked, machine`sys, machine`prompts, power`session
    {
      old(power.session).None? && old(WantsLid()) ==>
        && machine.prompts == old(machine.prompts) + PromptsFor(from, interactive)
        && (!Obtains(from, interactive) ==> r.Err? && NotObtained(from, interactive, r.error))
        && (Obtains(from, interactive) && old(Unhindered(Obtained(from), 7, Requested(controls).value.0, clock)) ==>
              StoreDecides(Obtained(from) + 7, r, true))
    }

    /** The active session ends exactly the asked length after the reading it began from. */
    predicate EndsAfter(duration: Option<Duration>, clock: Timing)
      reads power`session
    {
      && (duration.Some? <==> power.EndsAt().Some?)
      && (duration.Some? ==>
            power.EndsAt().value - clock.began == duration.value.secs * 1_000_000_000 + duration.value.nanos)
    }

    /** Nothing stands in the way of what the controls ask for: the duration is valid and does not
        overflow the clock, and the machine is cool enough if the lid may be closed. */
    ghost predicate Startable(clock: Timing)
      reads this`controls
      reads machine`lastHot
    {
      && Requested(controls).Some?
      && var (duration, mode) := Requested(controls).value;
         && Fits(clock.began, duration)
         && !(duration.Some? && mode.LidClosed? && machine.lastHot)
    }

    /** `handle_start_stop`. */
    method HandleStartStop(interactive: bool) returns (r: Result<bool, Message>, ghost clock: Timing)
      requires Valid()
      modifies this`lid, this`thermalTimer, this`expiryTimer, this`countdownTimer, this`errorMessage
      modifies this`outstanding, LidObjects()
      modifies power, machine
      ensures Valid()
      ensures machine.Watched()
      ensures clock == old(Coming(clock.late))
      ensures machine.lateStart == (old(machine.lateStart) || (clock.late && WantsLid()))
      ensures ToggleOutcome(r, clock)
      ensures lid.Some? && lid != old(lid) ==> fresh(lid.value) && !machine.lastHot
      ensures !interactive ==> machine.prompts == old(machine.prompts)
      ensures machine.Granted() && r.Err? ==> errorMessage == Some(r.error)
      ensures machine.Smooth() && old(power.session).Some? ==> r == Ok(false)
      ensures machine.Smooth() && old(power.session).None? && Startable(clock) ==> r == Ok(true)
      ensures FlagOutcome(r)
      ensures machine.choice(old(machine.asked)) ==> LidStart(old(machine.asked) + 1, interactive, r, clock)
      ensures r == Err(NeedsSetup) ==> !interactive
      ensures lid.Some? && lid == old(lid) && old(power.session).Some? ==> Untouched()
      ensures old(power.session).Some? ==>
                Restores(old(lid).Some? && BothYes(0), 2)
      ensures !old(Overlaps()) ==> machine.Disciplined()
    {
      hide Obtains, Obtained, NotObtained, PromptsFor, Unhindered;
      hide Exclusive, Expiries, Terminations, Stray, Base, OnlyAddsTimers, Machine.Smooth;
      hide Requested, WantsLid, Restores;
      hide Started, Startable;
      r, clock := TryStartStop(interactive);
      if r.Err? {
        ShowError(r.error);
      }
    }

    method ToggleOff() returns (r: Result<bool, Message>)
      requires Valid()
      modifies this`lid, this`thermalTimer, this`expiryTimer, this`countdownTimer, this`errorMessage
      modifies this`outstanding, LidObjects()
      modifies power, machine`asked, machine`refusals, machine`timers, machine`nextTimer, machine`handles
      modifies machine`sys, machine`trace
      ensures Valid() && machine.Watched()
      ensures r.Err? || r == Ok(false)
      ensures machine.Granted() ==> Off() && (r.Err? ==> errorMessage == Some(r.error))
      ensures lid.None? || lid == old(lid)
      ensures r.Ok? && old(lid).Some? ==> !machine.sys.flag && !machine.sys.tainted
      ensures machine.Smooth() ==> r.Ok?
      ensures lid.Some? ==> Untouched()
      ensures Restores(old(lid).Some? && machine.choice(old(machine.asked)), 1)
      ensures r.Ok? <==> machine.choice(old(machine.asked)) && (old(lid).Some? ==> BothYes(1))
      ensures machine.Disciplined()
      ensures r != Err(NeedsSetup)
    {
      hide Exclusive, Expiries, Terminations, Machine.Valid, Machine.Smooth, Conserved, Sound, Tidy;
      var stopped := StopSession();
      if stopped.Err? {
        ShowError(stopped.error);
        return Err(stopped.error);
      }
      r := Ok(false);
    }

    /** `try_start_stop`. */
    method TryStartStop(interactive: bool) returns (r: Result<bool, Message>, ghost clock: Timing)
      requires Valid()
      modifies this`lid, this`thermalTimer, this`expiryTimer, this`countdownTimer, this`errorMessage
      modifies this`outstanding, LidObjects()
      modifies power, machine
      ensures Valid()
      ensures machine.Watched()
      ensures clock == old(Coming(clock.late))
      ensures machine.lateStart == (old(machine.lateStart) || (clock.late && WantsLid()))
      ensures ToggleOutcome(r, clock)
      ensures lid.Some? && lid != old(lid) ==> fresh(lid.value) && !machine.lastHot
      ensures !interactive ==> machine.prompts == old(machine.prompts)
      ensures machine.Smooth() && old(power.session).Some? ==> r == Ok(false)
      ensures machine.Smooth() && old(power.session).None? && Startable(clock) ==> r == Ok(true)
      ensures FlagOutcome(r)
      ensures machine.choice(old(machine.asked)) ==> LidStart(old(machine.asked) + 1, interactive, r, clock)
      ensures r == Err(NeedsSetup) ==> !interactive
      ensures lid.Some? && lid == old(lid) && old(power.session).Some? ==> Untouched()
      ensures old(power.session).Some? ==>
                Restores(old(lid).Some? && BothYes(0), 2)
      ensures !old(Overlaps()) ==> machine.Disciplined()
    {
      hide Obtains, Obtained, NotObtained, PromptsFor, Unhindered;
      hide Exclusive, Expiries, Terminations, Stray, Base, Machine.Smooth, Requested, Started, Startable, WantsLid;
      if power.session.None? {
        OffWhenInactive();
      }
      clock := Coming(false);
      var ok := Access();
      if !ok {
        r := Err(StateUnavailable);
      } else if power.IsActive() {
        r := ToggleOff();
      } else {
        r, clock := StartFromControls(interactive);
      }
    }

    /** The start of an inactive application, from what the user has set. */
    method StartFromControls(interactive: bool) returns (r: Result<bool, Message>, ghost clock: Timing)
      requires Valid() && power.session.None?
      modifies this`lid, this`thermalTimer, this`expiryTimer, this`countdownTimer, this`errorMessage
      modifies this`outstanding, LidObjects()
      modifies power, machine
      ensures Valid()
      ensures machine.Watched()
      ensures clock == old(Coming(clock.late))
      ensures machine.lateStart == (old(machine.lateStart) || (clock.late && WantsLid()))
      ensures ToggleOutcome(r, clock)
      ensures lid.Some? && lid != old(lid) ==> fresh(lid.value) && !machine.lastHot
      ensures !interactive ==> machine.prompts == old(machine.prompts)
      ensures machine.Smooth() && Startable(clock) ==> r == Ok(true)
      ensures FlagOutcome(r)
      ensures LidStart(old(machine.asked), interactive, r, clock)
      ensures r == Err(NeedsSetup) ==> !interactive
      ensures old(lid).None? || !WantsLid() ==> machine.Disciplined()
    {
      hide Obtains, Obtained, NotObtained, PromptsFor, Unhindered;
      hide Exclusive, Expiries, Terminations, Base, Armed, Machine.Smooth, Requested, Started, CheckedAdd, Timing.Past;
      OffWhenInactive();
      clock := Coming(false);
      var requested := Requested(controls);
      if requested.None? {
        return Err(InvalidDuration), clock;
      }
      r, clock := StartRequested(requested.value.0, requested.value.1, interactive);
    }

    // ----- The thermal guard -----

    /** What a thermal check does that has seen no lid session. */
    method ReleaseOrShow()
      requires Valid()
      modifies this`lid, this`thermalTimer, this`countdownTimer, this`errorMessage, this`outstanding, LidObjects()
      modifies machine`asked, machine`refusals, machine`timers, machine`nextTimer, machine`sys, machine`trace
      ensures Valid() && machine.Watched() && machine.Disciplined() && SameOneShots() && KeepsStray()
      ensures lid == if machine.choice(old(machine.asked)) then None else old(lid)
      ensures if old(lid).Some? && machine.choice(old(machine.asked))
              then machine.sys.calls == old(machine.sys.calls) + [Stopped(old(lid.value.guardian.value))]
              else machine.sys == old(machine.sys)
      ensures old(lid).Some? && machine.choice(old(machine.asked)) && !BothYes(1)
              && machine.choice(old(machine.asked) + 3) ==>
                errorMessage.Some? && errorMessage.value.Restore?
      ensures Restores(old(lid).Some? && machine.choice(old(machine.asked)), 1)
    {
      hide Exclusive, Expiries, Terminations, Stray, Base, OnlyAddsTimers, Machine.Smooth;
      var result := TakeAndRelease();
      if result.Err? {
        ShowError(result.error);
      }
    }

    /** A thermal check of a held lid session stops it: on a hot machine if the state can be
        accessed twice, and on any machine if it cannot be accessed at first and then can. */
    ghost predicate ThermalDrops(asked: nat) {
      if machine.choice(asked) then machine.heat(asked + 1) && machine.choice(asked + 2)
      else machine.choice(asked + 1)
    }

    /** `check_thermal_state`. The power session is never touched. The lid session is stopped, once,
        exactly if `ThermalDrops`, and the mode then goes back to system-only exactly if the
        machine was found hot; otherwise nothing changes. */
    method CheckThermalState()
      requires Valid()
      modifies this`lid, this`thermalTimer, this`countdownTimer, this`errorMessage, this`controls
      modifies this`outstanding, LidObjects()
      modifies machine`asked, machine`refusals, machine`lastHot, machine`timers, machine`nextTimer, machine`sys
      modifies machine`trace
      ensures Valid() && machine.Watched()
      ensures lid == if ThermalDrops(old(machine.asked)) then None else old(lid)
      ensures if old(lid).Some? && ThermalDrops(old(machine.asked))
              then machine.sys.calls == old(machine.sys.calls) + [Stopped(old(lid.value.guardian.value))]
              else machine.sys == old(machine.sys)
      ensures controls == if old(lid).Some? && machine.choice(old(machine.asked)) && ThermalDrops(old(machine.asked))
                          then old(controls).(mode := SystemOnly) else old(controls)
      ensures machine.Granted() && old(lid).Some? ==> machine.lastHot == machine.heat(old(machine.asked) + 1)
      ensures machine.Granted() && old(lid).Some? && machine.lastHot ==>
                && errorMessage.Some? && (errorMessage.value == ThermalCutoff || errorMessage.value.ThermalCutoffAnd?)
                && (errorMessage.value == ThermalCutoff ==> !machine.sys.flag && !machine.sys.tainted)
      ensures old(lid).Some? && !machine.choice(old(machine.asked)) && machine.choice(old(machine.asked) + 1)
              && !BothYes(2) && machine.choice(old(machine.asked) + 4) ==>
                errorMessage.Some? && errorMessage.value.Restore?
      ensures Restores(old(lid).Some? && ThermalDrops(old(machine.asked)),
                       if machine.choice(old(machine.asked)) then 3 else 2)
      ensures machine.Disciplined()
      ensures SameOneShots() && KeepsStray()
    {
      hide Exclusive, Expiries, Terminations, Stray, Held, Tidy, OnlyAddsTimers, Machine.Smooth;
      var ok := Access();
      var hasLid := ok && lid.Some?;
      if !hasLid {
        ReleaseOrShow();
      } else {
        var hot := machine.ThermalTooHot();
        if hot {
          CutOff();
        }
      }
    }

    /** Takes the lid session of a machine that is too hot, with the mode and the notice set. */
    method TakeHotSession() returns (taken: Option<LidSession>)
      requires Base() && Armed()
      modifies this`lid, this`thermalTimer, this`errorMessage, this`controls, this`outstanding, machine`timers
      ensures Base() && Armed() && lid.None? && taken == old(lid)
      ensures taken.Some? ==> Carried(taken.value) && taken.value.guardian.value !in old(outstanding)
      ensures outstanding == old(outstanding) + (if taken.Some? then {taken.value.guardian.value} else {})
      ensures controls == old(controls).(mode := SystemOnly) && errorMessage == Some(ThermalCutoff)
      ensures SameOneShots() && KeepsStray()
    {
      hide Exclusive, Expiries, Terminations, Machine.Valid, Conserved, Sound, Tidy;
      taken := TakeLidSession();
      controls := controls.(mode := SystemOnly);
      errorMessage := Some(ThermalCutoff);
    }

    method ReleaseHot() returns (r: Result<(), Message>)
      requires Valid()
      modifies this`lid, this`thermalTimer, this`errorMessage, this`controls, this`outstanding, LidObjects()
      modifies machine`asked, machine`refusals, machine`timers, machine`sys, machine`trace
      ensures Valid() && machine.Watched() && machine.Disciplined() && SameOneShots() && KeepsStray()
      ensures if machine.choice(old(machine.asked)) then
                && lid.None? && controls == old(controls).(mode := SystemOnly) && errorMessage == Some(ThermalCutoff)
                && machine.sys.calls == old(machine.sys.calls)
                   + (if old(lid).Some? then [Stopped(old(lid.value.guardian.value))] else [])
              else
                r.Err? && lid == old(lid) && controls == old(controls) && machine.sys == old(machine.sys)
      ensures Restores(old(lid).Some? && machine.choice(old(machine.asked)), 1)
      ensures r.Ok? && old(lid).Some? ==> !machine.sys.flag && !machine.sys.tainted
    {
      hide Exclusive, Expiries, Terminations, Base, Machine.Smooth;
      r := Err(StateUnavailable);
      var ok := Access();
      if ok {
        var taken := TakeHotSession();
        r := ReleaseLid(taken);
      }
    }

    /** What a thermal check does on a hot machine. */
    method CutOff()
      requires Valid()
      modifies this`lid, this`thermalTimer, this`countdownTimer, this`errorMessage, this`controls
      modifies this`outstanding, LidObjects()
      modifies machine`asked, machine`refusals, machine`timers, machine`nextTimer, machine`sys, machine`trace
      ensures Valid() && machine.Watched()
      ensures machine.Granted() ==>
                && errorMessage.Some? && (errorMessage.value == ThermalCutoff || errorMessage.value.ThermalCutoffAnd?)
                && (errorMessage.value == ThermalCutoff && old(lid).Some? ==> !machine.sys.flag && !machine.sys.tainted)
      ensures if machine.choice(old(machine.asked)) then
                && lid.None? && controls == old(controls).(mode := SystemOnly)
                && machine.sys.calls == old(machine.sys.calls)
                   + (if old(lid).Some? then [Stopped(old(lid.value.guardian.value))] else [])
              else
                lid == old(lid) && controls == old(controls) && machine.sys == old(machine.sys)
      ensures machine.Granted() && popoverShown && power.EndsAt().Some? ==> countdownTimer.Some?
      ensures Restores(old(lid).Some? && machine.choice(old(machine.asked)), 1)
      ensures machine.Disciplined()
      ensures SameOneShots() && KeepsStray()
    {
      hide Restores;
      hide Exclusive, Expiries, Terminations, Stray, Base, OnlyAddsTimers, Machine.Smooth;
      var r := ReleaseHot();
      if r.Err? {
        ShowError(ThermalCutoffAnd(r.error));
      }
      UpdateUi();
    }

    // ----- Commands and termination -----

    /** `execute_ipc_command`; `clock` has the readings a status or a start is computed from. */
    method ExecuteIpcCommand(command: Ipc.IpcCommand) returns (response: Ipc.IpcResponse, ghost clock: Timing)
      requires Valid()
      modifies this`lid, this`thermalTimer, this`expiryTimer, this`countdownTimer, this`errorMessage
      modifies this`controls, this`outstanding, LidObjects()
      modifies power, machine
      ensures Valid()
      ensures machine.Watched()
      ensures clock == old(Coming(clock.late))
      ensures machine.lateStart == (old(machine.lateStart) || (command.Toggle? && clock.late && WantsLid()))
      ensures lid.Some? && lid != old(lid) ==> fresh(lid.value)
      ensures !command.Toggle? && !command.Start? ==>
                (lid == old(lid) || lid.None?) && (power.session == old(power.session) || power.session.None?)
      ensures machine.prompts == old(machine.prompts)
      ensures machine.Granted() ==> CommandOutcome(command, response, clock)
      ensures lid.Some? && lid == old(lid) && old(power.session).Some? ==> Untouched()
      ensures SettingAfter(command, response)
      ensures machine.Smooth() && command.Start? && Fits(clock.began, command.duration) ==> response.Ok?
      ensures !(command.Toggle? && old(Overlaps())) ==> machine.Disciplined()
      ensures command.Status? ==>
                && Untouched() && machine.timers == old(machine.timers) && old(machine.readings) <= machine.readings
                && (machine.Granted() ==>
                      machine.readings == old(machine.readings) + (if power.EndsAt().Some? then 1 else 0))
    {
      hide Stray;
      hide Armed;
      hide Exclusive, Expiries, Terminations, Base, Machine.Smooth, Startable, Requested, CheckedAdd, Timing.Past;
      hide FormatCompactDuration;
      clock := Coming(false);
      match command
      case Status =>
        response, clock := ReportStatus();
      case Stop =>
        response := StopOrReport(STOPPED);
      case Toggle =>
        response, clock := ToggleByCommand();
      case Start(duration, keepDisplayAwake) =>
        response, clock := StartByCommand(duration, keepDisplayAwake);
      case Quit =>
        response := QuitByCommand();
    }

    method ToggleByCommand() returns (response: Ipc.IpcResponse, ghost clock: Timing)
      requires Valid()
      modifies this`lid, this`thermalTimer, this`expiryTimer, this`countdownTimer, this`errorMessage
      modifies this`outstanding, LidObjects()
      modifies power, machine
      ensures Valid() && machine.Watched()
      ensures clock == old(Coming(clock.late))
      ensures machine.lateStart == (old(machine.lateStart) || (clock.late && WantsLid()))
      ensures lid.Some? && lid != old(lid) ==> fresh(lid.value)
      ensures machine.prompts == old(machine.prompts)
      ensures machine.Granted() ==> CommandOutcome(Ipc.IpcCommand.Toggle, response, clock)
      ensures lid.Some? && lid == old(lid) && old(power.session).Some? ==> Untouched()
      ensures SettingAfter(Ipc.IpcCommand.Toggle, response)
      ensures !old(Overlaps()) ==> machine.Disciplined()
    {
      hide Exclusive, Expiries, Terminations, Base, Machine.Smooth, Startable, Requested, CheckedAdd, Timing.Past;
      hide FormatCompactDuration, Stray, LidStart;
      var result;
      result, clock := HandleStartStop(false);
      response := match result
        case Ok(started) => Ipc.IpcResponse.Ok(if started then STARTED else STOPPED)
        case Err(error) => Ipc.IpcResponse.Err(error.Text());
    }

    method QuitByCommand() returns (response: Ipc.IpcResponse)
      requires Valid()
      modifies this`lid, this`thermalTimer, this`expiryTimer, this`countdownTimer, this`errorMessage
      modifies this`outstanding, LidObjects()
      modifies power, machine`asked, machine`refusals, machine`timers, machine`nextTimer, machine`handles
      modifies machine`sys, machine`trace
      ensures Valid() && machine.Watched()
      ensures lid == old(lid) || lid.None?
      ensures power.session == old(power.session) || power.session.None?
      ensures forall clock :: machine.Granted() ==> CommandOutcome(Ipc.IpcCommand.Quit, response, clock)
      ensures lid.Some? ==> Untouched()
      ensures SettingAfter(Ipc.IpcCommand.Quit, response)
      ensures machine.Disciplined()
    {
      hide Exclusive, Expiries, Terminations, Base, Machine.Smooth, Stray;
      response := StopOrReport("Terminating");
      if response.Ok? {
        ScheduleTermination();
      }
    }

    /** The error that is answered is the one shown in the popover. */
    predicate Shows(response: Ipc.IpcResponse)
      reads this`errorMessage
    {
      response.Err? && errorMessage.Some? && response.message == errorMessage.value.Text()
    }

    /** What a command does to the sleep setting, and when it answers `Ok` to a stop, whatever else is
        refused or fails. A start or a toggle that starts is left to `CommandOutcome`. */
    twostate predicate SettingAfter(command: Ipc.IpcCommand, new response: Ipc.IpcResponse)
      reads this`lid, this`thermalTimer, this`expiryTimer, machine`sys, power`session
    {
      var asked, had := old(machine.asked), old(lid).Some?;
      match command
      case Status => machine.sys == old(machine.sys)
      case Start(_, _) => Restores(had && machine.choice(asked + 1), 2)
      case Toggle =>
        old(power.session).Some? ==> Restores(had && machine.choice(asked) && machine.choice(asked + 1), 2)
      case _ =>
        && !response.Status? && (machine.choice(asked) ==> Off())
        && Restores(had && machine.choice(asked), 1)
        && (response.Ok? <==> machine.choice(asked) && (had ==> BothYes(1)))
    }

    /** What a command's answer says about the state it leaves. */
    twostate predicate CommandOutcome(command: Ipc.IpcCommand, new response: Ipc.IpcResponse, new clock: Timing)
      reads this`lid, this`thermalTimer, this`expiryTimer, this`controls, this`errorMessage
      reads machine`sys, machine`timers, power`session
    {
      match command
      case Status =>
        && power.session == old(power.session) && lid == old(lid)
        && response.Status? && (response.status.Some? <==> power.session.Some?)
        && (power.session.Some? ==>
              var status := response.status.value;
              && status.keepDisplayAwake == power.KeepDisplayAwake()
              && (status.remainingCompact.Some? <==> power.EndsAt().Some?)
              && (power.EndsAt().Some? ==>
                    ShowsLeft(status.remainingCompact.value, power.EndsAt().value - clock.began)))
      case Stop =>
        && Off() && !response.Status? && Restored(response) && NoNewTerminations()
        && (response.Ok? ==> response.message == STOPPED) && (response.Err? ==> Shows(response))
      case Toggle =>
        && (response.Ok? ==> response.message == if old(power.session).Some? then STOPPED else STARTED)
        && (response.Err? ==> Shows(response))
        && (response.Ok? && old(power.session).None? ==>
              && Requested(controls).Some?
              && var (duration, mode) := Requested(controls).value;
                 Started(duration.Some? && mode.LidClosed?, duration, mode.Display?, clock))
        && ((old(power.session).Some? || (response.Err? && old(lid).None?)) ==> Off())
        && (old(power.session).Some? ==> Restored(response))
      case Start(duration, keepDisplayAwake) =>
        && controls == old(controls).(mode := if keepDisplayAwake then Display else SystemOnly)
        && StartOutcome(duration, keepDisplayAwake, response, clock, 2)
      case Quit =>
        && Off() && Restored(response)
        && (response.Ok? ==> response.message == "Terminating")
        && (response.Err? ==> Shows(response) && NoNewTerminations())
        && (response.Ok? ==>
              exists id :: id in machine.timers && machine.timers[id] == Timer(Terminate, TERMINATION_DELAY))
    }

    /** For a start by command. */
    twostate predicate StartOutcome(
      duration: Option<Duration>, keepDisplayAwake: bool, new response: Ipc.IpcResponse, new clock: Timing,
      calls: nat)
      reads this`lid, this`thermalTimer, this`expiryTimer, this`errorMessage, power`session
    {
      && lid.None?
      && (response.Ok? ==> response.message == StartedText(duration))
      && (response.Ok? && !clock.late ==>
            && power.session.Some? && power.KeepDisplayAwake() == keepDisplayAwake && errorMessage.None?
            && power.EndsAt() == End(clock.began, duration) && EndsAfter(duration, clock))
      && (response.Ok? ==> (clock.late <==> duration.Some? && clock.Past(duration.value)))
      && (response.Err? || clock.late ==> Off())
      && (response.Err? ==> if old(lid).None? || BothYes(calls) then errorMessage.None? else Shows(response))
    }

    /** An `Ok` answer to a stop means that normal sleep is back. */
    twostate predicate Restored(new response: Ipc.IpcResponse)
      reads machine`sys
    {
      response.Ok? && old(lid).Some? ==> !machine.sys.flag && !machine.sys.tainted
    }

    method ReportStatus() returns (response: Ipc.IpcResponse, ghost clock: Timing)
      requires Valid()
      modifies machine`asked, machine`refusals, machine`readings
      ensures Valid() && machine.Watched() && clock == old(Coming(false))
      ensures machine.Granted() ==> CommandOutcome(Ipc.IpcCommand.Status, response, clock)
      ensures old(machine.readings) <= machine.readings
      ensures !machine.choice(old(machine.asked)) ==> response == Ipc.IpcResponse.Err(StateUnavailable.Text())
      ensures machine.Granted() ==>
                machine.readings == old(machine.readings) + (if power.EndsAt().Some? then 1 else 0)
    {
      hide ShowsLeft, FormatCompactDuration, RemainingAt;
      hide Exclusive, Expiries, Terminations, Machine.Valid, Machine.Smooth, Conserved, Sound, Tidy;
      clock := Coming(false);
      var ok := Access();
      if !ok {
        return Ipc.IpcResponse.Err(StateUnavailable.Text()), clock;
      }
      if !power.IsActive() {
        return Ipc.IpcResponse.Status(None), clock;
      }
      var remaining: Option<string> := None;
      if power.EndsAt().Some? {
        var now := machine.Now();
        var left := RemainingAt(power.EndsAt().value, now);
        CountdownShows(left, power.EndsAt().value - now);
        remaining := Some(FormatCompactDuration(left));
      }
      response := Ipc.IpcResponse.Status(Some(Ipc.SessionStatus(power.KeepDisplayAwake(), remaining)));
    }

    /** `report_session_error`. */
    method ReportError(error: Message)
      requires Valid()
      modifies this`countdownTimer, this`errorMessage, machine`asked, machine`refusals, machine`timers
      modifies machine`nextTimer
      ensures Valid() && machine.Watched() && SameOneShots() && (old(Off()) ==> Off())
      ensures errorMessage == if machine.choice(old(machine.asked)) then Some(error) else old(errorMessage)
      ensures machine.Granted() ==> errorMessage == Some(error)
    {
      hide Exclusive, Expiries, Terminations, Stray, Base, OnlyAddsTimers, Machine.Smooth;
      ShowError(error);
    }

    /** `stop_session` answered with a message, or reported. */
    method StopOrReport(message: string) returns (response: Ipc.IpcResponse)
      requires Valid()
      modifies this`lid, this`thermalTimer, this`expiryTimer, this`countdownTimer, this`errorMessage
      modifies this`outstanding, LidObjects()
      modifies power, machine`asked, machine`refusals, machine`timers, machine`nextTimer, machine`handles
      modifies machine`sys, machine`trace
      ensures Valid() && machine.Watched()
      ensures lid == old(lid) || lid.None?
      ensures power.session == old(power.session) || power.session.None?
      ensures response.Ok? || response.Err?
      ensures response.Ok? ==> Off() && response.message == message
      ensures machine.Granted() ==> Off()
      ensures response.Ok? && old(lid).Some? ==> !machine.sys.flag && !machine.sys.tainted
      ensures machine.Smooth() ==> response.Ok?
      ensures lid.Some? ==> Untouched()
      ensures Restores(old(lid).Some? && machine.choice(old(machine.asked)), 1)
      ensures response.Ok? <==> machine.choice(old(machine.asked)) && (old(lid).Some? ==> BothYes(1))
      ensures machine.Disciplined()
      ensures machine.choice(old(machine.asked)) ==> Off()
      ensures machine.Granted() && response.Err? ==> Shows(response)
      ensures NoNewTerminations()
    {
      hide Exclusive, Expiries, Terminations, Base, OnlyAddsTimers, Machine.Smooth, Stray, Held, Armed, Off;
      hide Refreshing, KeepsStray;
      var stopped := StopSession();
      match stopped
      case Ok(_) =>
        response := Ipc.IpcResponse.Ok(message);
      case Err(error) =>
        ReportError(error);
        response := Ipc.IpcResponse.Err(error.Text());
    }

    /** Selects the mode in the popover, if the state can be accessed. */
    method SetMode(mode: AwakeMode)
      requires Base()
      modifies this`controls, machine`asked, machine`refusals
      ensures Base() && machine.Watched() && machine.asked == old(machine.asked) + 1
      ensures controls == if machine.choice(old(machine.asked)) then old(controls).(mode := mode) else old(controls)
      ensures machine.Granted() ==> machine.choice(old(machine.asked))
      ensures !machine.Granted() ==> Loose()
    {
      hide Exclusive, Expiries, Terminations, Stray, Held, Tidy, Machine.Smooth;
      var ok := Access();
      if ok {
        controls := controls.(mode := mode);
      }
    }

    method StartByCommand(duration: Option<Duration>, keepDisplayAwake: bool)
      returns (response: Ipc.IpcResponse, ghost clock: Timing)
      requires Valid()
      modifies this`lid, this`thermalTimer, this`expiryTimer, this`countdownTimer, this`errorMessage
      modifies this`controls, this`outstanding, LidObjects()
      modifies power, machine`asked, machine`refusals, machine`lateStart, machine`readings, machine`timers
      modifies machine`nextTimer
      modifies machine`handles, machine`nextHandle, machine`sys, machine`trace
      ensures Valid()
      ensures machine.Watched()
      ensures clock == old(Coming(clock.late))
      ensures machine.lateStart == (old(machine.lateStart))
      ensures lid == old(lid) || lid.None?
      ensures machine.Granted() ==> controls == old(controls).(mode := if keepDisplayAwake then Display else SystemOnly)
      ensures machine.Granted() ==> StartOutcome(duration, keepDisplayAwake, response, clock, 2)
      ensures machine.Smooth() && Fits(clock.began, duration) ==> response.Ok?
      ensures lid.Some? ==> Untouched()
      ensures Restores(old(lid).Some? && machine.choice(old(machine.asked) + 1), 2)
      ensures machine.Disciplined()
      ensures KeepsStray()
      ensures old(UnstoredExpiry(5, duration, clock)) ==>
                && response.Ok? && power.session.Some? && machine.asked == old(machine.asked) + 8
                && old(machine.nextTimer) in Stray()
      ensures duration.None? && machine.Yes(old(machine.asked), 5) && !popoverShown && old(lid).None? ==>
                response.Ok? && power.session.Some? && power.EndsAt().None? && machine.asked == old(machine.asked) + 6
    {
      hide Exclusive, Expiries, Terminations, Stray, Base, Machine.Smooth;
      hide Timing.Past, CheckedAdd, FormatCompactDuration;
      SetMode(if keepDisplayAwake then Display else SystemOnly);
      response, clock := AnswerStart(duration, keepDisplayAwake);
    }

    method AnswerStart(duration: Option<Duration>, keepDisplayAwake: bool)
      returns (response: Ipc.IpcResponse, ghost clock: Timing)
      requires Base() && outstanding == {}
      modifies this`lid, this`thermalTimer, this`expiryTimer, this`countdownTimer, this`errorMessage
      modifies this`outstanding, LidObjects()
      modifies power, machine`asked, machine`refusals, machine`lateStart, machine`readings, machine`timers
      modifies machine`nextTimer
      modifies machine`handles, machine`nextHandle, machine`sys, machine`trace
      ensures Valid()
      ensures machine.Watched()
      ensures clock == old(Coming(clock.late))
      ensures machine.lateStart == (old(machine.lateStart))
      ensures lid == old(lid) || lid.None?
      ensures machine.Granted() ==> StartOutcome(duration, keepDisplayAwake, response, clock, 1)
      ensures machine.Smooth() && Fits(clock.began, duration) ==> response.Ok?
      ensures lid.Some? ==> Untouched()
      ensures Restores(old(lid).Some? && machine.choice(old(machine.asked)), 1)
      ensures machine.Disciplined()
      ensures KeepsStray()
      ensures old(UnstoredExpiry(4, duration, clock)) ==>
                && response.Ok? && power.session.Some? && machine.asked == old(machine.asked) + 7
                && old(machine.nextTimer) in Stray()
      ensures duration.None? && machine.Yes(old(machine.asked), 4) && !popoverShown && old(lid).None? ==>
                response.Ok? && power.session.Some? && power.EndsAt().None? && machine.asked == old(machine.asked) + 5
    {
      hide Exclusive, Expiries, Terminations, Stray, Base, Machine.Smooth;
      hide Timing.Past, CheckedAdd, FormatCompactDuration, UnstoredExpiry;
      var started;
      started, clock := StartSession(duration, keepDisplayAwake);
      match started
      case Ok(_) =>
        response := Ipc.IpcResponse.Ok(StartedText(duration));
      case Err(error) =>
        response := Ipc.IpcResponse.Err(error.Text());
    }

    method ScheduleTermination()
      requires Valid()
      modifies machine`timers, machine`nextTimer
      ensures Valid()
      ensures exists id :: id in machine.timers && machine.timers[id] == Timer(Terminate, TERMINATION_DELAY)
    {
      hide Exclusive, Expiries, Terminations, Machine.Valid, Machine.Smooth, Conserved, Sound, Tidy;
      NewTimerIsTidy(TERMINATION_DELAY);
      var timer := AddTimer(Terminate, TERMINATION_DELAY);
      assert timer in machine.timers;
    }

    /** `teardown`: ends the server, the timers, the assertion and the lid session. */
    method Teardown()
      requires Valid()
      modifies this`lid, this`thermalTimer, this`expiryTimer, this`countdownTimer, this`ipcRunning
      modifies this`outstanding, LidObjects()
      modifies power, machine`asked, machine`refusals, machine`timers, machine`nextTimer, machine`handles
      modifies machine`sys, machine`trace
      ensures Valid() && machine.Watched()
      ensures lid == old(lid) || lid.None?
      ensures power.session == old(power.session) || power.session.None?
      ensures machine.Granted() ==>
                && Off() && !ipcRunning
                && machine.sys.calls == old(machine.sys.calls)
                   + (if old(lid).Some? then [Stopped(old(lid.value.guardian.value))] else [])
      ensures ipcRunning == (old(ipcRunning) && !machine.choice(old(machine.asked)))
      ensures machine.choice(old(machine.asked) + 1) ==>
                && Off()
                && var next := old(machine.asked) + (if old(lid).Some? then 4 else 2);
                   machine.asked == next + Refreshing(next)
      ensures lid.Some? ==> Untouched()
      ensures Restores(old(lid).Some? && machine.choice(old(machine.asked) + 1), 2)
      ensures machine.Disciplined()
    {
      hide Exclusive, Expiries, Terminations, Base, OnlyAddsTimers, Machine.Smooth;
      StopServer();
      EndSession();
      UpdateUi();
    }

    method StopServer()
      requires Base()
      modifies this`ipcRunning, machine`asked, machine`refusals
      ensures Base() && machine.Watched() && machine.asked == old(machine.asked) + 1
      ensures ipcRunning == (old(ipcRunning) && !machine.choice(old(machine.asked)))
      ensures machine.Granted() <==> machine.choice(old(machine.asked))
      ensures !machine.Granted() ==> Loose()
    {
      hide Exclusive, Expiries, Terminations, Held, Tidy, Machine.Smooth;
      var ok := Access();
      if ok {
        ipcRunning := false;
      }
    }

    method EndSession()
      requires Base() && Armed()
      modifies this`lid, this`thermalTimer, this`expiryTimer, this`countdownTimer, this`outstanding, LidObjects()
      modifies power, machine`asked, machine`refusals, machine`timers, machine`handles, machine`sys, machine`trace
      ensures Base() && Armed() && outstanding == old(outstanding) && machine.Watched() && machine.Disciplined()
      ensures if machine.choice(old(machine.asked)) then
                && Off()
                && machine.sys.calls == old(machine.sys.calls)
                   + (if old(lid).Some? then [Stopped(old(lid.value.guardian.value))] else [])
              else Untouched() && lid == old(lid) && !machine.Granted()
      ensures machine.asked == old(machine.asked)
                               + (if machine.choice(old(machine.asked)) && old(lid).Some? then 3 else 1)
      ensures Restores(old(lid).Some? && machine.choice(old(machine.asked)), 1)
    {
      hide Exclusive, Expiries, Terminations, Held, Tidy, Stray, Machine.Smooth;
      var ok := Access();
      if ok {
        var released := TurnOff();
      }
    }

    // ----- Events -----

    /** The run loop fires a live timer; a one-shot timer is then gone. An expiry timer, also one
        that no field refers to any more, never stops a finite session whose end the clock has not
        reached. It stops one whose end has been reached, and an indefinite one, exactly if
        neither of its accesses is refused. */
    method Fire(id: nat) returns (ghost now: Time)
      requires Valid()
      modifies this`lid, this`thermalTimer, this`expiryTimer, this`countdownTimer, this`errorMessage
      modifies this`controls, this`ipcRunning, this`outstanding, LidObjects()
      modifies power, machine`asked, machine`refusals, machine`readings, machine`lastHot, machine`timers
      modifies machine`nextTimer, machine`handles, machine`sys, machine`trace
      ensures Valid() && machine.Watched()
      ensures lid == old(lid) || lid.None?
      ensures power.session == old(power.session) || power.session.None?
      ensures now == machine.clock(old(machine.readings))
      ensures id !in old(machine.timers) ==> lid == old(lid) && machine.timers == old(machine.timers)
      ensures id !in old(machine.timers) || old(machine.timers)[id].Repeats() ==>
                power.session == old(power.session) && machine.readings == old(machine.readings)
      ensures old(machine.readings) <= machine.readings && FireOutcome(id)
      ensures lid.Some? && lid == old(lid) && old(power.session).Some? ==> Untouched()
      ensures id in old(machine.timers) && !old(machine.timers)[id].Repeats() && id in machine.timers ==>
                machine.timers[id].Repeats()
      ensures machine.Disciplined()
    {
      hide Exclusive, Expiries, Terminations, Stray, Base, OnlyAddsTimers, Machine.Smooth, ThermalDrops, Restores;
      hide Held, ExpiryOutcome, Off;
      if id in machine.timers {
        FiredIsCurrent(id);
      }
      now := machine.clock(machine.readings);
      if id !in machine.timers {
        return;
      }
      match machine.timers[id].kind
      case Thermal =>
        CheckThermalState();
      case Countdown =>
        UpdateUi();
      case Expiry =>
        now := FireExpiry(id);
      case Terminate =>
        FireTermination(id);
    }

    method FireTermination(id: nat)
      requires Valid() && id in machine.timers && machine.timers[id].kind == Terminate
      modifies this`lid, this`thermalTimer, this`expiryTimer, this`countdownTimer, this`ipcRunning
      modifies this`outstanding, LidObjects()
      modifies power, machine`asked, machine`refusals, machine`timers, machine`nextTimer, machine`handles
      modifies machine`sys, machine`trace
      ensures Valid() && machine.Watched() && machine.Disciplined()
      ensures lid == old(lid) || lid.None?
      ensures power.session == old(power.session) || power.session.None?
      ensures machine.Granted() ==> Off() && !ipcRunning
      ensures ipcRunning == (old(ipcRunning) && !machine.choice(old(machine.asked)))
      ensures machine.choice(old(machine.asked) + 1) ==> Off()
      ensures lid.Some? ==> Untouched()
      ensures id in machine.timers ==> machine.timers[id].Repeats()
    {
      hide Exclusive, Expiries, Terminations, Stray, Base, OnlyAddsTimers, Machine.Smooth, Restores, Held;
      FiredIsCurrent(id);
      Teardown();
      Expire(id);
    }

    method FireExpiry(id: nat) returns (ghost now: Time)
      requires Valid() && id in machine.timers && machine.timers[id].kind == Expiry
      modifies this`lid, this`thermalTimer, this`expiryTimer, this`countdownTimer, this`errorMessage
      modifies this`outstanding, LidObjects()
      modifies power, machine`asked, machine`refusals, machine`readings, machine`timers, machine`nextTimer
      modifies machine`handles, machine`sys, machine`trace
      ensures Valid() && machine.Watched() && machine.Disciplined()
      ensures lid == old(lid) || lid.None?
      ensures power.session == old(power.session) || power.session.None?
      ensures now == machine.clock(old(machine.readings)) && old(machine.readings) <= machine.readings
      ensures ExpiryOutcome(id, now)
      ensures lid.Some? && lid == old(lid) && old(power.session).Some? ==> Untouched()
      ensures id in machine.timers ==> machine.timers[id].Repeats()
    {
      hide Exclusive, Expiries, Terminations, Stray, Base, OnlyAddsTimers, Machine.Smooth, Restores, Held, Off;
      FiredIsCurrent(id);
      ghost var expired;
      now, expired := ScheduleExpiryTimer();
      Expire(id);
    }

    lemma FiredIsCurrent(id: nat)
      requires Base() && id in machine.timers
      ensures machine.timers[id].kind == Thermal ==> thermalTimer == Some(id) && lid.Some?
      ensures machine.timers[id].kind == Expiry && !Loose() ==> expiryTimer == Some(id) && power.EndsAt().Some?
      ensures id in Expiries(machine.timers) <==> machine.timers[id].kind == Expiry
      ensures id < machine.nextTimer && settled <= machine.refusals
    {
    }

    /** What the fire of a live timer does. */
    twostate predicate FireOutcome(id: nat)
      reads this`lid, this`thermalTimer, this`expiryTimer, this`countdownTimer, this`ipcRunning, this`controls
      reads this`errorMessage, this`popoverShown, machine, power`session
    {
      if id !in old(machine.timers) then Untouched() && lid == old(lid) && machine.timers == old(machine.timers)
      else
        match old(machine.timers)[id].kind
        case Thermal =>
          && old(lid).Some? && lid == (if ThermalDrops(old(machine.asked)) then None else old(lid))
          && SameOneShots()
          && controls == (if machine.choice(old(machine.asked)) && ThermalDrops(old(machine.asked))
                          then old(controls).(mode := SystemOnly) else old(controls))
          && (machine.Granted() && machine.heat(old(machine.asked) + 1) ==>
                && errorMessage.Some? && (errorMessage.value == ThermalCutoff || errorMessage.value.ThermalCutoffAnd?)
                && (errorMessage.value == ThermalCutoff ==> !machine.sys.flag && !machine.sys.tainted))
          && Restores(ThermalDrops(old(machine.asked)), if machine.choice(old(machine.asked)) then 3 else 2)
        case Countdown =>
          && lid == old(lid) && machine.sys == old(machine.sys) && SameOneShots()
          && thermalTimer == old(thermalTimer) && expiryTimer == old(expiryTimer)
          && (machine.Granted() && popoverShown && power.EndsAt().Some? ==> countdownTimer.Some?)
        case Expiry => ExpiryOutcome(id, machine.clock(old(machine.readings)))
        case Terminate =>
          && (machine.Granted() ==> Off() && !ipcRunning)
          && (machine.choice(old(machine.asked)) ==> !ipcRunning)
          && (machine.choice(old(machine.asked) + 1) ==> Off())
    }

    twostate predicate ExpiryOutcome(id: nat, now: Time)
      reads this`lid, this`thermalTimer, this`expiryTimer, this`errorMessage, machine, power`session
    {
      var asked := old(machine.asked);
      var finite := old(power.EndsAt()).Some?;
      var over := finite ==> now >= old(power.EndsAt()).value;
      && machine.readings == old(machine.readings) + (if machine.choice(asked) && finite then 1 else 0)
      && (over && machine.choice(asked) && machine.choice(asked + 1) ==> Off())
      && Restores(old(lid).Some? && over && machine.choice(asked) && machine.choice(asked + 1), 2)
      && (!(over && machine.choice(asked) && machine.choice(asked + 1)) ==>
            power.session == old(power.session) && lid == old(lid))
      && (machine.Granted() ==> machine.choice(asked) && (over ==> machine.choice(asked + 1)))
      && (machine.Granted() && over && old(lid).Some? && !BothYes(2) ==>
            errorMessage.Some? && errorMessage.value.Restore?)
      && (id in machine.timers ==> machine.timers[id].Repeats())
      && (!over ==> machine.sys == old(machine.sys))
      && NoNewTerminations() && (!finite ==> NoNewOneShots())
      && (!over && machine.Granted() ==>
            && expiryTimer.Some? && expiryTimer != Some(id) && expiryTimer.value in machine.timers
            && machine.timers[expiryTimer.value] == Timer(Expiry, old(power.EndsAt()).value - now))
    }

    /** A fired one-shot timer leaves the run loop. */
    method Expire(id: nat)
      requires Valid() && (!Loose() ==> expiryTimer != Some(id))
      modifies machine`timers
      ensures Valid()
      ensures forall i | i in old(machine.timers) && i != id ::
                i in machine.timers && machine.timers[i] == old(machine.timers)[i]
      ensures NoNewOneShots()
      ensures id in machine.timers ==> machine.timers[id].Repeats()
    {
      hide Machine.Valid, Machine.Smooth, Conserved, Sound;
      if id in machine.timers && !machine.timers[id].Repeats() {
        TidyExpire(machine.timers, machine.nextTimer, Fields(), Loose(), power.EndsAt().Some?, id);
        OneShotsDrop(machine.timers, Some(id));
        machine.Invalidate(id);
      }
    }

    /** `quit`: ends the session and then the application, or reports why it cannot. */
    method Quit()
      requires Valid()
      modifies this`lid, this`thermalTimer, this`expiryTimer, this`countdownTimer, this`errorMessage
      modifies this`ipcRunning, this`outstanding, LidObjects()
      modifies power, machine`asked, machine`refusals, machine`timers, machine`nextTimer, machine`handles
      modifies machine`sys, machine`trace
      ensures Valid() && machine.Watched()
      ensures lid == old(lid) || lid.None?
      ensures power.session == old(power.session) || power.session.None?
      ensures machine.choice(old(machine.asked)) ==> Off()
      ensures if machine.choice(old(machine.asked)) && (old(lid).Some? ==> BothYes(1))
              then machine.Granted() ==> !ipcRunning
              else ipcRunning == old(ipcRunning)
                   && (machine.Granted() ==> Off() && errorMessage.Some? && errorMessage.value.Restore?)
      ensures lid.Some? ==> Untouched()
      ensures Restores(old(lid).Some? && machine.choice(old(machine.asked)), 1)
      ensures machine.Disciplined()
    {
      hide Exclusive, Expiries, Terminations, Base, OnlyAddsTimers, Machine.Smooth;
      var stopped := StopSession();
      match stopped
      case Ok(_) =>
        Teardown();
        OffWhenInactive();
      case Err(error) => ShowError(error);
    }

    method EditControls(edited: Controls)
      requires Valid()
      modifies this`controls
      ensures Valid() && controls == edited
    {
      controls := edited;
    }

    /** `no_time_limit_changed`: lid-closed mode needs a time limit. */
    method NoTimeLimitChanged()
      requires Valid()
      modifies this`countdownTimer, this`errorMessage, this`controls, machine`asked, machine`refusals
      modifies machine`timers, machine`nextTimer
      ensures Valid() && machine.Watched()
      ensures controls == if machine.choice(old(machine.asked)) && old(controls).noTimeLimit
                             && old(controls).mode.LidClosed?
                          then old(controls).(mode := SystemOnly) else old(controls)
      ensures machine.Granted() ==>
                && machine.choice(old(machine.asked))
                && errorMessage == if old(errorMessage) == Some(ThermalCutoff) then old(errorMessage) else None
      ensures SameOneShots() && KeepsStray()
    {
      hide Exclusive, Expiries, Terminations, Base, OnlyAddsTimers, Machine.Smooth;
      var ok := Access();
      if ok && controls.noTimeLimit && controls.mode.LidClosed? {
        controls := controls.(mode := SystemOnly);
      }
      ClearError();
    }

    /** `stop_countdown_timer`. */
    method StopCountdownTimer()
      requires Valid()
      modifies this`countdownTimer, machine`asked, machine`refusals, machine`timers
      ensures Valid() && machine.Watched()
      ensures countdownTimer == if machine.choice(old(machine.asked)) then None else old(countdownTimer)
      ensures machine.asked == old(machine.asked) + 1
      ensures machine.Granted() ==> countdownTimer.None?
      ensures SameOneShots() && KeepsStray()
    {
      hide Exclusive, Expiries, Terminations, Base, Machine.Smooth;
      var ok := Access();
      if ok {
        CancelCountdownTimer();
      }
    }

    /** `close_popover` and `popover_did_close`. */
    method ClosePopover()
      requires Valid()
      modifies this`countdownTimer, this`popoverShown, machine`asked, machine`refusals, machine`timers
      ensures Valid() && machine.Watched()
      ensures popoverShown == (old(popoverShown) && !machine.choice(old(machine.asked) + 1))
      ensures var closes := old(popoverShown) && machine.choice(old(machine.asked) + 1);
              && machine.asked == old(machine.asked) + (if closes then 3 else 2)
              && countdownTimer == if machine.choice(old(machine.asked))
                                      || (closes && machine.choice(old(machine.asked) + 2))
                                   then None else old(countdownTimer)
      ensures machine.Granted() ==> countdownTimer.None? && !popoverShown
      ensures SameOneShots() && KeepsStray()
    {
      hide Exclusive, Expiries, Terminations, Base, Machine.Smooth;
      StopCountdownTimer();
      var ok := Access();
      if ok && popoverShown {
        popoverShown := false;
        StopCountdownTimer();
      }
    }

    /** `show_popover` and what follows it in `toggle_popover_relative_to`. */
    method ShowPopover()
      requires Valid()
      modifies this`countdownTimer, this`popoverShown, machine`asked, machine`refusals, machine`timers
      modifies machine`nextTimer
      ensures Valid() && machine.Watched()
      ensures machine.Granted() ==> popoverShown && (power.EndsAt().Some? ==> countdownTimer.Some?)
      ensures popoverShown == (old(popoverShown)
                               || machine.choice(old(machine.asked)
                                                 + if machine.choice(old(machine.asked) + 1) then 3 else 2))
      ensures SameOneShots() && KeepsStray()
    {
      hide Exclusive, Expiries, Terminations, Stray, Base, OnlyAddsTimers, Machine.Smooth;
      var noted := Access();
      UpdateUi();
      var ok := Access();
      if ok {
        popoverShown := true;
      }
      StartCountdownTimerIfNeeded();
    }

    /** `toggle_popover_relative_to`. */
    method TogglePopover()
      requires Valid()
      modifies this`countdownTimer, this`popoverShown, machine`asked, machine`refusals, machine`timers
      modifies machine`nextTimer
      ensures Valid() && machine.Watched()
      ensures machine.Granted() ==> popoverShown != old(popoverShown)
      ensures !machine.choice(old(machine.asked)) && old(popoverShown) ==> popoverShown
      ensures machine.Granted() ==>
                if popoverShown then power.EndsAt().Some? ==> countdownTimer.Some? else countdownTimer.None?
      ensures SameOneShots() && KeepsStray()
    {
      hide Exclusive, Expiries, Terminations, Stray, Base, OnlyAddsTimers, Machine.Smooth;
      var ok := Access();
      if ok && popoverShown {
        ClosePopover();
      } else {
        ShowPopover();
      }
    }

    /** The timer that ends the application fires. */
    ghost predicate Terminates(event: Event)
      reads machine`timers
    {
      event.TimerFires? && event.id in machine.timers && machine.timers[event.id].kind == Terminate
    }

    /** The power session goes on, unless a live expiry timer has fired and, for a finite session, the
        clock been read at or after its end; with nothing refused, exactly unless. Timers that end a
        session or the application never come from nowhere. */
    twostate predicate Survives(event: Event)
      reads this`lid, this`thermalTimer, this`expiryTimer
      reads machine`readings, machine`refusals, machine`timers, power`session
    {
      var finite, reading := old(power.EndsAt()).Some?, old(machine.readings);
      var fires := event.TimerFires? && event.id in old(Expiries(machine.timers));
      var over := finite ==> machine.clock(reading) >= old(power.EndsAt()).value;
      && reading <= machine.readings
      && NoNewTerminations() && (!finite ==> NoNewOneShots()) && (!fires ==> SameOneShots())
      && (machine.Granted() ==>
            machine.readings == reading + (if finite && (fires || event.Command?) then 1 else 0))
      && (power.session == old(power.session) || power.session.None?)
      && (power.session != old(power.session) ==> fires && over && (finite ==> machine.readings == reading + 1))
      && (machine.Granted() && fires && over ==> Off())
    }

    /** What an event does that is about the popover alone. */
    twostate predicate Refreshed(event: Event)
      reads this`countdownTimer, this`errorMessage, this`controls, this`popoverShown, machine`refusals, power`session
    {
      match event
      case ControlsEdited(edited) => controls == edited
      case NoTimeLimitChanged =>
        machine.Granted() ==>
          && controls == (if old(controls).noTimeLimit && old(controls).mode.LidClosed?
                          then old(controls).(mode := SystemOnly) else old(controls))
          && errorMessage == (if old(errorMessage) == Some(ThermalCutoff) then old(errorMessage) else None)
      case AwakeModeChanged =>
        machine.Granted() ==>
          errorMessage == if old(errorMessage) == Some(ThermalCutoff) then old(errorMessage) else None
      case StatusItemClicked =>
        machine.Granted() ==>
          && popoverShown != old(popoverShown)
          && (if popoverShown then power.EndsAt().Some? ==> countdownTimer.Some? else countdownTimer.None?)
      case PopoverCloses => machine.Granted() ==> !popoverShown && countdownTimer.None?
      case _ => true
    }

    /** What an event does, and what its answer says. */
    twostate predicate Handled(event: Event, new answer: Answer, new clock: Timing)
      reads this`lid, this`thermalTimer, this`expiryTimer, this`countdownTimer, this`ipcRunning, this`errorMessage
      reads this`controls, this`popoverShown, machine, power`session
    {
      match event
      case StartStopClicked =>
        && answer.Toggled? && ToggleOutcome(answer.result, clock) && FlagOutcome(answer.result)
        && (machine.choice(old(machine.asked)) ==> LidStart(old(machine.asked) + 1, true, answer.result, clock))
        && (machine.Granted() && answer.result.Err? ==> errorMessage == Some(answer.result.error))
      case Command(command) =>
        && answer.Responded? && SettingAfter(command, answer.response)
        && (machine.Granted() ==> CommandOutcome(command, answer.response, clock))
      case TimerFires(id) => FireOutcome(id)
      case QuitClicked =>
        && (machine.choice(old(machine.asked)) ==> Off())
        && if machine.choice(old(machine.asked)) && (old(lid).Some? ==> BothYes(1))
           then machine.Granted() ==> !ipcRunning
           else
             && ipcRunning == old(ipcRunning)
             && (machine.Granted() ==> Off() && errorMessage.Some? && errorMessage.value.Restore?)
      case WillTerminate =>
        && (machine.Granted() ==> Off() && !ipcRunning)
        && (machine.choice(old(machine.asked)) ==> !ipcRunning)
        && (machine.choice(old(machine.asked) + 1) ==> Off())
      case _ => Refreshed(event)
    }

    /** The events that are about the popover alone. */
    method Refresh(event: Event)
      requires Valid()
      requires !event.StartStopClicked? && !event.Command? && !event.TimerFires?
      requires !event.QuitClicked? && !event.WillTerminate?
      modifies this`countdownTimer, this`errorMessage, this`controls, this`popoverShown
      modifies machine`asked, machine`refusals, machine`timers, machine`nextTimer
      ensures Valid() && machine.Watched() && SameOneShots() && Refreshed(event)
    {
      hide Exclusive, Expiries, Terminations, Base, OnlyAddsTimers, Machine.Smooth;
      match event
      case ControlsEdited(edited) =>
        EditControls(edited);
      case NoTimeLimitChanged =>
        NoTimeLimitChanged();
      case AwakeModeChanged =>
        ClearError();
      case StatusItemClicked =>
        TogglePopover();
      case PopoverCloses =>
        ClosePopover();
    }

    /** What every event leaves alone: only a click on the start button prompts for a password; only
        that, a toggle or a start command can turn anything on; a lid session with its power session
        is left alone until it is stopped; guardians overlap only after a toggle that finds a lid
        session held with no power session; and a quiet event ends a session only as `Survives` says. */
    twostate predicate Kept(event: Event)
      reads this`lid, this`thermalTimer, this`expiryTimer
      reads machine`refusals, machine`prompts, machine`readings, machine`timers, machine`sys, power`session
    {
      && (lid.Some? && lid != old(lid) ==> fresh(lid.value))
      && (!event.StartStopClicked? ==> machine.prompts == old(machine.prompts))
      && (!event.StartStopClicked? && !(event.Command? && (event.command.Toggle? || event.command.Start?)) ==>
            && (lid == old(lid) || lid.None?)
            && (power.session == old(power.session) || power.session.None?))
      && (lid.Some? && lid == old(lid) && old(power.session).Some? ==> Untouched())
      && (!(event.Toggles() && old(Overlaps())) ==> machine.Disciplined())
      && (event.Quiet() && !old(Terminates(event)) ==> Survives(event))
    }

    /** The events that are answered. */
    method Respond(event: Event) returns (answer: Answer, ghost clock: Timing)
      requires Valid() && (event.StartStopClicked? || event.Command?)
      modifies this`lid, this`thermalTimer, this`expiryTimer, this`countdownTimer, this`errorMessage, this`controls
      modifies this`outstanding, LidObjects(), power, machine
      ensures Valid() && machine.Watched()
      ensures Handled(event, answer, clock) && Kept(event) && clock == old(Coming(clock.late))
    {
      hide Exclusive, Expiries, Terminations, Base, Off, OnlyAddsTimers, Machine.Smooth, ToggleOutcome, CommandOutcome;
      hide FlagOutcome, StoreDecides, LidStart, SettingAfter, Survives;
      match event
      case StartStopClicked =>
        var result;
        result, clock := HandleStartStop(true);
        answer := Toggled(result);
      case Command(command) =>
        var response;
        response, clock := ExecuteIpcCommand(command);
        StatusSurvives(command);
        answer := Responded(response);
    }

    /** The events that are not. */
    method Proceed(event: Event)
      requires Valid() && !event.StartStopClicked? && !event.Command?
      modifies this`lid, this`thermalTimer, this`expiryTimer, this`countdownTimer, this`ipcRunning, this`errorMessage
      modifies this`controls, this`popoverShown, this`outstanding, LidObjects(), power, machine
      ensures Valid() && machine.Watched()
      ensures Handled(event, Unanswered, old(Coming(false))) && Kept(event)
    {
      hide Exclusive, Expiries, Terminations, Base, Off, OnlyAddsTimers, Machine.Smooth;
      hide ThermalDrops, FireOutcome, Refreshed, Survives;
      if event.TimerFires? {
        ghost var now := Fire(event.id);
        FireSurvives(event.id);
      } else if event.QuitClicked? {
        Quit();
      } else if event.WillTerminate? {
        Teardown();
      } else {
        Refresh(event);
        RefreshSurvives(event);
      }
    }

    /** One event on the main thread, as `Handled` and `Kept` say, and added to those handled. The
        invariant is kept whatever fails; where fields and timers match they still do, unless an
        access is refused. */
    method Dispatch(event: Event) returns (answer: Answer, ghost clock: Timing)
      requires Valid()
      modifies `lid, `thermalTimer, `expiryTimer, `countdownTimer, `ipcRunning, `errorMessage, `controls
      modifies `popoverShown, `outstanding, `handled, LidObjects(), power, machine
      ensures Valid() && machine.Watched()
      ensures handled == old(handled) + [event]
      ensures Handled(event, answer, clock) && Kept(event) && clock == old(Coming(clock.late))
      ensures !Loose() ==> Matched()
    {
      hide Exclusive, Expiries, Terminations, Base, Off, OnlyAddsTimers, Machine.Smooth, Kept, Handled;
      ghost var before := handled;
      answer, clock := Unanswered, Coming(false);
      if event.StartStopClicked? || event.Command? {
        answer, clock := Respond(event);
      } else {
        Proceed(event);
      }
      Record(before, event);
    }

    /** What `FireOutcome` says, put as survival. */
    twostate lemma FireSurvives(id: nat)
      requires FireOutcome(id) && old(machine.readings) <= machine.readings
      requires id !in old(machine.timers) ==> machine.timers == old(machine.timers)
      requires id !in old(machine.timers) || old(machine.timers)[id].Repeats() ==>
                 power.session == old(power.session) && machine.readings == old(machine.readings)
      ensures !old(Terminates(TimerFires(id))) ==> Survives(TimerFires(id))
    {
    }

    twostate lemma StatusSurvives(command: Ipc.IpcCommand)
      requires command.Status? ==>
                 && power.session == old(power.session) && machine.timers == old(machine.timers)
                 && old(machine.readings) <= machine.readings
                 && (machine.Granted() ==>
                       machine.readings == old(machine.readings) + (if power.EndsAt().Some? then 1 else 0))
      ensures command.Status? ==> Survives(Command(command))
    {
    }

    twostate lemma RefreshSurvives(event: Event)
      requires !event.Command? && !event.TimerFires? && SameOneShots()
      requires power.session == old(power.session) && machine.readings == old(machine.readings)
      ensures Survives(event)
    {
    }

    ghost method Record(before: seq<Event>, event: Event)
      requires Valid()
      modifies `handled
      ensures Valid() && handled == before + [event]
      ensures !Loose() ==> Matched()
    {
      if !Loose() {
        NotLooseIsMatched();
      }
      handled := before + [event];
    }
  }
}
