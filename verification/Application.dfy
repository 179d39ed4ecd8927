/** Whole runs of the application, and what holds after every one of them. */
module Application {
  import opened Wrappers
  import opened LidLedger
  import opened Platform
  import opened Power
  import opened Delegates
  import Ipc
  import Protocol = GuardianProtocol
  import opened Text
  import Duration = DurationText

  /** Launch: nothing is on. `stale` is the sleep setting after launch recovery. */
  method Launch(
    choice: nat -> bool, heat: nat -> bool, clock: nat -> Time, stale: bool, controls: Controls, recovered: bool)
    returns (app: Delegate)
    ensures fresh(app) && fresh(app.machine) && fresh(app.power) && app.Valid() && app.Off()
    ensures app.machine.choice == choice && app.machine.heat == heat && app.machine.clock == clock
    ensures app.machine.stale == stale && app.controls == controls
    ensures app.machine.asked == app.machine.readings == app.machine.prompts == app.machine.refusals == 0
    ensures !app.machine.lateStart && !app.machine.lastHot && !app.popoverShown && app.Matched() && app.handled == []
  {
    var machine := new Machine(choice, heat, clock, stale);
    var power := new PowerController(machine);
    app := new Delegate(machine, power, controls, recovered);
  }

  /** Every sequence of events, under every sequence of answers, clock readings and busy states, is
      handled to its end and keeps the invariant; without a click on the start button no password is
      asked for, and where fields and timers match they still do unless an access is refused. A lid
      session that is held with a power session keeps both, and the sleep setting, until it is stopped. */
  method RunLoop(app: Delegate, events: seq<Event>)
    requires app.Valid()
    modifies app, app.LidObjects(), app.power, app.machine
    ensures app.Valid() && app.machine.Watched() && app.handled == old(app.handled) + events
    ensures Event.StartStopClicked !in events ==> app.machine.prompts == old(app.machine.prompts)
    ensures old(app.Matched()) && app.machine.Granted() ==> app.Matched()
    ensures app.lid.Some? && app.lid == old(app.lid) && old(app.power.session).Some? ==> app.Untouched()
  {
    hide Delegate.Valid, Delegate.Matched, Delegate.Handled, Delegate.Survives, Machine.Smooth;
    for i := 0 to |events|
      invariant app.Valid() && app.machine.Watched() && app.handled == old(app.handled) + events[..i]
      invariant app.lid == old(app.lid) || app.lid.None? || fresh(app.lid.value)
      invariant Event.StartStopClicked !in events ==> app.machine.prompts == old(app.machine.prompts)
      invariant old(app.Matched()) && app.machine.Granted() ==> app.Matched()
      invariant app.lid.Some? && app.lid == old(app.lid) && old(app.power.session).Some? ==> app.Untouched()
    {
      Step(app, events[i]);
      assert events[..i + 1] == events[..i] + [events[i]];
    }
    assert events[..|events|] == events;
  }

  /** One event of a run. Where fields and timers match, what was refused before no longer matters. */
  method Step(app: Delegate, event: Event)
    requires app.Valid()
    modifies app, app.LidObjects(), app.power, app.machine
    ensures app.Valid() && app.machine.Watched() && app.handled == old(app.handled) + [event]
    ensures app.Kept(event)
    ensures old(app.Matched()) && app.machine.Granted() ==> app.Matched()
  {
    hide Delegate.Base, Delegate.Matched, Delegate.Handled, Machine.Smooth;
    if app.Matched() {
      app.Settle();
    }
    ghost var clock;
    var answer;
    answer, clock := app.Dispatch(event);
  }

  method RunFromLaunch(
    choice: nat -> bool, heat: nat -> bool, clock: nat -> Time, stale: bool, controls: Controls, recovered: bool,
    events: seq<Event>)
    returns (app: Delegate)
    ensures fresh(app) && app.Valid() && app.handled == events
    ensures Event.StartStopClicked !in events ==> app.machine.prompts == 0
    ensures app.machine.refusals == 0 ==> app.Matched()
  {
    app := Launch(choice, heat, clock, stale, controls, recovered);
    RunLoop(app, events);
  }

  // ----- What the invariant means -----

  /** Conservation of lid sessions, whatever has failed and whatever was busy: every session that
      was ever started has been stopped exactly once, or it is the one stored. */
  lemma EachSessionIsStoredOrStopped(app: Delegate, g: nat)
    requires app.Valid()
    ensures app.machine.sys.held == if app.lid.Some? then {app.lid.value.guardian.value} else {}
    ensures multiset(app.machine.sys.calls)[LidCall.Started(g)] <= 1
    ensures multiset(app.machine.sys.calls)[LidCall.Started(g)]
         == multiset(app.machine.sys.calls)[Stopped(g)] + (if app.Stored() == Some(g) then 1 else 0)
  {
    app.machine.ProtocolHolds();
    EachStoppedOnce(app.machine.sys.calls, g);
  }

  /** A held lid session never goes with an indefinite or a display session, and unless some
      lid-closed session had expired at its own start it goes with a power session. As long as no
      guardians have overlapped it means the sleep setting at 1 and its guardian waiting; and
      where fields and timers match, an expiry timer that will end it. */
  lemma HeldLidIsPowered(app: Delegate)
    requires app.Valid() && app.lid.Some?
    ensures app.power.IsActive() ==> app.power.EndsAt().Some? && !app.power.KeepDisplayAwake()
    ensures !app.machine.lateStart ==> app.power.IsActive()
    ensures Exclusive(app.machine.sys.calls) ==>
              && app.machine.sys.flag
              && var g, gs := app.lid.value.guardian.value, app.machine.sys.guardians; g < |gs| && gs[g].pc.Reading?
    ensures app.Matched() && app.power.IsActive() ==>
              exists id :: id in app.machine.timers && app.machine.timers[id].kind == Expiry
  {
    var machine := app.machine;
    if Exclusive(machine.sys.calls) {
      Protocol.HeldMeansEnabled(machine.stale, machine.trace, app.lid.value.guardian.value);
    }
    if app.Matched() && app.power.IsActive() {
      assert app.expiryTimer.value in machine.timers;
    }
  }

  /** Guardians only ever overlap after some lid-closed session had expired at its own start. Which
      calls make them overlap is said by `Delegate.Dispatch`. */
  lemma OverlapNeedsLateStart(app: Delegate)
    requires app.Valid() && !app.machine.lateStart
    ensures Exclusive(app.machine.sys.calls)
  {
  }

  /** The live timers of a kind: none, or exactly one. */
  ghost predicate OneLive(timers: map<nat, Timer>, kind: TimerKind, live: bool) {
    && (live <==> exists id :: id in timers && timers[id].kind == kind)
    && (forall i, j | i in timers && j in timers && timers[i].kind == timers[j].kind == kind :: i == j)
  }

  /** A thermal timer is live exactly while a lid session is held, always. Where fields and timers
      match, an expiry timer is live exactly while a finite session is active; and they match
      as long as no access has been refused since they last did. */
  lemma TimersMatchSessions(app: Delegate)
    requires app.Valid()
    ensures OneLive(app.machine.timers, Thermal, app.lid.Some?)
    ensures app.Matched() ==> OneLive(app.machine.timers, Expiry, app.power.EndsAt().Some?)
    ensures app.machine.refusals == app.settled ==> app.Matched()
    ensures forall id | id in app.machine.timers :: Punctual(app.machine.timers[id])
  {
    if app.thermalTimer.Some? {
      assert app.thermalTimer.value in app.machine.timers;
    }
    if app.Matched() && app.expiryTimer.Some? {
      assert app.expiryTimer.value in app.machine.timers;
    }
  }

  /** With no lid session stored every guardian has exited, and the sleep setting is 0 unless it
      was found set or the last attempt to clear it failed. */
  lemma NoLidMeansNormalSleep(app: Delegate)
    requires app.Valid() && app.lid.None?
    ensures Protocol.AllExited(app.machine.sys)
    ensures app.machine.sys.flag ==>
              || (app.machine.stale && Protocol.NoneClears(app.machine.trace))
              || exists i: nat :: Protocol.FailsLast(app.machine.trace, i)
  {
    var machine := app.machine;
    machine.ProtocolHolds();
    forall g: nat | g < |machine.sys.guardians| ensures machine.sys.guardians[g].pc.Exited? {
      assert Protocol.Owned(machine.sys, g, machine.sys.guardians[g]);
    }
    Protocol.SettledMeansClear(machine.stale, machine.trace);
    Protocol.TaintExplained(Protocol.Init(machine.stale), machine.trace);
  }

  /** No overtaking, for every interleaving of guardians with the lid calls the application has
      made, a crash included, and at every step of it: at most one guardian is alive, at most one
      session held, and none that is held loses the setting. */
  lemma NoSessionOvertakesAnother(app: Delegate, steps: seq<Protocol.Step>, n: nat)
    requires app.Valid() && Exclusive(app.machine.sys.calls) && n <= |steps|
    requires Protocol.CanRun(Protocol.Init(app.machine.stale), steps)
    requires Protocol.After(app.machine.stale, steps).calls == app.machine.sys.calls
    ensures Protocol.CanRun(Protocol.Init(app.machine.stale), steps[..n])
    ensures var s := Protocol.After(app.machine.stale, steps[..n]);
            Protocol.AtMostOneLive(s) && Protocol.HeldSafely(s)
  {
    Protocol.NoOvertaking(app.machine.stale, steps, n);
  }

  /** In any such interleaving the application may die at any step, also within an event: at most
      one pass of the guardian script follows, and `Recovers` says what it leaves. */
  lemma CrashLeavesNormalSleep(app: Delegate, steps: seq<Protocol.Step>, n: nat, after: seq<Protocol.Step>)
    requires app.Valid() && n <= |steps|
    requires Protocol.CanRun(Protocol.Init(app.machine.stale), steps)
    requires Protocol.After(app.machine.stale, steps).calls == app.machine.sys.calls
    requires !Protocol.After(app.machine.stale, steps).app.Dead?
    ensures Protocol.CanRun(Protocol.Init(app.machine.stale), steps[..n] + [Protocol.Crash])
    ensures var s := Protocol.After(app.machine.stale, steps[..n] + [Protocol.Crash]);
            Protocol.CanRun(s, after) ==>
              && Protocol.Recovers(s, after)
              && (Exclusive(app.machine.sys.calls) ==> |after| <= Protocol.Distance(Protocol.Enabling))
  {
    hide Protocol.CanRun, Protocol.Run, Protocol.Apply, Protocol.Recovers;
    Protocol.CrashAtAnyMoment(app.machine.stale, steps, n, after);
  }

  /** The steps the application's guardians have taken are one of these interleavings. */
  lemma OwnTraceIsOne(app: Delegate)
    requires app.Valid()
    ensures Protocol.CanRun(Protocol.Init(app.machine.stale), app.machine.trace)
    ensures Protocol.After(app.machine.stale, app.machine.trace) == app.machine.sys && !app.machine.sys.app.Dead?
  {
  }

  // ----- Expiry over whole runs -----

  /** This event of the run is the fire of an expiry timer that is live by then. */
  predicate FiresAt(events: seq<Event>, live: seq<set<nat>>, i: nat)
    requires i < |events| && i < |live|
  {
    events[i].TimerFires? && events[i].id in live[i]
  }

  /** The expiry timers live, and the readings taken of the clock, before each event of a run and at its
      end: only their fires change the timers, and those and the statuses of a finite session read
      the clock, once. */
  ghost predicate Recorded(events: seq<Event>, live: seq<set<nat>>, at: seq<nat>, finite: bool) {
    && |live| == |at| == |events| + 1
    && forall i | 0 <= i < |events| ::
         && (!FiresAt(events, live, i) ==> live[i + 1] == live[i])
         && at[i + 1] == at[i] + (if finite && (FiresAt(events, live, i) || events[i].Command?) then 1 else 0)
  }

  /** The session is still on with these timers live after so many readings, and no fire of an expiry
      timer was at a reading at or after its end; or it is over, and some fire was. A session
      without an end is ended by any such fire. */
  ghost predicate Lasted(
    clock: nat -> Time, events: seq<Event>, live: seq<set<nat>>, at: seq<nat>, end: Option<Time>,
    active: bool, timers: set<nat>, readings: nat)
  {
    && Recorded(events, live, at, end.Some?)
    && (active ==> live[|events|] == timers && at[|events|] == readings)
    && (active <==> forall i | 0 <= i < |events| && FiresAt(events, live, i) :: end.Some? && clock(at[i]) < end.value)
  }

  /** The record of one more event. */
  lemma LastedStep(
    clock: nat -> Time, events: seq<Event>, live: seq<set<nat>>, at: seq<nat>, end: Option<Time>,
    active: bool, timers: set<nat>, readings: nat, event: Event, active': bool, timers': set<nat>, readings': nat)
    returns (live': seq<set<nat>>, at': seq<nat>)
    requires Lasted(clock, events, live, at, end, active, timers, readings)
    requires !active ==> !active'
    requires var fires := event.TimerFires? && event.id in timers;
             active ==>
               && (!fires ==> timers' == timers)
               && readings' == readings + (if end.Some? && (fires || event.Command?) then 1 else 0)
               && (active' <==> !(fires && (end.Some? ==> clock(readings) >= end.value)))
    ensures Lasted(clock, events + [event], live', at', end, active', timers', readings')
    ensures live <= live' && at <= at'
  {
    var n := |events|;
    var fires := event.TimerFires? && event.id in live[n];
    live' := live + [if fires then timers' else live[n]];
    at' := at + [at[n] + if end.Some? && (fires || event.Command?) then 1 else 0];
    forall i | 0 <= i < n
      ensures FiresAt(events + [event], live', i) == FiresAt(events, live, i)
      ensures live'[i] == live[i] && at'[i] == at[i]
    {
    }
    assert FiresAt(events + [event], live', n) == fires;
  }

  /** The session goes on, or the clock has been read at or after its end. */
  ghost predicate NotStoppedEarly(app: Delegate, from: nat, session: Option<ActiveSession>, end: Time)
    reads app, app.power, app.machine
  {
    && from <= app.machine.readings
    && (app.power.session == session
        || (app.power.session.None? && exists k :: from <= k < app.machine.readings && app.machine.clock(k) >= end))
  }

  /** An indefinite session goes on, or an expiry timer left over from a finite one has fired. */
  ghost predicate EndedByStray(
    app: Delegate, events: seq<Event>, strays: set<nat>, session: Option<ActiveSession>)
    reads app.power, app.machine
  {
    || (app.power.session == session && Expiries(app.machine.timers) <= strays)
    || (app.power.session.None? && exists id :: id in strays && Event.TimerFires(id) in events)
  }

  lemma InactiveIsOff(app: Delegate)
    requires app.Valid() && app.power.session.None?
    ensures app.expiryTimer.None? && (app.lid.None? ==> app.Off())
  {
  }

  /** One event of a quiet run, added to its record. */
  method QuietStep(
    app: Delegate, event: Event, ghost events: seq<Event>, ghost live: seq<set<nat>>, ghost at: seq<nat>,
    ghost session: Option<ActiveSession>, ghost end: Option<Time>, ghost refusals: nat, ghost from: nat,
    ghost strays: set<nat>)
    returns (ghost live': seq<set<nat>>, ghost at': seq<nat>)
    requires app.Valid() && event.Quiet() && !app.Terminates(event) && refusals <= app.machine.refusals
    requires session.Some? && session.value.endsAt == end
    requires if end.Some? then NotStoppedEarly(app, from, session, end.value)
             else EndedByStray(app, events, strays, session)
    requires app.machine.refusals == refusals ==>
               && (app.power.session.None? ==> app.Off())
               && Lasted(app.machine.clock, events, live, at, end, app.power.IsActive(), Expiries(app.machine.timers),
                         app.machine.readings)
    modifies app, app.LidObjects(), app.power, app.machine
    ensures app.Valid() && app.machine.Watched() && app.handled == old(app.handled) + [event]
    ensures Terminations(app.machine.timers) <= old(Terminations(app.machine.timers))
    ensures app.lid == old(app.lid) || app.lid.None?
    ensures app.power.session == old(app.power.session) || app.power.session.None?
    ensures if end.Some? then NotStoppedEarly(app, from, session, end.value)
            else EndedByStray(app, events + [event], strays, session)
    ensures app.machine.refusals == refusals ==>
              && live <= live' && at <= at' && (app.power.session.None? ==> app.Off())
              && Lasted(app.machine.clock, events + [event], live', at', end, app.power.IsActive(),
                        Expiries(app.machine.timers), app.machine.readings)
  {
    hide Lasted, Expiries, Terminations, Delegate.Valid, Delegate.Matched, Delegate.Handled, Machine.Smooth;
    ghost var active, timers, readings := app.power.IsActive(), Expiries(app.machine.timers), app.machine.readings;
    live', at' := live, at;
    Step(app, event);
    if app.machine.refusals == refusals {
      live', at' := LastedStep(
        app.machine.clock, events, live, at, end, active, timers, readings, event, app.power.IsActive(),
        Expiries(app.machine.timers), app.machine.readings);
    }
    if app.power.session.None? {
      InactiveIsOff(app);
    }
  }

  /** Any events at all among which nobody asks for a start or a stop, and that do not end the
      application: a finite session survives them unless the clock has been read at or after its
      end, an indefinite one unless a stray expiry timer has fired. As long as no access is
      refused, the session is over exactly if some live expiry timer has fired at a reading at or
      after its end. */
  method RunQuietly(app: Delegate, events: seq<Event>) returns (ghost live: seq<set<nat>>, ghost at: seq<nat>)
    requires app.Valid() && app.power.IsActive() && forall e | e in events :: e.Quiet()
    requires forall e | e in events && e.TimerFires? :: e.id !in Terminations(app.machine.timers)
    modifies app, app.LidObjects(), app.power, app.machine
    ensures app.Valid() && app.machine.Watched() && app.handled == old(app.handled) + events
    ensures app.power.session == old(app.power.session) || app.power.session.None?
    ensures match old(app.power.EndsAt())
            case Some(end) => NotStoppedEarly(app, old(app.machine.readings), old(app.power.session), end)
            case None => EndedByStray(app, events, old(Expiries(app.machine.timers)), old(app.power.session))
    ensures app.machine.Granted() ==>
              && Lasted(app.machine.clock, events, live, at, old(app.power.EndsAt()), app.power.IsActive(),
                        Expiries(app.machine.timers), app.machine.readings)
              && live[0] == old(Expiries(app.machine.timers)) && at[0] == old(app.machine.readings)
              && (app.power.session.None? ==> app.Off())
  {
    live, at := [Expiries(app.machine.timers)], [app.machine.readings];
    ghost var from, session, end := app.machine.readings, app.power.session, app.power.EndsAt();
    ghost var strays, refusals := Expiries(app.machine.timers), app.machine.refusals;
    hide Expiries, Delegate.Valid, Machine.Smooth;
    for i := 0 to |events|
      invariant app.Valid() && app.machine.Watched() && app.handled == old(app.handled) + events[..i]
      invariant app.lid == old(app.lid) || app.lid.None?
      invariant app.power.session == session || app.power.session.None?
      invariant Terminations(app.machine.timers) <= old(Terminations(app.machine.timers))
      invariant if end.Some? then NotStoppedEarly(app, from, session, end.value)
                else EndedByStray(app, events[..i], strays, session)
      invariant app.machine.Granted() ==>
                  && Lasted(app.machine.clock, events[..i], live, at, end, app.power.IsActive(),
                            Expiries(app.machine.timers), app.machine.readings)
                  && live[0] == strays && at[0] == from && (app.power.session.None? ==> app.Off())
    {
      assert events[i] in events && events[..i + 1] == events[..i] + [events[i]];
      live, at := QuietStep(app, events[i], events[..i], live, at, session, end, refusals, from, strays);
    }
    assert events[..|events|] == events;
  }

  // ----- Runs in which the promises fail -----

  const AN_HOUR: Time := 3600 * Duration.NANOS_PER_SECOND

  /** A lid-closed session of one minute. */
  const ONE_MINUTE: Controls := Controls(false, LidClosed, "1", UNIT_MINUTES_INDEX)

  lemma OneMinute(now: Time)
    requires 0 <= now <= AN_HOUR
    ensures var minute := Duration.RawDuration.Duration(60, 0);
            && Requested(ONE_MINUTE) == Some((Some(minute), LidClosed))
            && Fits(now, Some(minute))
            && forall late :: !Timing(now, now, late).Past(minute) && Timing(0, AN_HOUR, late).Past(minute)
  {
    assert Trim("1") == "1";
    assert "1" == [] + ['1'] && ['1'][1..] == [];
    assert AllDigits("1") && Value("1") == 1;
  }

  /** A run in which nothing fails or is busy: if the clock jumps past the end of a one-minute
      lid-closed session between its start and the scheduling of its expiry, the start answers
      success and leaves the lid session held with no power session and no expiry timer. */
  method LateStart() returns (app: Delegate)
    ensures app.Valid() && app.lid.Some? && app.power.session.None? && app.expiryTimer.None?
    ensures fresh(app) && fresh(app.machine) && fresh(app.power) && fresh(app.lid.value)
    ensures app.machine.Smooth() && app.machine.Cool() && app.machine.refusals == 0 && !app.machine.lastHot
    ensures app.controls == ONE_MINUTE && app.machine.readings == 2
    ensures app.machine.clock(2) == app.machine.clock(3) == AN_HOUR
  {
    hide Delegate.Base, Delegate.Armed, Delegate.LidStart, Requested, Fits, Timing.Past;
    OneMinute(0);
    app := Launch(_ => true, _ => false, n => if n == 0 then 0 else AN_HOUR, false, ONE_MINUTE, true);
    ghost var timing;
    var r;
    r, timing := app.HandleStartStop(true);
    assert timing == Timing(0, AN_HOUR, timing.late);
    InactiveIsOff(app);
  }

  /** The run goes on with a second click, still with nothing failing: it answers success and
      leaves a lid session held, the power session active, and the sleep setting at 0, because
      the new guardian had enabled before the old one was stopped. */
  method SecondStart() returns (app: Delegate)
    ensures fresh(app) && app.Valid() && app.machine.Smooth() && app.machine.refusals == 0
    ensures app.lid.Some? && app.power.session.Some? && !app.machine.sys.flag
  {
    hide Delegate.Base, Delegate.Armed, Delegate.LidStart, Requested, Fits, Timing.Past;
    app := LateStart();
    OneMinute(AN_HOUR);
    ghost var timing;
    var r;
    r, timing := app.HandleStartStop(true);
    assert timing == Timing(AN_HOUR, AN_HOUR, timing.late);
  }

  lemma PromptedStart(app: Delegate)
    requires app.machine.Cool() && forall i: nat :: app.machine.choice(i) <==> i != 5
    ensures app.Obtains(1, true) && app.Obtained(1) == 17 && app.PromptsFor(1, true) == 1
  {
    assert !app.machine.Yes(2, 6) by {
      assert !app.machine.choice(5);
    }
    assert app.Second(1) == 8;
  }

  /** The first lid-closed click on a cool machine without the permission: the first guardian's enable
      fails, the user is prompted once, and the second guardian starts. */
  method FirstRun() returns (app: Delegate, r: Result<bool, Message>)
    ensures fresh(app) && app.Valid() && app.machine.Cool() && app.controls == ONE_MINUTE
    ensures forall i: nat :: app.machine.choice(i) <==> i != 5
    ensures r == Ok(true) && app.machine.prompts == 1
    ensures app.lid.Some? && app.power.session.Some? && app.machine.sys.flag
  {
    hide Delegate.Base, Delegate.Armed, Delegate.Startable, Requested, Fits, Timing.Past;
    hide Delegate.Obtains, Delegate.Obtained, Delegate.PromptsFor;
    OneMinute(0);
    app := Launch(i => i != 5, _ => false, _ => 0, false, ONE_MINUTE, true);
    PromptedStart(app);
    ghost var timing;
    r, timing := app.HandleStartStop(true);
    assert timing == Timing(0, 0, timing.late);
  }

  /** A lid-closed start in which the k-th answer is the first refusal, after all that it needs. */
  method StartedUntil(k: nat) returns (app: Delegate, r: Result<bool, Message>)
    requires k >= 16
    ensures fresh(app) && fresh(app.machine) && fresh(app.power) && (app.lid.Some? ==> fresh(app.lid.value))
    ensures app.Valid() && app.machine.Cool() && app.power.session.Some?
    ensures forall i: nat :: app.machine.choice(i) <==> i != k
    ensures r.Ok? == app.lid.Some? == (k != 16)
    ensures r.Ok? ==> app.machine.asked == 17 && app.machine.sys.flag
  {
    hide Delegate.Base, Delegate.Armed, Delegate.Startable, Requested, Fits, Timing.Past;
    OneMinute(0);
    app := Launch(i => i != k, _ => false, _ => 0, false, ONE_MINUTE, true);
    ghost var timing;
    r, timing := app.HandleStartStop(true);
    assert timing == Timing(0, 0, timing.late);
  }

  /** If only the access that stores the new lid session is refused, the start answers an error
      and leaves the power session active. */
  method RefusedStore() returns (app: Delegate, r: Result<bool, Message>)
    ensures fresh(app) && app.Valid() && r.Err? && app.lid.None? && app.power.session.Some?
    ensures forall i: nat :: app.machine.choice(i) <==> i != 16
  {
    app, r := StartedUntil(16);
  }

  /** If only the first access of a thermal check is refused, it stops the lid session of a machine
      that is never hot. */
  method CoolMachineStopsLid() returns (app: Delegate)
    ensures fresh(app) && app.Valid() && app.machine.Cool() && app.lid.None? && app.power.session.Some?
    ensures forall i: nat :: app.machine.choice(i) <==> i != 17
    ensures app.machine.sys.calls != [] && Last(app.machine.sys.calls).Stopped?
  {
    hide Delegate.Base, Delegate.Armed, Machine.Smooth;
    var r;
    app, r := StartedUntil(17);
    app.CheckThermalState();
  }

  /** If only the reset fails, or only the diagnostics do, a stop answers an error, with everything
      off in either case; the sleep setting is still 1 in the first and 0 in the second. */
  method StopAnswersError(resetFails: bool) returns (app: Delegate, response: Ipc.IpcResponse)
    ensures fresh(app) && app.Valid() && app.Off() && response.Err?
    ensures app.machine.sys.flag == resetFails
    ensures forall i: nat :: app.machine.choice(i) <==> i != if resetFails then 18 else 19
  {
    hide Delegate.Base, Delegate.Armed, Machine.Smooth, Delegate.CommandOutcome;
    var r;
    app, r := StartedUntil(if resetFails then 18 else 19);
    ghost var timing;
    response, timing := app.ExecuteIpcCommand(Ipc.IpcCommand.Stop);
  }

  /** The start of a finite session whose expiry timer is live but could not be stored. */
  method UnstoredStart() returns (app: Delegate, timer: nat)
    ensures fresh(app) && fresh(app.machine) && fresh(app.power) && app.Valid() && app.lid.None? && !app.popoverShown
    ensures forall i: nat :: app.machine.choice(i) <==> i != 5
    ensures app.power.IsActive() && app.machine.asked == 8 && timer in app.Stray()
  {
    hide Delegate.Matched;
    hide Expiries, Delegate.Base, Delegate.Armed, Machine.Smooth, Fits, Timing.Past, Delegate.CommandOutcome;
    OneMinute(0);
    app := Launch(i => i != 5, _ => false, _ => 0, false, ONE_MINUTE, true);
    timer := app.machine.nextTimer;
    ghost var timing;
    var response;
    response, timing := app.StartByCommand(Some(Duration.RawDuration.Duration(60, 0)), false);
  }

  /** If only the access that stores the expiry timer of a finite session is refused, that timer stays
      live and, once the session has been replaced by an indefinite one, stops that. */
  method StrayTimerStopsIndefinite() returns (app: Delegate)
    ensures fresh(app) && app.Valid() && app.Off()
    ensures forall i: nat :: app.machine.choice(i) <==> i != 5
  {
    hide Delegate.Base, Delegate.Armed, Machine.Smooth, Delegate.CommandOutcome;
    var timer;
    app, timer := UnstoredStart();
    ghost var timing;
    var response;
    response, timing := app.StartByCommand(None, false);
    assert app.power.IsActive() && app.power.EndsAt().None?;
    ghost var now := app.Fire(timer);
  }
}
