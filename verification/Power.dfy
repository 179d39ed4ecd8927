/** Power assertion ownership (crates/app/src/power.rs). */
module Power {
  import opened Wrappers
  import opened DurationText
  import opened Platform

  datatype PowerError = AcquisitionFailed | DurationOverflow

  datatype ActiveSession = ActiveSession(handle: nat, kind: AssertionKind, endsAt: Option<Time>)

  /** `SystemTime::checked_add`. */
  function CheckedAdd(now: Time, d: Duration): (end: Option<Time>)
    ensures end.Some? <==> now + (d.secs * 1_000_000_000 + d.nanos) < TIME_LIMIT
    ensures end.Some? ==> end.value - now == d.secs * 1_000_000_000 + d.nanos
  {
    if now + d.Nanos() < TIME_LIMIT then Some(now + d.Nanos()) else None
  }

  class PowerController {
    const machine: Machine
    var session: Option<ActiveSession>

    constructor (machine: Machine)
      ensures this.machine == machine && session == None
    {
      this.machine, session := machine, None;
    }

    /** The acquired assertions are exactly the session's, of its kind. */
    ghost predicate Valid()
      reads this`session
      reads machine`sys, machine`trace, machine`timers, machine`nextTimer, machine`handles, machine`nextHandle
    {
      && machine.Valid()
      && machine.handles == (if session.Some? then map[session.value.handle := session.value.kind] else map[])
    }

    predicate IsActive()
      reads this`session
    {
      session.Some?
    }

    function EndsAt(): Option<Time>
      reads this`session
    {
      if session.Some? then session.value.endsAt else None
    }

    predicate KeepDisplayAwake()
      reads this`session
    {
      session.Some? && session.value.kind == PreventDisplaySleep
    }

    /** On success the new session is active with the assertion and end that were asked for; on
        error nothing is, whatever was active before. The old assertion is released first, so no
        two are ever held. */
    method Start(duration: Option<Duration>, keepDisplayAwake: bool, now: Time)
      returns (r: Result<(), PowerError>)
      requires Valid()
      modifies this, machine`asked, machine`handles, machine`nextHandle
      ensures Valid()
      ensures r.Err? ==> session == None
      ensures machine.Smooth() ==> r.Ok? || r == Err(DurationOverflow)
      ensures r != Err(DurationOverflow) ==>
                (r.Ok? <==> machine.choice(old(machine.asked))) && machine.asked == old(machine.asked) + 1
      ensures r == Err(DurationOverflow) ==> machine.asked == old(machine.asked)
      ensures r == Err(DurationOverflow) <==>
                duration.Some? && now + (duration.value.secs * 1_000_000_000 + duration.value.nanos) >= TIME_LIMIT
      ensures r.Ok? ==> (duration.Some? <==> EndsAt().Some?)
      ensures r.Ok? && duration.Some? ==>
                EndsAt().value - now == duration.value.secs * 1_000_000_000 + duration.value.nanos
      ensures r.Ok? ==>
                && session.Some?
                && KeepDisplayAwake() == keepDisplayAwake
                && EndsAt() == (if duration.Some? then CheckedAdd(now, duration.value) else None)
                && (duration.Some? <==> EndsAt().Some?)
    {
      Stop();
      var kind := if keepDisplayAwake then PreventDisplaySleep else PreventSystemSleep;
      var endsAt: Option<Time> := None;
      if duration.Some? {
        endsAt := CheckedAdd(now, duration.value);
        if endsAt == None {
          return Err(DurationOverflow);
        }
      }
      var handle := machine.Acquire(kind);
      if handle.None? {
        return Err(AcquisitionFailed);
      }
      session := Some(ActiveSession(handle.value, kind, endsAt));
      r := Ok(());
    }

    method Stop()
      requires Valid()
      modifies this, machine`handles
      ensures Valid() && session == None
    {
      if session.Some? {
        machine.Release(session.value.handle);
      }
      session := None;
    }
  }
}
