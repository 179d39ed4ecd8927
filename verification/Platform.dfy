/** The world the application runs in: answers nobody can predict, the wall clock, the run
    loop's timers, power assertion handles, and the lid guardians. */
module Platform {
  import opened Wrappers
  import opened LidLedger
  import Protocol = GuardianProtocol

  /** `SystemTime`, in nanoseconds from the Unix epoch: i64 seconds either way. */
  const TIME_LIMIT: int := 0x8000_0000_0000_0000 * 1_000_000_000

  type Time = t: int | -TIME_LIMIT <= t < TIME_LIMIT

  datatype AssertionKind = PreventSystemSleep | PreventDisplaySleep

  datatype TimerKind = Expiry | Thermal | Countdown | Terminate

  datatype Timer = Timer(kind: TimerKind, interval: nat) {
    predicate Repeats() {
      kind.Thermal? || kind.Countdown?
    }
  }

  class Machine {
    /** Whether the i-th call or access succeeds, whether the machine is too hot at it, and the
        n-th reading of the wall clock. */
    const choice: nat -> bool
    const heat: nat -> bool
    const clock: nat -> Time
    var asked: nat
    var readings: nat

    /** Timers on the run loop. */
    var timers: map<nat, Timer>
    var nextTimer: nat

    /** Power assertions that have been acquired and not released. */
    var handles: map<nat, AssertionKind>
    var nextHandle: nat

    /** The guardians, the system-wide setting and the ledger of lid calls; `stale` is the
        setting at launch and `trace` the protocol steps taken since. */
    const stale: bool
    var sys: Protocol.State
    ghost var trace: seq<Protocol.Step>

    // What the run so far has met.
    ghost var refusals: nat     // accesses that found the state borrowed
    ghost var lateStart: bool   // some lid-closed session had expired when its own start scheduled its expiry
    ghost var prompts: nat      // password prompts shown
    ghost var lastHot: bool     // the last thermal reading

    constructor (choice: nat -> bool, heat: nat -> bool, clock: nat -> Time, stale: bool)
      ensures Valid() && this.choice == choice && this.heat == heat && this.clock == clock && this.stale == stale
      ensures asked == readings == 0 && timers == map[] && handles == map[] && !lastHot
      ensures sys == Protocol.Init(stale) && refusals == 0 && !lateStart && prompts == 0
    {
      this.choice, this.heat, this.clock, this.stale := choice, heat, clock, stale;
      asked, readings := 0, 0;
      timers, nextTimer, handles, nextHandle := map[], 0, map[], 0;
      sys, trace := Protocol.Init(stale), [];
      refusals, lateStart, prompts, lastHot := 0, false, 0, false;
    }

    /** The guardians are where a run of their protocol puts them, and identifiers are new. */
    ghost predicate Valid()
      reads this`sys, this`trace, this`timers, this`nextTimer, this`handles, this`nextHandle
    {
      && Protocol.CanRun(Protocol.Init(stale), trace)
      && sys == Protocol.Run(Protocol.Init(stale), trace)
      && (forall id | id in timers :: id < nextTimer)
      && (forall h | h in handles :: h < nextHandle)
    }

    lemma ProtocolHolds()
      requires Valid()
      ensures Protocol.Inv(sys)
    {
      Protocol.InvAfter(stale, trace);
    }

    /** Nothing fails and nothing is found busy. */
    ghost predicate Smooth() {
      forall i: nat :: choice(i)
    }

    /** It never gets hot. */
    ghost predicate Cool() {
      forall i: nat :: !heat(i)
    }

    /** How a method may change the record of what has been met. */
    twostate predicate Watched()
      reads this`refusals, this`lastHot
    {
      && old(refusals) <= refusals
      && (Smooth() ==> refusals == old(refusals))
      && (Cool() && !old(lastHot) ==> !lastHot)
    }

    /** No access was refused during the call. */
    twostate predicate Granted()
      reads this`refusals
    {
      refusals == old(refusals)
    }

    /** The call keeps to the discipline of the ledger. */
    twostate predicate Disciplined()
      reads this`sys
    {
      old(Exclusive(sys.calls)) ==> Exclusive(sys.calls)
    }

    /** The next n answers, from the given one on, are all yes. */
    ghost predicate Yes(from: nat, n: nat) {
      forall i: nat | from <= i < from + n :: choice(i)
    }

    method Ask() returns (yes: bool)
      modifies this`asked
      ensures asked == old(asked) + 1 && yes == choice(old(asked))
      ensures Smooth() ==> yes
    {
      yes := choice(asked);
      asked := asked + 1;
    }

    method Now() returns (now: Time)
      modifies this`readings
      ensures readings == old(readings) + 1 && now == clock(old(readings))
    {
      now := clock(readings);
      readings := readings + 1;
    }

    /** `try_borrow` and `try_borrow_mut`: whether the state could be accessed. */
    method Borrow() returns (ok: bool)
      modifies this`asked, this`refusals
      ensures asked == old(asked) + 1 && ok == choice(old(asked))
      ensures refusals == old(refusals) + (if ok then 0 else 1)
      ensures Smooth() ==> ok
    {
      ok := Ask();
      refusals := if ok then refusals else refusals + 1;
    }

    method ThermalTooHot() returns (hot: bool)
      modifies this`asked, this`lastHot
      ensures asked == old(asked) + 1 && hot == lastHot == heat(old(asked))
    {
      hot := heat(asked);
      asked := asked + 1;
      lastHot := hot;
    }

    method Schedule(kind: TimerKind, interval: nat) returns (id: nat)
      requires Valid()
      modifies this`timers, this`nextTimer
      ensures Valid() && id == old(nextTimer) && id !in old(timers)
      ensures nextTimer == old(nextTimer) + 1 && timers == old(timers)[id := Timer(kind, interval)]
    {
      id := nextTimer;
      nextTimer := nextTimer + 1;
      timers := timers[id := Timer(kind, interval)];
    }

    method Invalidate(id: nat)
      requires Valid()
      modifies this`timers
      ensures Valid() && timers == old(timers) - {id}
    {
      timers := timers - {id};
    }

    /** Acquires a power assertion of this kind, or fails. */
    method Acquire(kind: AssertionKind) returns (handle: Option<nat>)
      requires Valid()
      modifies this`asked, this`handles, this`nextHandle
      ensures Valid() && asked == old(asked) + 1
      ensures handle.Some? <==> choice(old(asked))
      ensures handle.None? ==> handles == old(handles)
      ensures Smooth() ==> handle.Some?
      ensures handle.Some? ==> handle.value !in old(handles) && handles == old(handles)[handle.value := kind]
    {
      var ok := Ask();
      if !ok {
        return None;
      }
      handle := Some(nextHandle);
      handles, nextHandle := handles[nextHandle := kind], nextHandle + 1;
    }

    method Release(handle: nat)
      requires Valid()
      modifies this`handles
      ensures Valid() && handles == old(handles) - {handle}
    {
      handles := handles - {handle};
    }

    /** Takes one step of the guardian protocol. */
    method Do(step: Protocol.Step)
      requires Valid() && Protocol.Enabled(sys, step)
      modifies this`sys, this`trace
      ensures Valid() && sys == Protocol.Apply(old(sys), step)
    {
      hide Protocol.CanRun, Protocol.Run, Protocol.Apply, Protocol.Enabled;
      Protocol.RunSnoc(Protocol.Init(stale), trace, step);
      trace := trace + [step];
      sys := Protocol.Apply(sys, step);
    }
  }
}
