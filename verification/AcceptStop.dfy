/** The accept worker, and `IpcServer::stop` against it (crates/app/src/ipc_server.rs): the stopper
    publishes `stopping` and then inspects the slot, the worker registers in the slot and then
    rechecks `stopping`, and a wake-up connection reaches a worker blocked in `accept`. Each
    step is one atomic access, one critical section of the slot's mutex, or one system call. */
module AcceptStop {
  import opened Wrappers

  datatype Worker =
    | Top                            // about to load `stopping` at the head of the loop
    | Accepting                      // in `accept`
    | Accepted(conn: Option<nat>)    // `accept` returned; about to load `stopping`
    | Cloning(c: nat)                // about to clone the connection
    | Registering(c: nat)            // about to fill the slot
    | Rechecking(c: nat)             // slot filled; about to load `stopping`
    | Reading(c: nat)                // configuring the connection and reading its frame
    | Checking(c: nat)               // frame read; about to load `stopping`
    | Dispatching(c: nat)            // the check passed; about to decode and call the handler
    | Handling(c: nat)               // in the handler or writing its response
    | Clearing(c: nat)               // about to empty the slot
    | Failing                        // `accept` failed; about to choose retry or backoff
    | Sleeping                       // backing off
    | Exited
  {
    /** The connection between registration and the clearing of the slot. */
    function Serving(): Option<nat> {
      match this
      case Rechecking(c) => Some(c)
      case Reading(c) => Some(c)
      case Checking(c) => Some(c)
      case Dispatching(c) => Some(c)
      case Handling(c) => Some(c)
      case Clearing(c) => Some(c)
      case _ => None
    }
  }

  datatype Stopper =
    | Outside      // no call of `stop` in progress
    | Inspecting   // won the swap; about to lock the slot and shut down what it holds
    | Connecting   // about to make the wake-up connection
    | Removing     // about to remove the socket file and return

  /** `inspected` and `connected` record that the first `stop` got past those points;
      `begun` counts handler calls and `begunAfter` those begun after the swap. */
  datatype State = State(
    stopping: bool, slot: Option<nat>, shut: set<nat>, path: bool, backlog: nat, capacity: nat,
    nextConn: nat, worker: Worker, stopper: Stopper, inspected: bool, connected: bool, begunAfter: nat)

  datatype Step =
    // the accept worker
    | LoadTop | Accept | AcceptFails(consumed: bool) | LoadAccepted | Clone(ok: bool) | Register | Recheck
    | FrameRead(ok: bool) | LoadChecked | Dispatch(valid: bool) | Finish | Clear | Decide(retry: bool) | Wake
    // the stopper
    | Swap | Inspect | Connect | Remove
    // a client
    | ClientConnects
  {
    predicate OfWorker() {
      !Swap? && !Inspect? && !Connect? && !Remove? && !ClientConnects?
    }
  }

  function Init(capacity: nat): State
    requires capacity >= 1
  {
    State(false, None, {}, true, 0, capacity, 0, Top, Outside, false, false, 0)
  }

  predicate Enabled(s: State, step: Step) {
    match step
    case LoadTop => s.worker.Top?
    case Accept => s.worker.Accepting? && s.backlog > 0
    case AcceptFails(consumed) => s.worker.Accepting? && (consumed ==> s.backlog > 0)
    case LoadAccepted => s.worker.Accepted?
    case Clone(_) => s.worker.Cloning?
    case Register => s.worker.Registering?
    case Recheck => s.worker.Rechecking?
    case FrameRead(_) => s.worker.Reading?
    case LoadChecked => s.worker.Checking?
    case Dispatch(_) => s.worker.Dispatching?
    case Finish => s.worker.Handling?
    case Clear => s.worker.Clearing?
    case Decide(_) => s.worker.Failing?
    case Wake => s.worker.Sleeping?
    case Swap => s.stopper.Outside?
    case Inspect => s.stopper.Inspecting?
    case Connect => s.stopper.Connecting?
    case Remove => s.stopper.Removing?
    case ClientConnects => s.path && s.backlog < s.capacity
  }

  function Apply(s: State, step: Step): State
    requires Enabled(s, step)
  {
    match step
    case LoadTop => s.(worker := if s.stopping then Exited else Accepting)
    case Accept => s.(backlog := s.backlog - 1, nextConn := s.nextConn + 1, worker := Accepted(Some(s.nextConn)))
    case AcceptFails(consumed) =>
      s.(backlog := if consumed then s.backlog - 1 else s.backlog, worker := Accepted(None))
    case LoadAccepted =>
      s.(worker := if s.stopping then Exited
                   else match s.worker.conn case Some(c) => Cloning(c) case None => Failing)
    case Clone(ok) => s.(worker := if ok then Registering(s.worker.c) else Top)
    case Register => s.(slot := Some(s.worker.c), worker := Rechecking(s.worker.c))
    case Recheck => s.(worker := if s.stopping then Clearing(s.worker.c) else Reading(s.worker.c))
    case FrameRead(ok) => s.(worker := if ok then Checking(s.worker.c) else Clearing(s.worker.c))
    case LoadChecked => s.(worker := if s.stopping then Clearing(s.worker.c) else Dispatching(s.worker.c))
    case Dispatch(valid) =>
      if valid then s.(worker := Handling(s.worker.c),
                       begunAfter := s.begunAfter + if s.stopping then 1 else 0)
      else s.(worker := Clearing(s.worker.c))
    case Finish => s.(worker := Clearing(s.worker.c))
    case Clear => s.(slot := None, worker := Top)
    case Decide(retry) => s.(worker := if retry then Top else Sleeping)
    case Wake => s.(worker := Top)
    case Swap => s.(stopping := true, stopper := if s.stopping then Removing else Inspecting)
    case Inspect =>
      s.(shut := s.shut + (match s.slot case Some(c) => {c} case None => {}),
         inspected := true, stopper := Connecting)
    case Connect =>
      s.(backlog := if s.path && s.backlog < s.capacity then s.backlog + 1 else s.backlog,
         connected := true, stopper := Removing)
    case Remove => s.(path := false, stopper := Outside)
    case ClientConnects => s.(backlog := s.backlog + 1)
  }

  predicate CanRun(s: State, steps: seq<Step>)
    decreases |steps|
  {
    steps == [] || (Enabled(s, steps[0]) && CanRun(Apply(s, steps[0]), steps[1..]))
  }

  function Run(s: State, steps: seq<Step>): State
    requires CanRun(s, steps)
    decreases |steps|
  {
    if steps == [] then s else Run(Apply(s, steps[0]), steps[1..])
  }

  ghost predicate Reachable(s: State) {
    exists capacity: nat, steps :: capacity >= 1 && CanRun(Init(capacity), steps) && s == Run(Init(capacity), steps)
  }

  // ----- The invariant -----

  /** The slot holds the connection being served, or nothing. */
  predicate SlotExact(s: State) {
    s.slot == s.worker.Serving()
  }

  /** How far the first `stop` has come. */
  predicate StopProgress(s: State) {
    && (s.connected ==> s.inspected)
    && (s.inspected ==> s.stopping)
    && (s.stopper.Inspecting? ==> s.stopping && !s.inspected)
    && (s.stopper.Connecting? ==> s.inspected && !s.connected)
    && (s.stopping && (s.stopper.Outside? || s.stopper.Removing?) ==> s.connected)
    && (s.stopper.Removing? ==> s.stopping)
    && (!s.path ==> s.connected)
    && (s.stopping && s.stopper.Outside? ==> !s.path)
  }

  /** A read that outlives the inspection has been shut down. */
  predicate ShutWhenInspected(s: State) {
    s.inspected && s.worker.Reading? ==> s.worker.c in s.shut
  }

  /** A worker waiting in `accept` has the wake-up, or something ahead of it, to receive. */
  predicate Woken(s: State) {
    && s.capacity >= 1 && s.backlog <= s.capacity
    && (s.connected && s.worker.Accepting? ==> s.backlog > 0)
  }

  /** The worker gives up for no other reason. */
  predicate ExitsToldTo(s: State) {
    s.worker.Exited? ==> s.stopping
  }

  /** A call begun after the swap used up the one check that preceded it. */
  predicate OneCallLeft(s: State) {
    && (s.stopping ==> s.begunAfter + (if s.worker.Dispatching? then 1 else 0) <= 1)
    && (!s.stopping ==> s.begunAfter == 0)
  }

  predicate Inv(s: State) {
    SlotExact(s) && StopProgress(s) && ShutWhenInspected(s) && Woken(s) && OneCallLeft(s) && ExitsToldTo(s)
  }

  lemma SlotExactKept(s: State, step: Step)
    requires SlotExact(s) && Enabled(s, step)
    ensures SlotExact(Apply(s, step))
  {
  }

  lemma StopProgressKept(s: State, step: Step)
    requires StopProgress(s) && Enabled(s, step)
    ensures StopProgress(Apply(s, step))
  {
  }

  lemma ShutKept(s: State, step: Step)
    requires SlotExact(s) && StopProgress(s) && ShutWhenInspected(s) && Enabled(s, step)
    ensures ShutWhenInspected(Apply(s, step))
  {
  }

  lemma WokenKept(s: State, step: Step)
    requires StopProgress(s) && Woken(s) && Enabled(s, step)
    ensures Woken(Apply(s, step))
  {
  }

  lemma OneCallKept(s: State, step: Step)
    requires OneCallLeft(s) && Enabled(s, step)
    ensures OneCallLeft(Apply(s, step))
  {
  }

  lemma ExitsToldToKept(s: State, step: Step)
    requires ExitsToldTo(s) && Enabled(s, step)
    ensures ExitsToldTo(Apply(s, step))
  {
  }

  lemma InvKept(s: State, step: Step)
    requires Inv(s) && Enabled(s, step)
    ensures Inv(Apply(s, step))
  {
    hide SlotExact, StopProgress, ShutWhenInspected, Woken, OneCallLeft, ExitsToldTo, Apply;
    SlotExactKept(s, step);
    StopProgressKept(s, step);
    ShutKept(s, step);
    WokenKept(s, step);
    OneCallKept(s, step);
    ExitsToldToKept(s, step);
  }

  lemma {:induction false} InvRun(s: State, steps: seq<Step>)
    requires Inv(s) && CanRun(s, steps)
    ensures Inv(Run(s, steps))
    decreases |steps|
  {
    if steps != [] {
      InvKept(s, steps[0]);
      InvRun(Apply(s, steps[0]), steps[1..]);
    }
  }

  lemma InvReachable(s: State)
    requires Reachable(s)
    ensures Inv(s)
  {
    var capacity: nat, steps :| capacity >= 1 && CanRun(Init(capacity), steps) && s == Run(Init(capacity), steps);
    InvRun(Init(capacity), steps);
  }

  // ----- Serving -----

  /** What the worker itself does in a run. */
  function WorkerPart(steps: seq<Step>): seq<Step> {
    if steps == [] then []
    else (if steps[0].OfWorker() then [steps[0]] else []) + WorkerPart(steps[1..])
  }

  /** From `accept` to the handler, where the clone, the read and the decoding succeed: eight steps; and
      from there back to `accept`: three. */
  function ServeStep(k: nat): Step {
    match k
    case 0 => Accept
    case 1 => LoadAccepted
    case 2 => Clone(true)
    case 3 => Register
    case 4 => Recheck
    case 5 => FrameRead(true)
    case 6 => LoadChecked
    case 7 => Dispatch(true)
    case 8 => Finish
    case 9 => Clear
    case _ => LoadTop
  }

  /** The worker after so many of these steps. */
  function Stage(k: nat, c: nat): Worker {
    match k
    case 0 => Accepting
    case 1 => Accepted(Some(c))
    case 2 => Cloning(c)
    case 3 => Registering(c)
    case 4 => Rechecking(c)
    case 5 => Reading(c)
    case 6 => Checking(c)
    case 7 => Dispatching(c)
    case 8 => Handling(c)
    case 9 => Clearing(c)
    case 10 => Top
    case _ => Accepting
  }

  /** These are the steps from the k-th on, as far as they go. */
  predicate Serves(part: seq<Step>, k: nat) {
    k + |part| <= 11 && forall i | 0 <= i < |part| :: part[i] == ServeStep(k + i)
  }

  lemma StageNext(s: State, k: nat, c: nat)
    requires k < 11 && s.worker == Stage(k, c) && (k == 0 ==> c == s.nextConn) && !s.stopping
    ensures Enabled(s, ServeStep(k)) <==> (k == 0 ==> s.backlog > 0)
    ensures Enabled(s, ServeStep(k)) ==>
              && Apply(s, ServeStep(k)).worker == Stage(k + 1, c)
              && Apply(s, ServeStep(k)).stopping == s.stopping
              && Apply(s, ServeStep(k)).backlog == (if k == 0 then s.backlog - 1 else s.backlog)
  {
  }

  lemma {:induction false} StoppingStays(s: State, steps: seq<Step>)
    requires s.stopping && CanRun(s, steps)
    ensures Run(s, steps).stopping
    decreases |steps|
  {
    if steps != [] {
      StoppingStays(Apply(s, steps[0]), steps[1..]);
    }
  }

  lemma OthersLeaveWorker(s: State, step: Step)
    requires Enabled(s, step) && !step.OfWorker()
    ensures Apply(s, step).worker == s.worker && Apply(s, step).nextConn == s.nextConn
  {
    match step
    case Swap =>
    case Inspect =>
    case Connect =>
    case Remove =>
    case ClientConnects =>
  }

  lemma {:induction false} StagesFollow(s: State, steps: seq<Step>, k: nat, c: nat)
    requires s.worker == Stage(k, c) && (k == 0 ==> c == s.nextConn)
    requires CanRun(s, steps) && !Run(s, steps).stopping && Serves(WorkerPart(steps), k)
    ensures Run(s, steps).worker == Stage(k + |WorkerPart(steps)|, c)
    decreases |steps|
  {
    hide Apply, Enabled, Stage, ServeStep;
    if steps != [] {
      var t, part := Apply(s, steps[0]), WorkerPart(steps[1..]);
      if s.stopping {
        StoppingStays(s, steps);
      }
      if steps[0].OfWorker() {
        assert WorkerPart(steps)[0] == steps[0] == ServeStep(k);
        assert forall i | 0 <= i < |part| :: part[i] == WorkerPart(steps)[i + 1];
        StageNext(s, k, c);
        StagesFollow(t, steps[1..], k + 1, c);
      } else {
        assert WorkerPart(steps) == part;
        OthersLeaveWorker(s, steps[0]);
        StagesFollow(t, steps[1..], k, c);
      }
    }
  }

  /** As long as nobody calls `stop`, and however clients come in between: a worker in `accept` whose
      clone, read and decoding succeed gets the next connection to the handler, and when that
      has returned is in `accept` again. */
  lemma ServesNext(s: State, steps: seq<Step>)
    requires s.worker.Accepting? && CanRun(s, steps) && !Run(s, steps).stopping && Serves(WorkerPart(steps), 0)
    ensures |WorkerPart(steps)| == 8 ==> Run(s, steps).worker == Handling(s.nextConn)
    ensures |WorkerPart(steps)| == 11 ==> Run(s, steps).worker.Accepting?
  {
    StagesFollow(s, steps, 0, s.nextConn);
  }

  /** And it can: with a connection waiting these steps are enabled one after the other. */
  lemma {:induction false} CanServe(s: State, k: nat, c: nat) returns (steps: seq<Step>)
    requires k <= 11 && s.worker == Stage(k, c) && !s.stopping
    requires k == 0 ==> c == s.nextConn && s.backlog > 0
    ensures CanRun(s, steps) && |steps| == 11 - k && Serves(steps, k) && !Run(s, steps).stopping
    ensures Run(s, steps).backlog == (if k == 0 then s.backlog - 1 else s.backlog)
    decreases 11 - k
  {
    hide Apply, Enabled, Stage, ServeStep;
    steps := [];
    if k < 11 {
      StageNext(s, k, c);
      var rest := CanServe(Apply(s, ServeStep(k)), k + 1, c);
      steps := [ServeStep(k)] + rest;
      assert steps[1..] == rest;
    }
  }

  /** A next step of the worker on its shortest way to `accept`, with no handler call. */
  function Homeward(w: Worker): Step {
    match w
    case Top => LoadTop
    case Accepting => Accept
    case Accepted(_) => LoadAccepted
    case Cloning(_) => Clone(false)
    case Registering(_) => Register
    case Rechecking(_) => Recheck
    case Reading(_) => FrameRead(false)
    case Checking(_) => LoadChecked
    case Dispatching(_) => Dispatch(false)
    case Handling(_) => Finish
    case Clearing(_) => Clear
    case Failing => Decide(false)
    case _ => Wake
  }

  function WayHome(w: Worker): nat {
    match w
    case Accepting => 0
    case Top => 1
    case Sleeping => 2
    case Clearing(_) => 2
    case Cloning(_) => 2
    case Failing => 3
    case Reading(_) => 3
    case Dispatching(_) => 3
    case Handling(_) => 3
    case Registering(_) => 5
    case _ => 4
  }

  lemma HomewardShrinks(s: State)
    requires ExitsToldTo(s) && !s.stopping && !s.worker.Accepting?
    ensures Enabled(s, Homeward(s.worker)) && Homeward(s.worker).OfWorker()
    ensures var t := Apply(s, Homeward(s.worker));
            WayHome(t.worker) < WayHome(s.worker) && !t.stopping && ExitsToldTo(t)
  {
  }

  /** Until it is told to stop a worker is never lost: some steps of its own, at most five and none of
      them a handler call, bring it back to `accept` from wherever it is. */
  lemma {:induction false} ComesBack(s: State) returns (steps: seq<Step>)
    requires ExitsToldTo(s) && !s.stopping
    ensures CanRun(s, steps) && |steps| <= WayHome(s.worker) <= 5
    ensures forall step | step in steps :: step.OfWorker() && step != Dispatch(true)
    ensures Run(s, steps).worker.Accepting? && !Run(s, steps).stopping
    decreases WayHome(s.worker)
  {
    hide Apply, Enabled;
    steps := [];
    if !s.worker.Accepting? {
      HomewardShrinks(s);
      var rest := ComesBack(Apply(s, Homeward(s.worker)));
      steps := [Homeward(s.worker)] + rest;
      assert steps[1..] == rest;
    }
  }

  /** In every state a run can reach, the worker has exited only if `stop` was called; otherwise it comes
      back to `accept`, and with a connection waiting there it gets that one to the handler. */
  lemma ServesUntilStopped(s: State)
    requires Reachable(s)
    ensures s.worker.Exited? ==> s.stopping
    ensures !s.stopping ==>
              exists steps :: CanRun(s, steps) && |steps| <= 5 && Dispatch(true) !in steps
                              && Run(s, steps).worker.Accepting? && !Run(s, steps).stopping
    ensures !s.stopping && s.worker.Accepting? && s.backlog > 0 ==>
              exists steps :: CanRun(s, steps) && |steps| == 8 && Run(s, steps).worker == Handling(s.nextConn)
  {
    InvReachable(s);
    if !s.stopping {
      var back := ComesBack(s);
      if s.worker.Accepting? && s.backlog > 0 {
        var steps := CanServe(s, 0, s.nextConn);
        Prefix(s, steps, 8);
        StoppedBefore(s, steps, 8);
        AllOfWorker(steps[..8]);
        ServesNext(s, steps[..8]);
      }
    }
  }

  /** A prefix of a run is one. */
  lemma {:induction false} Prefix(s: State, steps: seq<Step>, n: nat)
    requires CanRun(s, steps) && n <= |steps|
    ensures CanRun(s, steps[..n])
    decreases |steps|
  {
    if n > 0 {
      Prefix(Apply(s, steps[0]), steps[1..], n - 1);
      assert steps[..n][1..] == steps[1..][..n - 1];
    }
  }

  lemma {:induction false} StoppedBefore(s: State, steps: seq<Step>, n: nat)
    requires CanRun(s, steps) && n <= |steps| && CanRun(s, steps[..n])
    ensures Run(s, steps[..n]).stopping ==> Run(s, steps).stopping
    decreases |steps|
  {
    if n == 0 {
      assert steps[..n] == [];
      if s.stopping {
        StoppingStays(s, steps);
      }
    } else {
      assert steps[..n][1..] == steps[1..][..n - 1];
      StoppedBefore(Apply(s, steps[0]), steps[1..], n - 1);
    }
  }

  lemma {:induction false} AllOfWorker(steps: seq<Step>)
    requires forall step | step in steps :: step.OfWorker()
    ensures WorkerPart(steps) == steps
  {
    if steps != [] {
      AllOfWorker(steps[1..]);
    }
  }

  /** The connection goes to be cleared without a handler call only because `stop` was called, its
      frame could not be read, or its frame is not a command. */
  lemma ClearedUnserved(s: State, step: Step)
    requires Enabled(s, step) && !s.worker.Clearing? && Apply(s, step).worker.Clearing?
    ensures step == Finish || s.stopping || step == FrameRead(false) || step == Dispatch(false)
    ensures s.worker.Serving() == Some(Apply(s, step).worker.c)
  {
  }

  // ----- Every connection and every call, counted -----

  /** The connections made during a run: by clients, and by `stop` to wake the worker. */
  function Arrivals(s: State, steps: seq<Step>): nat
    requires CanRun(s, steps)
    decreases |steps|
  {
    if steps == [] then 0
    else One(steps[0].ClientConnects? || (steps[0].Connect? && s.path && s.backlog < s.capacity))
         + Arrivals(Apply(s, steps[0]), steps[1..])
  }

  /** No connection is lost or invented: those that were waiting or have arrived have been accepted, have
      failed in `accept`, or are waiting. Once the socket file is gone none arrives. */
  lemma {:induction false} ConnectionsAccounted(s: State, steps: seq<Step>)
    requires CanRun(s, steps)
    ensures var t := Run(s, steps);
            && s.backlog + Arrivals(s, steps)
               == t.backlog + multiset(steps)[Accept] + multiset(steps)[AcceptFails(true)]
            && t.nextConn == s.nextConn + multiset(steps)[Accept] && t.capacity == s.capacity
            && (!s.path ==> Arrivals(s, steps) == 0 && !t.path)
    decreases |steps|
  {
    hide Apply, Enabled;
    if steps != [] {
      assert steps == [steps[0]] + steps[1..];
      ConnectionStep(s, steps[0]);
      ConnectionsAccounted(Apply(s, steps[0]), steps[1..]);
    }
  }

  lemma ConnectionStep(s: State, step: Step)
    requires Enabled(s, step)
    ensures var t := Apply(s, step);
            && s.backlog + One(step.ClientConnects? || (step.Connect? && s.path && s.backlog < s.capacity))
               == t.backlog + One(step == Accept || step == AcceptFails(true))
            && t.nextConn == s.nextConn + One(step == Accept) && t.capacity == s.capacity
            && (!s.path ==> !step.ClientConnects? && !t.path)
  {
    hide CanRun;
  }

  /** From launch, with no connection waiting, that is all there is; and the first is number 0. */
  lemma FromLaunch(capacity: nat, steps: seq<Step>)
    requires capacity >= 1 && CanRun(Init(capacity), steps)
    ensures var t, counts := Run(Init(capacity), steps), multiset(steps);
            && Arrivals(Init(capacity), steps) == t.backlog + counts[Accept] + counts[AcceptFails(true)]
            && t.nextConn == counts[Accept] && t.backlog <= t.capacity == capacity
            && (Swap !in steps ==> !t.stopping && t.path)
  {
    ConnectionsAccounted(Init(capacity), steps);
    InvRun(Init(capacity), steps);
    if Swap !in steps {
      NotStopped(Init(capacity), steps);
    }
  }

  lemma {:induction false} NotStopped(s: State, steps: seq<Step>)
    requires CanRun(s, steps) && !s.stopping && s.path && s.stopper.Outside? && Swap !in steps
    ensures !Run(s, steps).stopping && Run(s, steps).path
    decreases |steps|
  {
    if steps != [] {
      NotStopped(Apply(s, steps[0]), steps[1..]);
    }
  }

  function One(b: bool): nat {
    if b then 1 else 0
  }

  /** After a failed `accept` that has not been decided about. */
  predicate Undecided(w: Worker) {
    w == Accepted(None) || w.Failing?
  }

  /** Every handler call has a frame read for it and is finished before the next; every backoff is slept
      through; and until `stop`, every failed `accept` is decided about. */
  lemma {:induction false} CallsAccounted(s: State, steps: seq<Step>)
    requires CanRun(s, steps)
    ensures var t, counts := Run(s, steps), multiset(steps);
            && counts[Dispatch(true)] + One(s.worker.Handling?) == counts[Finish] + One(t.worker.Handling?)
            && counts[Dispatch(true)] + counts[Dispatch(false)] + One(t.worker.Checking? || t.worker.Dispatching?)
               <= counts[FrameRead(true)] + One(s.worker.Checking? || s.worker.Dispatching?)
            && counts[Decide(false)] + One(s.worker.Sleeping?) == counts[Wake] + One(t.worker.Sleeping?)
            && (!t.stopping ==>
                  counts[AcceptFails(true)] + counts[AcceptFails(false)] + One(Undecided(s.worker))
                  == counts[Decide(true)] + counts[Decide(false)] + One(Undecided(t.worker)))
    decreases |steps|
  {
    hide Apply, Enabled, Undecided;
    if steps != [] {
      assert steps == [steps[0]] + steps[1..];
      CallStep(s, steps[0]);
      BackoffStep(s, steps[0]);
      if s.stopping {
        StoppingStays(s, steps);
      }
      CallsAccounted(Apply(s, steps[0]), steps[1..]);
    }
  }

  lemma CallStep(s: State, step: Step)
    requires Enabled(s, step)
    ensures var v, w := s.worker, Apply(s, step).worker;
            && One(step == Dispatch(true)) + One(v.Handling?) == One(step == Finish) + One(w.Handling?)
            && One(step.Dispatch?) + One(w.Checking? || w.Dispatching?)
               <= One(step == FrameRead(true)) + One(v.Checking? || v.Dispatching?)
  {
  }

  lemma BackoffStep(s: State, step: Step)
    requires Enabled(s, step)
    ensures var v, w := s.worker, Apply(s, step).worker;
            && One(step == Decide(false)) + One(v.Sleeping?) == One(step == Wake) + One(w.Sleeping?)
            && (!s.stopping ==>
                  One(step.AcceptFails?) + One(Undecided(v)) == One(step.Decide?) + One(Undecided(w)))
  {
  }

  /** The connections of the handler calls that begin during a run. */
  function Called(s: State, steps: seq<Step>): seq<nat>
    requires CanRun(s, steps)
    decreases |steps|
  {
    if steps == [] then []
    else (if steps[0] == Dispatch(true) then [s.worker.c] else []) + Called(Apply(s, steps[0]), steps[1..])
  }

  /** The connection that the worker has and has not yet called the handler for. */
  function Pending(w: Worker): Option<nat> {
    match w
    case Accepted(conn) => conn
    case Cloning(c) => Some(c)
    case Registering(c) => Some(c)
    case Rechecking(c) => Some(c)
    case Reading(c) => Some(c)
    case Checking(c) => Some(c)
    case Dispatching(c) => Some(c)
    case _ => None
  }

  /** The first connection that may still get a handler call. */
  function Uncalled(s: State): nat {
    if Pending(s.worker).Some? then Pending(s.worker).value else s.nextConn
  }

  predicate Numbered(s: State) {
    Pending(s.worker).Some? ==> Pending(s.worker).value < s.nextConn
  }

  lemma UncalledGrows(s: State, step: Step)
    requires Enabled(s, step) && Numbered(s)
    ensures Numbered(Apply(s, step)) && Uncalled(s) <= Uncalled(Apply(s, step))
    ensures step == Dispatch(true) ==> Uncalled(s) == s.worker.c < Uncalled(Apply(s, step))
  {
  }

  /** Connections are served in the order they were accepted, and each gets at most one handler call. */
  lemma {:induction false} CalledOnceInOrder(s: State, steps: seq<Step>)
    requires CanRun(s, steps) && Numbered(s)
    ensures Numbered(Run(s, steps)) && Uncalled(s) <= Uncalled(Run(s, steps))
    ensures forall i | 0 <= i < |Called(s, steps)| :: Uncalled(s) <= Called(s, steps)[i] < Uncalled(Run(s, steps))
    ensures forall i, j | 0 <= i < j < |Called(s, steps)| :: Called(s, steps)[i] < Called(s, steps)[j]
    decreases |steps|
  {
    hide Apply, Enabled, Uncalled, Numbered;
    if steps != [] {
      UncalledGrows(s, steps[0]);
      CalledOnceInOrder(Apply(s, steps[0]), steps[1..]);
    }
  }

  // ----- No lost cancellation -----

  /** Once `stop` has published `stopping` and inspected the slot, a worker still in the frame
      read is reading a connection that has been shut down. */
  lemma NoLostCancellation(s: State)
    requires Reachable(s)
    ensures s.slot == s.worker.Serving()
    ensures s.inspected && s.worker.Reading? ==> s.worker.c in s.shut
  {
    InvReachable(s);
  }

  // ----- Quiescence -----

  /** After the swap no connection begins to be served, and whatever is being read afterwards
      was already being read at the swap. */
  lemma {:induction false} NothingNewIsServed(s: State, steps: seq<Step>)
    requires s.stopping && CanRun(s, steps)
    ensures Run(s, steps).stopping
    ensures Run(s, steps).worker.Reading? ==> Run(s, steps).worker == s.worker
    decreases |steps|
  {
    if steps != [] {
      NothingNewIsServed(Apply(s, steps[0]), steps[1..]);
    }
  }

  /** Handler calls that begin during a run. */
  function Dispatched(steps: seq<Step>): nat {
    if steps == [] then 0
    else (if steps[0] == Dispatch(true) then 1 else 0) + Dispatched(steps[1..])
  }

  lemma {:induction false} DispatchedCounts(s: State, steps: seq<Step>)
    requires s.stopping && CanRun(s, steps)
    ensures Run(s, steps).stopping
    ensures Run(s, steps).begunAfter == s.begunAfter + Dispatched(steps)
    decreases |steps|
  {
    if steps != [] {
      DispatchedCounts(Apply(s, steps[0]), steps[1..]);
    }
  }

  /** From the swap on, at most one further handler call begins; and only if its check of
      `stopping` had already passed. */
  lemma AtMostOneMoreCall(s: State, steps: seq<Step>)
    requires Reachable(s) && !s.stopping && Enabled(s, Swap) && CanRun(Apply(s, Swap), steps)
    ensures Dispatched(steps) <= 1
    ensures !s.worker.Dispatching? ==> Dispatched(steps) == 0
  {
    InvReachable(s);
    var t := Apply(s, Swap);
    InvKept(s, Swap);
    InvRun(t, steps);
    DispatchedCounts(t, steps);
    if !s.worker.Dispatching? {
      NoDispatch(t, steps);
    }
  }

  lemma {:induction false} NoDispatch(s: State, steps: seq<Step>)
    requires s.stopping && !s.worker.Dispatching? && CanRun(s, steps)
    ensures Dispatched(steps) == 0
    decreases |steps|
  {
    if steps != [] {
      NoDispatch(Apply(s, steps[0]), steps[1..]);
    }
  }

  /** `stop` itself never waits for the worker: from any state its four steps are enabled one after the
      other, and they leave the connection being served shut down, one more in the backlog if
      there was room, and the socket file gone. A second call only sees to the file. */
  lemma StopReturns(s: State)
    requires Reachable(s) && s.stopper.Outside?
    ensures !s.stopping ==>
              && CanRun(s, [Swap, Inspect, Connect, Remove])
              && var t := Run(s, [Swap, Inspect, Connect, Remove]);
                 && t.stopping && t.stopper.Outside? && !t.path && t.worker == s.worker && t.slot == s.slot
                 && t.shut == s.shut + (match s.worker.Serving() case Some(c) => {c} case None => {})
                 && t.backlog == (if s.backlog < s.capacity then s.backlog + 1 else s.backlog)
    ensures s.stopping ==> CanRun(s, [Swap, Remove]) && Run(s, [Swap, Remove]) == s && !s.path
  {
    hide CanRun, Run;
    InvReachable(s);
    var t := Apply(s, Swap);
    if s.stopping {
      RunOn(t, Remove, []);
      RunOn(s, Swap, [Remove]);
      assert [Swap] + [Remove] == [Swap, Remove] && [Remove] + [] == [Remove];
    } else {
      var u := Apply(t, Inspect);
      var v := Apply(u, Connect);
      RunOn(v, Remove, []);
      RunOn(u, Connect, [Remove]);
      RunOn(t, Inspect, [Connect, Remove]);
      RunOn(s, Swap, [Inspect, Connect, Remove]);
      assert [Remove] + [] == [Remove] && [Connect] + [Remove] == [Connect, Remove];
      assert [Inspect] + [Connect, Remove] == [Inspect, Connect, Remove];
      assert [Swap] + [Inspect, Connect, Remove] == [Swap, Inspect, Connect, Remove];
    }
  }

  lemma RunOn(s: State, step: Step, rest: seq<Step>)
    requires Enabled(s, step)
    ensures CanRun(s, [step] + rest) <==> CanRun(Apply(s, step), rest)
    ensures CanRun(Apply(s, step), rest) ==> Run(s, [step] + rest) == Run(Apply(s, step), rest)
    ensures forall t: State :: CanRun(t, []) && Run(t, []) == t
  {
    assert ([step] + rest)[1..] == rest;
  }

  // ----- The worker exits -----

  /** The longest way out for a worker that meets `stopping` at its next check. */
  function WayOut(w: Worker): nat {
    match w
    case Exited => 0
    case Top => 1
    case Accepted(_) => 1
    case Accepting => 2
    case Sleeping => 2
    case Clearing(_) => 2
    case Failing => 3
    case Rechecking(_) => 3
    case Handling(_) => 3
    case Checking(_) => 3
    case Dispatching(_) => 4
    case Reading(_) => 4
    case Registering(_) => 4
    case Cloning(_) => 5
  }

  function WorkerSteps(steps: seq<Step>): nat {
    if steps == [] then 0 else (if steps[0].OfWorker() then 1 else 0) + WorkerSteps(steps[1..])
  }

  lemma WayOutShrinks(s: State, step: Step)
    requires s.stopping && Enabled(s, step)
    ensures Apply(s, step).stopping
    ensures WayOut(Apply(s, step).worker) + (if step.OfWorker() then 1 else 0) <= WayOut(s.worker)
  {
  }

  /** Once `stopping` is published the worker has at most five steps left, whatever clients and
      further calls of `stop` do in between. */
  lemma {:induction false} WorkerRunsOut(s: State, steps: seq<Step>)
    requires s.stopping && CanRun(s, steps)
    ensures WorkerSteps(steps) + WayOut(Run(s, steps).worker) <= WayOut(s.worker) <= 5
    decreases |steps|
  {
    if steps != [] {
      WayOutShrinks(s, steps[0]);
      WorkerRunsOut(Apply(s, steps[0]), steps[1..]);
    }
  }

  /** Once the wake-up is made, hence once `stop` has returned, the worker always has a next step:
      in particular it never waits in `accept` with an empty backlog. */
  lemma WorkerNeverBlocks(s: State) returns (step: Step)
    requires Reachable(s) && !s.worker.Exited?
    requires s.connected || (s.stopping && s.stopper.Outside?)
    ensures step.OfWorker() && Enabled(s, step)
  {
    InvReachable(s);
    step := match s.worker
      case Top => LoadTop
      case Accepting => Accept
      case Accepted(_) => LoadAccepted
      case Cloning(_) => Clone(true)
      case Registering(_) => Register
      case Rechecking(_) => Recheck
      case Reading(_) => FrameRead(false)
      case Checking(_) => LoadChecked
      case Dispatching(_) => Dispatch(false)
      case Handling(_) => Finish
      case Clearing(_) => Clear
      case Failing => Decide(true)
      case _ => Wake;
  }
}
