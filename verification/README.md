# Melaffeine, modelled and proved in Dafny

Melaffeine keeps a Mac awake from the menu bar. This project models the parts of it where a mistake
leaves a machine that never sleeps again, or one that sleeps when it was told not to, and proves what
those parts promise. `dafny verify dfyconfig.toml` checks everything.

## How the model is laid out

| file | component |
|---|---|
| `LidLedger.dfy` | the history of lid-session calls, shared by the two layers below |
| `GuardianProtocol.dfy` | the guardian script and the application as interleaved atomic steps, with a crash at any of them |
| `Platform.dfy` | the world as a class: answers nobody can predict, the clock, run-loop timers, assertion handles, and the state of the guardian protocol |
| `LidSession.dfy`, `Power.dfy` | the owners of a guardian and of a power assertion |
| `Delegate.dfy` | the application delegate: every method that touches the session state, with its rollbacks |
| `Application.dfy` | whole runs from launch, and what holds after each |
| `AcceptStop.dfy` | the accept thread of the command server, serving, and being stopped |
| `FrameReader.dfy`, `Utf8.dfy` | reading one bounded frame, serving one connection, both ends of the exchange |
| `Ipc.dfy`, `DurationText.dfy`, `Text.dfy` | commands, responses and durations as text |
| `ShellQuoting.dfy` | quoting for the shell inside quoting for AppleScript |
| `DiagnosticDrain.dfy` | the bounded, cancellable drain of the guardian's standard error |

**Two layers meet in one state.** The methods of `Delegate` act on a `Machine` whose field `sys` is a
state of the guardian protocol, and whose ghost field `trace` is the sequence of protocol steps taken
since launch. So every theorem about all runs of the protocol speaks about every run of the delegate,
and also about the moments inside an event, because each prefix of `trace` is such a moment.

**Oracles.** Whether the i-th platform call succeeds or the i-th access finds the `RefCell` borrowed is
`choice(i)`; the thermal state is `heat(i)`; the n-th clock reading is `clock(n)`. They are arbitrary
functions, so each contract holds for every pattern of failures, busy states and clock readings.

**What goes wrong is recorded rather than assumed away.** `refusals` counts the accesses that were
refused and `lateStart` remembers that some lid-closed session had already expired at the moment its
own start scheduled its expiry (crates/app/src/app_delegate.rs:626-628). A contract that needs
accesses to be granted needs it of that one call (`Granted`); only whether the live timers match the
fields depends on earlier refusals, and no longer than until they match again (`Matched`, `Settle`).
What is promised of overlapping guardians hangs on the ledger itself, and `Delegates.Delegate.Dispatch`
says which call alone can make them overlap. No hypothesis is needed for conservation of lid sessions,
for the thermal timer, for not stopping a finite session before its end, nor for what a stop, a
thermal check, an expiry or a successful start does to the sleep setting: each answer that decides it
is named.

## What the code does that its comments do not say

- A start is answered with success, and leaves a lid session held with no power session and no expiry
  timer, if the clock passes the end of the session between `power.start` and the first
  `schedule_expiry_timer`. As long as no access is refused this happens exactly then, as
  `Delegates.Delegate.HandleStartStop` states; `Application.LateStart` is a whole run of it in which
  nothing else goes wrong.
- The next lid-closed start then enables the new guardian before it stops the old one, which clears the
  setting: the answer is success, a lid session and a power session are held, and the setting is 0.
  `Application.SecondStart` is that run. `Delegates.Delegate.HandleStartStop` has the exact
  condition: a successful lid-closed start leaves the setting at 1 if and only if no lid session was
  held before it. `GuardianProtocol.OverlapLosesTheFlag` is the same loss among guardians alone.
- `check_thermal_state` treats a refused first look as "no lid session" and then stops the one there
  is, on a cool machine too (crates/app/src/app_delegate.rs:1020-1031).
  `Delegates.Delegate.CheckThermalState` says exactly when a check stops the session, and
  `Application.CoolMachineStopsLid` is a run with one refusal and no heat.
- A start that fails to store its new lid session leaves the power session active if only storing it
  was refused, or if the look for an earlier one was refused and the stop of the roll-back too
  (crates/app/src/app_delegate.rs:549-588). `Delegates.Delegate.InstallLidSession` and
  `Delegates.Delegate.HandleStartStop` have this as an equivalence, and `Application.RefusedStore` is a
  run with one refusal.
- An expiry timer whose storing is refused stays live with no field referring to it, and nothing can
  cancel it (crates/app/src/app_delegate.rs:760-766). It never stops a finite session early, but it
  stops an indefinite one that has followed, because that has no end to compare with.
  `Application.RunQuietly` says that nothing else does, and `Application.StrayTimerStopsIndefinite` is a
  run with one refusal.
- The README's `read _` is `read -r _` in the script; a line would release the guardian as well as
  the end of file, but the application never writes one.
- A response keeps its text only up to its margins, and of several lines only the first: `ERR` followed
  by a message with trailing blanks comes back without them. `FrameReader.ResponseArrives` and
  `Ipc.ResponseRoundTrip` say exactly what comes back.

That an error from stopping a lid session may leave the setting at 0 or at 1 is what the code documents
(crates/app/src/lid.rs:308-311): the setting stays on exactly if the reset itself failed
(`LidSessions.LidSession.Stop`), and `Application.StopAnswersError` has a run of either kind.

## Model

| member | source | states |
|---|---|---|
| GuardianProtocol.InvKept | crates/app/src/lid.rs:151-170 | every atomic step of guardian or application, a crash included, keeps ownership of pipes, the ledger, cover for a set flag, and exclusion |
| GuardianProtocol.InvAfter | crates/app/src/lid.rs:151-358 | the invariant holds after every run from launch, stale setting or not |
| GuardianProtocol.SetFlagIsCovered | crates/app/src/lid.rs:151-156 | in every interleaving with a crash anywhere, a set flag has a live guardian whose reset is still to come, unless tainted |
| GuardianProtocol.TaintExplained | crates/app/src/lid.rs:151-156 | exactly what tainted means: some failed reset, or a stale setting at launch, with no successful clearing since |
| GuardianProtocol.OwnedGuardian | crates/app/src/lid.rs:248-252 | a guardian that can still be stopped has not reset, and one held is blocked in its read |
| GuardianProtocol.DeadRunIsShort | crates/app/src/lid.rs:151-156 | after the application has died only guardians move, and every move uses up a script step |
| GuardianProtocol.NoGuardianIsStuck | crates/app/src/lid.rs:154-155 | after a crash every live guardian has a next step: its read returns |
| GuardianProtocol.LeftSet | crates/app/src/lid.rs:151-156 | a guardian that owes a reset makes it before it is gone: exactly when a set flag survives all guardians |
| GuardianProtocol.CrashRecovery | crates/app/src/lid.rs:26-37 | the steps after a crash are bounded; when all guardians are gone the flag is set only if it was tainted and never cleared or the last attempt failed, and if no reset fails exactly if it was set, no guardian owed a reset at the crash, and none enabled after it |
| GuardianProtocol.SettledMeansClear | crates/app/src/lid.rs:151-156 | with every guardian gone a set flag can only be a tainted one |
| GuardianProtocol.AtMostOneGuardian | crates/app/src/lid.rs:312-347 | if sessions start only when none is open, two live guardians are the same one |
| GuardianProtocol.HeldMeansEnabled | crates/app/src/lid.rs:296-303 | under the same discipline the flag is 1 from the acknowledgment until `finish` begins |
| GuardianProtocol.NoOvertaking | crates/app/src/lid.rs:312-358 | at every moment of a run at most one guardian is live, at most one session held, and one that is held has the flag at 1 and its guardian waiting |
| GuardianProtocol.CrashAtAnyMoment | crates/app/src/lid.rs:151-170 | the same for a crash at any moment of a run, stale or tainted or not; under the discipline at most one pass of the script follows |
| GuardianProtocol.OverlapLosesTheFlag | crates/app/src/lid.rs:263-310 | without the discipline it fails: of two overlapping sessions, stopping either clears the flag under the other |
| LidLedger.EachStoppedOnce | crates/app/src/lid.rs:312-358 | in a legal history every session is started at most once, and stopped exactly once or still open |
| LidLedger.AtMostOneOpen | crates/app/src/app_delegate.rs:548-549 | a history that keeps to the discipline never has two open sessions |
| Platform.Machine.ProtocolHolds | crates/app/src/lid.rs:151-170 | whatever the application has done, its guardians are in a reachable state of the protocol |
| LidSessions.LidSession.CloseInput | crates/app/src/lid.rs:316-317 | closes this guardian's pipe and no other, before its reset can have happened |
| LidSessions.LidSession.Wait | crates/app/src/lid.rs:324-327 | returns when this guardian has exited; for a session in use the exit status is the reset's answer, and it alone decides the setting |
| LidSessions.LidSession.GuardianMoves | crates/app/src/lid.rs:151-156 | one script step of one guardian, with what each leaves of the setting and the taint |
| LidSessions.LidSession.AwaitReady | crates/app/src/lid.rs:289-298 | an acknowledgment means the setting is 1 |
| LidSessions.LidSession.Finish | crates/app/src/lid.rs:316-347 | stops and reaps the guardian whatever fails, and records it once; when it errs, and that only the reset decides the setting; a second call does nothing |
| LidSessions.LidSession.Restore | crates/app/src/lid.rs:349-358 | succeeds exactly if the reset and the join of the drain do; the setting stays on exactly if the reset failed |
| LidSessions.LidSession.Drop | crates/app/src/lid.rs:374-382 | never restores a second time |
| LidSessions.LidSession.Stop | crates/app/src/lid.rs:312-314 | stops exactly its own guardian once, although the drop follows; succeeds exactly if reset and join do, and the setting stays on exactly if the reset failed |
| LidSessions.StartLid | crates/app/src/lid.rs:263-306 | succeeds exactly if its six answers are yes, and owns exactly one new guardian with the setting at 1; an error leaves no guardian behind on any of its paths, and the setting as exactly the reset and enable answers say |
| LidSessions.LidSession.Start | crates/app/src/lid.rs:274-306 | the part with a child to account for: an error has reaped it, a success has its acknowledgment |
| Power.PowerController.Start | crates/app/src/power.rs:118-140 | on success exactly the asked session is active, with one assertion of the asked kind, and it ends exactly the asked seconds and nanoseconds after the reading; on error nothing is; overflow exactly when the clock cannot hold that end |
| Power.PowerController.Stop | crates/app/src/power.rs:143-145 | releases the assertion, so handles held are exactly the session's |
| Delegates.Delegate.constructor | crates/app/src/app_delegate.rs:223-300 | at launch everything is off and the invariant holds |
| Delegates.Delegate.UpdateUi | crates/app/src/app_delegate.rs:776-833 | refreshing the display only ever adds a countdown timer, and a finite session shown in the open popover has one unless an access was refused |
| Delegates.Delegate.ShowError | crates/app/src/app_delegate.rs:888-894 | the message is shown exactly if its first access is granted |
| Delegates.Delegate.ClearError | crates/app/src/app_delegate.rs:896-904 | clears every message but the thermal notice, exactly if its first access is granted |
| Delegates.Delegate.ReportError | crates/app/src/app_delegate.rs:721-727 | the error of a stop is shown exactly if the first access is granted, and what is off stays off |
| Delegates.Delegate.StartCountdownTimerIfNeeded | crates/app/src/app_delegate.rs:907-926 | the countdown timer is armed for a finite session in an open popover, and for nothing else |
| Delegates.Delegate.TakeLidSession | crates/app/src/app_delegate.rs:1056-1061 | the session leaves the state together with its thermal timer |
| Delegates.Delegate.InvalidateTimers | crates/app/src/app_delegate.rs:1064-1073 | no timer of the session stays live, and the lid session is handed over |
| Delegates.Delegate.ReleaseLid | crates/app/src/app_delegate.rs:735-741 | stops a session in transit exactly once, on error too; when it succeeds and what it leaves of the setting, exactly |
| Delegates.Delegate.StopSession | crates/app/src/app_delegate.rs:708-719 | everything goes off together and the lid session is stopped once, or the access was refused and nothing changed; exactly when it succeeds and what it leaves of the setting |
| Delegates.Delegate.ReleaseOld | crates/app/src/app_delegate.rs:601-612 | the first half of a start: everything goes off, and it goes on exactly if the access is granted and normal sleep is back |
| Delegates.Delegate.ScheduleExpiryTimer | crates/app/src/app_delegate.rs:746-774 | decides to stop the session if and only if it gets at the state and the reading is at or after the end, and then stops it exactly if the second access is granted; else arms a timer over exactly what is left |
| Delegates.Delegate.StartPower | crates/app/src/app_delegate.rs:613-619 | the new power session and its end from the clock reading taken there |
| Delegates.Delegate.StartSession | crates/app/src/app_delegate.rs:596-631 | success leaves the asked power session, ending exactly the asked length after the reading it began from, or everything off exactly when the second reading was past that end (as long as no access is refused); what it leaves of the setting, and which error is shown; stray expiry timers survive it |
| Delegates.Delegate.RollBackInstall | crates/app/src/app_delegate.rs:554-568 | the rollback stops the new session once, also when the old one could not be restored, and the power session goes exactly if its stop gets at the state; the error it answers names exactly what went wrong |
| Delegates.Delegate.InstallLidSession | crates/app/src/app_delegate.rs:549-589 | with no earlier session: succeeds exactly if both its accesses are granted; exactly when an error leaves the power session active, what it leaves of the setting and what the error names; otherwise the new session has been stopped, once |
| Delegates.Delegate.ObtainLidSession | crates/app/src/app_delegate.rs:503-523 | obtains a session exactly if the machine is cool and the first guardian starts or, for an interactive start, the user is found, grants the password, the permission verifies and a second guardian starts; exactly which error otherwise, and how many prompts |
| Delegates.Delegate.StartAuthorized | crates/app/src/app_delegate.rs:510-522 | after a failed first guardian: exactly which of its nine answers decide whether it authorizes and starts a second |
| Delegates.Delegate.Authorize | crates/app/src/lid.rs:60-83 | one prompt exactly if the user is found; verified exactly if all three answers are yes, and then the setting is cleared |
| Delegates.Delegate.StartAndInstall | crates/app/src/app_delegate.rs:526-545 | success leaves what was asked for and the setting at 1 exactly if it was and no earlier lid session was held; for an unhindered start, exactly when it fails and what is then on |
| Delegates.Delegate.TryStartStop | crates/app/src/app_delegate.rs:461-545 | the outcome agrees with the state and with the sleep setting; for a lid-closed start, exactly which answers make it fail, with which error and how many prompts, and whether the power session and the setting then stay on |
| Delegates.Delegate.HandleStartStop | crates/app/src/app_delegate.rs:453-459 | if no access is refused, `Ok(true)` means active exactly if the clock had not passed the end, and `Ok(false)` and errors mean everything off except a lid session already held with no power; in any case a successful lid-closed start has the setting at 1 exactly if none was held, and an unhindered one fails exactly as its answers say |
| Delegates.Delegate.CheckThermalState | crates/app/src/app_delegate.rs:1019-1047 | exactly when a check stops the lid session, for every pattern of heat and refused accesses, once, what that leaves of the setting, and when the mode goes back; the power session stays |
| Delegates.Delegate.ExecuteIpcCommand | crates/app/src/app_delegate.rs:634-702 | what each answer says about the state it leaves: the status text is a proper reading of the unbounded number of minutes left, rounded up, a start ends exactly the asked length after the reading it began from, an error answered to a stop is the one shown; what stop and quit leave of the setting; no command prompts for a password |
| Delegates.Delegate.Teardown | crates/app/src/app_delegate.rs:937-956 | the server goes off exactly if the first access is granted, and everything else with the second, the lid session stopped once |
| Delegates.Delegate.Fire | crates/app/src/app_delegate.rs:1010-1016 | what each live timer does when it fires: a thermal check drops the lid session exactly under its pattern of heat and accesses; an expiry timer, referred to or not, never stops a finite session before its end but arms a timer over exactly what is left, and stops it after, or an indefinite one, exactly if neither of two accesses is refused |
| Delegates.Delegate.Quit | crates/app/src/app_delegate.rs:179-184 | ends everything, or shows why normal sleep could not be restored and goes on, exactly as the accesses and the two answers of the stop say |
| Delegates.Delegate.NoTimeLimitChanged | crates/app/src/app_delegate.rs:161-170 | lid-closed mode is given up without a time limit, exactly if the access is granted, and the error is cleared |
| Delegates.Delegate.ClosePopover | crates/app/src/app_delegate.rs:362-381 | when the popover is closed and its countdown timer gone, for each pattern of its three accesses |
| Delegates.Delegate.Dispatch | crates/app/src/app_delegate.rs:110-186 | each event does what it is for, and answers accordingly: a timer fires as `Fire` says, a click or command as its outcome, termination and quit turn everything off; the invariant is kept whatever fails; only a click, a toggle or a start turns anything on, only a click prompts; only a toggle to lid-closed mode beside a held lid session with no power makes guardians overlap; a quiet event ends a session exactly if it is the fire of a live expiry timer at or after its end |
| Delegates.Delegate.Settle | crates/app/src/app_delegate.rs:1056-1073 | where fields and timers match, the invariant no longer depends on earlier refusals |
| Application.Launch | crates/app/src/app_delegate.rs:223-300 | the state the runs below begin in |
| Application.RunLoop | crates/app/src/app_delegate.rs:110-186 | every sequence of events is handled to its end and keeps the invariant, keeps timers matched unless an access is refused, and leaves a held and powered lid session and the setting untouched until it is stopped |
| Application.RunFromLaunch | crates/app/src/app_delegate.rs:110-186 | the invariant after every run from launch; without a click no password prompt; without a refusal timers and fields match |
| Application.EachSessionIsStoredOrStopped | crates/app/src/app_delegate.rs:549-589 | after every run, with any failures and busy states: each session ever started is stored, or was stopped exactly once |
| Application.HeldLidIsPowered | crates/app/src/app_delegate.rs:506-545 | a held lid session never goes with an indefinite or display session, and without a late lid-closed start has a power session; while guardians have not overlapped it has the setting at 1 and its guardian waiting; where timers match, an armed expiry timer |
| Application.OverlapNeedsLateStart | crates/app/src/app_delegate.rs:506-545 | guardians can only have overlapped after some lid-closed session had expired at its own start |
| Application.TimersMatchSessions | crates/app/src/app_delegate.rs:1056-1073 | a thermal timer is live exactly while a lid session is held, always; where fields and timers match, an expiry timer exactly while a finite session is active, and never two; every periodic timer has its period |
| Application.NoLidMeansNormalSleep | crates/app/src/lid.rs:244-247 | with no lid session every guardian has exited and the setting is 0, unless stale or the last reset failed |
| Application.NoSessionOvertakesAnother | crates/app/src/app_delegate.rs:506-545 | as long as the application's own lid calls keep to the discipline, for every interleaving of guardians with them, at every step: at most one guardian is live, one session held, and none loses the setting |
| Application.CrashLeavesNormalSleep | crates/app/src/lid.rs:26-37 | in every such interleaving the application may die at any step: exactly when what follows leaves the setting on, and under the discipline at most four guardian steps follow |
| Application.OwnTraceIsOne | crates/app/src/lid.rs:151-358 | what the guardians did in the application's own run is one of the interleavings the two results above range over |
| Application.RunQuietly | crates/app/src/app_delegate.rs:110-186 | over any events without start, stop or termination, whatever is refused, a finite session survives until the clock is read at or after its end, an indefinite one until a stray expiry timer fires; with no refusal the session is over, and everything off, exactly if some live expiry timer has fired at a reading at or after its end |
| Application.FirstRun | crates/app/src/app_delegate.rs:506-522 | a whole run of the first lid-closed click: the first guardian fails for want of permission, one prompt, a second guardian, and success with the setting at 1 |
| Application.LateStart | crates/app/src/app_delegate.rs:524-542 | a whole run, with nothing failing, in which the clock hypothesis is violated and a lid session is held without power |
| Application.SecondStart | crates/app/src/app_delegate.rs:506-612 | that run continued by a click: success, a lid session and a power session held, and the setting at 0 |
| Application.RefusedStore | crates/app/src/app_delegate.rs:570-587 | a run with one refusal in which a lid-closed start answers an error and the power session stays active |
| Application.CoolMachineStopsLid | crates/app/src/app_delegate.rs:1020-1031 | a run with one refusal in which a thermal check stops the lid session of a machine that is never hot |
| Application.StopAnswersError | crates/app/src/lid.rs:308-347 | two runs in which a stop answers an error, with the setting at 1 because the reset failed, and at 0 because only the diagnostics did |
| Application.StrayTimerStopsIndefinite | crates/app/src/app_delegate.rs:746-774 | a run with one refusal in which the expiry timer of a replaced session stops an indefinite one |
| AcceptStop.InvKept | crates/app/src/ipc_server.rs:258-300 | each step of worker, stopper or client keeps the handshake's invariant |
| AcceptStop.ServesUntilStopped | crates/app/src/ipc_server.rs:258-300 | in every reachable state: the worker has exited only if `stop` was called; otherwise it can come back to `accept`, and with a connection waiting get that one to the handler |
| AcceptStop.ServesNext | crates/app/src/ipc_server.rs:258-282 | until `stop`, however clients come in between: a worker in `accept` whose clone, read and decoding succeed gets the next connection to the handler in eight steps of its own, and is back in `accept` after three more |
| AcceptStop.ComesBack | crates/app/src/ipc_server.rs:258-300 | until `stop`, some steps of its own, at most five and none of them a handler call, bring the worker back to `accept` from wherever it is |
| AcceptStop.ClearedUnserved | crates/app/src/ipc_server.rs:273-282 | a connection is dropped without a handler call only through `stop`, a failed read or an invalid frame |
| AcceptStop.ConnectionsAccounted | crates/app/src/ipc_server.rs:258-272 | over every run no connection is lost or invented: each that arrived was accepted, failed in `accept` or is waiting, and none arrives once the socket file is gone |
| AcceptStop.FromLaunch | crates/app/src/ipc_server.rs:258-272 | the same for a run from launch, where nothing is waiting; until `stop` the socket file stays |
| AcceptStop.CallsAccounted | crates/app/src/ipc_server.rs:258-300 | over every run each handler call has a frame read for it and is finished before the next, each backoff is slept through, and until `stop` each failed `accept` is decided about |
| AcceptStop.CalledOnceInOrder | crates/app/src/ipc_server.rs:258-282 | over every run connections are served in the order accepted, each at most once |
| AcceptStop.NoLostCancellation | crates/app/src/ipc_server.rs:258-282 | once the slot was inspected, a connection still being read has been shut down; the slot is exactly the connection served |
| AcceptStop.NothingNewIsServed | crates/app/src/ipc_server.rs:277-281 | after the swap no connection begins to be served |
| AcceptStop.AtMostOneMoreCall | crates/app/src/ipc_server.rs:200-209 | at most one handler call begins after the swap, and only if its check had passed before |
| AcceptStop.NoDispatch | crates/app/src/ipc_server.rs:200-203 | no call at all begins if none had passed its check |
| AcceptStop.WorkerRunsOut | crates/app/src/ipc_server.rs:258-300 | after the swap the worker has at most five steps left, whatever clients do |
| AcceptStop.WorkerNeverBlocks | crates/app/src/ipc_server.rs:353-368 | once the wake-up is made the worker always has a next step, in `accept` too |
| AcceptStop.StopReturns | crates/app/src/ipc_server.rs:353-368 | `stop` never waits for the worker: it leaves the connection being served shut down, one more in the backlog if there is room, and the socket file gone; a second call changes nothing |
| FrameReader.ReadFrame | crates/app/src/ipc_server.rs:140-175 | within budget the result is that of the chunk-free specification, whatever the chunking and interruptions: a frame is what the stream begins with, through its only newline and at most 4096 bytes; a failure it decides means there is none; at most 4097 bytes are taken; the reader ends |
| FrameReader.FrameSpecDecides | crates/app/src/ipc_server.rs:166-175 | a stream begins with exactly one frame, or has more than 4096 bytes without a newline in the first 4096, or at most 4096 without any |
| FrameReader.ServeConnection | crates/app/src/ipc_server.rs:177-213 | which command reaches the handler and which bytes go back, on every path |
| FrameReader.LineIsFrame | crates/app/src/ipc_server.rs:166-173 | a line that fits is one frame, whatever bytes follow |
| FrameReader.CommandFrame | crates/app-core/src/ipc.rs:299-299 | a sent command is one frame and denotes that command |
| FrameReader.CommandArrives | crates/app/src/ipc_server.rs:177-213 | end to end: an accepted line's command, sent in any chunking, reaches the handler unchanged, or nothing does |
| FrameReader.OneLineArrives | crates/app-core/src/ipc.rs:301-312 | a one-line response that fits reaches the client in its normal form |
| FrameReader.LongLineIsRefused | crates/app-core/src/ipc.rs:301-309 | a line that does not fit in a frame is refused |
| FrameReader.ResponseArrives | crates/app-core/src/ipc.rs:301-312 | what the client gets of any response: its first line in normal form if that fits in a frame, and otherwise an error |
| FrameReader.ReceivesExactly | crates/app-core/src/ipc.rs:301-312 | the client takes a response from exactly the first line: complete within 4096 bytes, well-formed UTF-8, and in the grammar of responses |
| FrameReader.RefusalsArrive | crates/app/src/ipc_server.rs:188-207 | what the server writes for an unreadable frame or an unknown command reaches the client as that error |
| Ipc.Serialize | crates/app-core/src/ipc.rs:338-368 | the line built denotes the command exactly if that lasts whole seconds from 1 to 31536000 or has no end |
| Ipc.Parse | crates/app-core/src/ipc.rs:372-412 | accepts exactly the lines of the grammar, with the command each denotes |
| Ipc.DenotesUnique | crates/app-core/src/ipc.rs:372-412 | no line denotes two commands |
| Ipc.CommandRoundTrip | crates/app-core/src/ipc.rs:338-412 | a command survives exactly if its duration is whole seconds from 1 to 31536000 |
| Ipc.SerializedIsNormalForm | crates/app-core/src/ipc.rs:338-412 | for every accepted line, what serializing its command gives is accepted as the same command |
| Ipc.ParseSerializedResponse | crates/app-core/src/ipc.rs:438-497 | for every response at all, what comes back is its normal form |
| Ipc.ResponseRoundTrip | crates/app-core/src/ipc.rs:438-497 | exactly the responses in normal form survive, empty messages included |
| Ipc.SerializedResponseInjective | crates/app-core/src/ipc.rs:438-459 | two responses with one wire form have one normal form |
| Ipc.AnswersExactly | crates/app-core/src/ipc.rs:462-497 | the response parser accepts exactly the lines of its grammar, each as the response it denotes |
| Ipc.StatusSurvives | crates/app/src/app_delegate.rs:636-651 | every status built from a countdown survives |
| DurationText.ParseDuration | crates/app-core/src/duration.rs:33-57 | accepts exactly what unbounded arithmetic puts between 1 and 31536000 seconds; u64 overflow never shows |
| DurationText.SpecAccepts | crates/app-core/src/duration.rs:122-137 | everything the documented grammar denotes is accepted with its length |
| DurationText.SpecOnlyAccepts | crates/app-core/src/duration.rs:122-137 | nothing else is accepted |
| DurationText.SpecMeans | crates/app-core/src/duration.rs:122-137 | what each unit letter is worth in seconds |
| DurationText.CountdownMinutesIsCeiling | crates/app-core/src/duration.rs:77-81 | the count is the unbounded ceiling up to the longest Duration: saturation never shows |
| DurationText.CountdownReads | crates/app-core/src/duration.rs:77-99 | the text is a proper reading of exactly the shown number of minutes, components below 60 and 24 |
| DurationText.CountdownShows | crates/app-core/src/duration.rs:77-99 | the text for a number of nanoseconds left is a proper reading of its unbounded ceiling in minutes |
| DurationText.ReadingUnique | crates/app-core/src/duration.rs:77-99 | no text has two readings |
| DurationText.ProperReadingDetermined | crates/app-core/src/duration.rs:77-99 | no number of minutes has two proper readings |
| DurationText.CountdownEqualIff | crates/app-core/src/duration.rs:77-99 | two durations print alike exactly when they show the same number of minutes |
| DurationText.CountdownMonotone | crates/app-core/src/duration.rs:77-99 | a longer time never shows fewer minutes |
| Utf8.DecodeEncoded | crates/app/src/ipc_server.rs:204-204 | every string survives its UTF-8 encoding |
| Utf8.DecodesExactly | crates/app/src/ipc_server.rs:204-204 | the decoder accepts exactly the encodings of strings |
| Utf8.NewlineOnlyFromNewline | crates/app/src/ipc_server.rs:171-173 | the newline byte comes from nothing but a newline |
| Text.TrimUnique | crates/app-core/src/duration.rs:123-123 | `trim` finds the one core between blank margins |
| Text.WordIterator.Next | crates/app-core/src/ipc.rs:378-379 | the iterator yields the words of the text one after the other |
| Text.WordsOfTrimmed | crates/app-core/src/ipc.rs:373-378 | trimming first changes nothing for the words |
| ShellQuoting.QuoteSh | crates/app/src/lid.rs:468-479 | the loop builds the quoted string |
| ShellQuoting.QuotedIsOneWord | crates/app/src/lid.rs:468-479 | wherever a word may start, the shell reads a quoted string as exactly that string |
| ShellQuoting.QuoteRoundTrip | crates/app/src/lid.rs:468-479 | for every string, lexing what `quote_sh` made gives one word equal to it (IEEE Std 1003.1, Shell Command Language, sections 2.2.1 and 2.2.2) |
| ShellQuoting.EscapeForAppleScript | crates/app/src/lid.rs:482-492 | the loop builds the escaped string |
| ShellQuoting.EscapeRoundTrip | crates/app/src/lid.rs:482-492 | the literal ends at its own closing quote and nowhere before, and reads back as the string |
| ShellQuoting.BuildOsascriptInstallScript | crates/app/src/lid.rs:495-513 | the script read back by AppleScript and then by the shell is exactly the commands meant, with a sudoers rule for this user as the only data of `printf` |
| ShellQuoting.InstallScriptCarriesRule | crates/app/src/lid.rs:495-513 | for every uid the shell reads the value of the AppleScript literal as exactly these commands: the rule goes to the temporary file, which is installed only if the checker accepts it, and the first failure ends the script |
| ShellQuoting.RuleGrants | crates/app/src/lid.rs:461-465 | for every uid the rule read back lets that user run exactly the two commands that set and clear the sleep setting |
| DiagnosticDrain.DrainDiagnostics | crates/app/src/lid.rs:208-240 | for any reads and polls the result is the first 4096 of all bytes read before the first ending turn, all of them if there are fewer, or that turn's failure |
| DiagnosticDrain.ReadBytes | crates/app/src/lid.rs:224-239 | what was read, byte by byte: each turn's bytes in order after those of the turns before it, and no others |
| DiagnosticDrain.FirstEndUnique | crates/app/src/lid.rs:208-240 | that turn, and so the result, is unique |
| DiagnosticDrain.CancellationEndsDrain | crates/app/src/lid.rs:196-206 | once cancellation is seen the drain ends exactly at the first turn that would block, is at the end or broken |
| DiagnosticDrain.AvailableDataIsRead | crates/app/src/lid.rs:208-240 | after cancellation everything before that turn is read, in order, and the result is the prefix of it all |
| DiagnosticDrain.NeverEndsEarly | crates/app/src/lid.rs:196-206 | without cancellation only the pipe or a failed poll ends it |

## Left out

- AppKit, Objective-C and IOKit, popover layout, icons, dates, event monitors, conflict notices: only the control values and the popover's visibility that the session code reads are kept.
- Failure of `wait`, and killing a guardian from outside: assumed not to happen; the code's own promise not to overtake rests on both.
- A failed enable or reset is assumed to leave the setting as it was; of the setting after a failed reset nothing is promised beyond the taint.
- A second launch while an earlier lifetime's guardian is still resetting, and anyone else changing the setting.
- Weak memory: the steps of `AcceptStop` are sequentially consistent, which the slot's mutex justifies.
- Socket binding, ownership of socket and lock files, directory permissions, the wake-up reaching a listener other than this one.
- The authorization dialog, the lookup of the user and `reset_if_stale` are single answers of the oracle; launch recovery is the parameters of `Application.Launch`.
- Rounding of timer intervals to `f64` seconds: timers here carry the exact remainder; timer tolerance; drift of the run loop (a timer may fire at any reading).
- The wording of answers and messages: which one is given or shown is stated, what its text says is not. Details inside error texts (process status, captured stderr) and logging, including the remembered kind of accept errors.
- Writes to a client that time out, and a client whose own timeout ends its wait.
- The second teardown that `terminate` causes is another event of `Application.RunLoop`; that no event follows process exit is not modelled.
- ShellQuoting.InstallScriptCarriesRule: double quotes and command substitution are lexed only as far as this script uses them, and the commands are recognized as words and operators, not interpreted.
- Delegates.Delegate.CheckThermalState: which message is shown when its own access to show it was refused is not stated.
- Delegates.Delegate.HandleStartStop: what is on or off after a start in which one of the seven accesses of the power session was refused, or the popover was open, is stated only through the invariant, conservation and the sleep setting.
- Application.NoSessionOvertakesAnother: once guardians have overlapped the promise does not come back, even when everything is off, because it is about the whole ledger; `Delegates.Delegate.HandleStartStop` and `Application.RunLoop` then still say what the setting is.
- Refreshing the display also reads the clock for the countdown text, and the popover makes further accesses to the state (its monitors, its conflict notice, showing and closing it); neither can change a session, and the n-th reading and the i-th answer here count only what the modelled calls make.
- AcceptStop.WorkerNeverBlocks: a handler or a write that never returns is a step that is never taken; the handler is assumed to return.
- `IpcCommand::serialize`'s debug assertion on durations above 365 days: release behaviour is modelled.
