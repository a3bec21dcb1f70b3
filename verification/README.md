# CrustCore supervision, verified

A Dafny model of the parts of CrustCore that decide what happens to supervised work, with proofs
about every run rather than single calls.

The centre is the supervised task registry: a lease, heartbeat, budget and cancellation state
machine over a bounded-concurrency scheduler. `RegistryModel.Step` gives the effect of each registry
call; the class `Registry.TaskRegistry` updates its fields in place and every method is proved to be
the corresponding step. Runs are folds of steps; a `History` adds to a registry the actions it has
emitted, each task's latest birth, its last proof of life and a tally of accepted births. The
theorems about runs are stated on histories; a cause is always a call at a known place in the run
that finds the task active. The runner (`TaskRunnerModel`, `TaskRunners`) couples a registry to live workers whose
output is arbitrary, and is proved to be a registry run, so that all those theorems carry over. The
dump codec and the restart protocol (`SnapshotCodec`, `Recovery`) carry the supervised set across
processes.

Around it are the fan-out coordinator, the webhook replay guard, the two bounded tree walks (repository
profiler, guard manifest), the turn queue with its chat bridge, the push checkpoint, the JSON string
printers, and the scoring and review gates. Each is proved against a simpler reference: a race won by
the first eligible attempt, a sliding window over accepted deliveries, an unbounded listing, a stack
of steers ahead of a queue of turns, segment lists, a JSON reader.

Times, HMAC results, executor replies, worker output, directory contents, what the redactor shows of
a webhook body and the lossy conversion of path bytes are inputs. 64-bit saturation and wrap-around are written out. `dafny verify dfyconfig.toml`
checks the whole project.

Beside the laws over runs stand laws that fix each answer in the source's own literals, without naming
the function that gives it (`RegistryEndings`, `RunnerLaws`, `SnapshotLaws`, and the lemmas whose names
end in Is or Are): what a tick says, which handles are told to cancel, which bytes decode, what a dump
holds, what an attempt, a request, a refspec or a message comes to.

## Where code and documentation differ

The model follows the code in each case.

- A cancel "not honored within the lease TTL escalates to reclaim" (registry.rs:455). The runner
  heartbeats every live handle before each tick, so under the runner no cancel ever escalates
  (`RunnerEndings`), and since a cancelling task is not charged wall time by a tick, a silent worker
  that ignores its cancel is supervised for ever (`CancellingForever`; `CancelIgnored` reaches such a
  task from the start). `PumpOutcome` says exactly how a pump ends or keeps any active task.
- "At most `max_concurrent` active tasks" (registry.rs:282) fails after an adoption, which takes no
  slot (`AdoptionBypassesCap`), and goes on failing when the adopted task is gone
  (`UndercountPersists`): a tick frees a slot for every task it ends, counted or not
  (`TickUncounted`). From any reachable registry the bound holds through every run of further calls
  without adoptions exactly when the scheduler's count equals the number of supervised tasks, or
  every slot is taken and no task is active (`ActiveCapIff`; `HarmlessUndercount` is a case of the
  second kind). The same bound on supervised tasks, ended or not, holds exactly when the count is
  exact (`CapHoldsIff`). Without any adoption both always hold (`ExactAccounting`).
- `TaskDone::Cancelled` is documented as an ending (registry.rs:125) and no call ever produces it
  (`NeverCancelled`).
- A charge "never double-counts" (registry.rs:196) needs a clock that does not go back:
  `BackAndForthOvercharges` is the failure. Under any clock a task has been charged its age plus every
  step back at which a charge was accepted (`WallUnderAnyClock`), so its time is conserved exactly when
  there was none, or the saturated total hides it (`ConservedIff`).
- If the original walk was truncated "any size change is still detected", and a truncated re-walk
  "cannot silently hide an addition" (worker.rs:813-815). Both fail. `TruncationHidesChange` and
  `DepthHidesChange` are resized files in truncated walks: the last of 50,001, and one 34 directories
  down. `TruncationHidesAddition` and `DepthHidesAddition` are additions in the same places. Anywhere
  in any file systems, an addition or a change of size or time goes unnoticed exactly when its
  directory lies below depth 32 or 50,000 entries are already recorded when the walk reaches it
  (`AdditionMissedIff`, `ChangeMissedIff`). Both compare trees that differ in that one entry; where the
  system also touches the directory's own time, that is a second change, judged by the same condition
  one level up.
- A caller "should stop sending" a task's lines once its budget is exhausted (registry.rs:339-340).
  The pump forwards every line it has drained (`EveryLineForwarded`), also one that follows the breach
  (`LineFollowsBreach`); none does exactly when the budget covers all lines but the last
  (`LinesPastTheEnd`).

## Model

| member | source | states |
|---|---|---|
| Supervisor.Charge | crates/crustcore-daemon/src/supervisor.rs:189-209 | an accepted charge is within budget on every axis and never lowers usage; charging nothing is accepted exactly when usage is within budget, and changes nothing |
| Supervisor.ChargeMeans | crates/crustcore-daemon/src/supervisor.rs:189-209 | on every axis the total is the sum held at 2^64 - 1; a charge is accepted exactly when the total is within budget, and then is the total; otherwise it names the first of wall, output and tokens that the total is over on |
| Supervisor.Scheduler.constructor | crates/crustcore-daemon/src/supervisor.rs:231-236 | the cap is at least one and nothing runs |
| Supervisor.Scheduler.TrySpawn | crates/crustcore-daemon/src/supervisor.rs:248-254 | a slot is reserved exactly when below the cap; a refusal changes nothing |
| Supervisor.Scheduler.Finish | crates/crustcore-daemon/src/supervisor.rs:257-259 | releases one slot, saturating at zero |
| Registry.TaskRegistry.constructor | crates/crustcore-daemon/src/registry.rs:284-291 | starts as the empty registry with the next id 1 |
| Registry.TaskRegistry.Admit | crates/crustcore-daemon/src/registry.rs:300-325 | is the admission step: refused exactly at the cap, otherwise the next id, pending under a fresh lease |
| Registry.TaskRegistry.MarkRunning | crates/crustcore-daemon/src/registry.rs:328-335 | is the mark-running step on that task alone |
| Registry.TaskRegistry.ObserveProgress | crates/crustcore-daemon/src/registry.rs:341-362 | is the progress step: refreshes the lease and charges output and wall time, or ends the task on the first breached axis |
| Registry.TaskRegistry.Heartbeat | crates/crustcore-daemon/src/registry.rs:370-376 | is the heartbeat step; a terminal task is left alone |
| Registry.TaskRegistry.ObserveFinished | crates/crustcore-daemon/src/registry.rs:381-387 | is the finished step; a terminal task is left alone |
| Registry.TaskRegistry.RequestCancel | crates/crustcore-daemon/src/registry.rs:393-401 | acts exactly for the launching chat on an active task |
| Registry.TaskRegistry.RequestKill | crates/crustcore-daemon/src/registry.rs:406-414 | acts exactly for the launching chat on a task not yet terminal |
| Registry.TaskRegistry.Tick | crates/crustcore-daemon/src/registry.rs:423-489 | the state left and the actions returned are exactly the tick step's |
| Registry.TaskRegistry.DecideAll | crates/crustcore-daemon/src/registry.rs:427-462 | the first pass decides every slot once and asks every cancelling worker to stop, in id order |
| Registry.TaskRegistry.Decide | crates/crustcore-daemon/src/registry.rs:428-461 | the decision for one slot is the pure one |
| Registry.TaskRegistry.FinalizeAll | crates/crustcore-daemon/src/registry.rs:464-486 | the second pass reports and forgets exactly the terminal tasks, in id order, and frees a slot for each |
| Registry.TaskRegistry.ListTerminal | crates/crustcore-daemon/src/registry.rs:465-472 | lists each terminal task once, in id order |
| Registry.TaskRegistry.ReportEnding | crates/crustcore-daemon/src/registry.rs:475-483 | hard-stop first when killed or out of budget, then the notice, then the finalization |
| Registry.TaskRegistry.SnapshotEvery | crates/crustcore-daemon/src/registry.rs:543-561 | dumps the non-terminal tasks in id order |
| Registry.TaskRegistry.AdoptFromSnapshot | crates/crustcore-daemon/src/registry.rs:577-611 | is the adoption step, with its two refusals; the scheduler is untouched |
| RegistryRuns.TickPointwise | crates/crustcore-daemon/src/registry.rs:423-489 | a tick treats every task on its own: its slot and the actions about it depend on its slot alone |
| RegistryRuns.TickFinalizes | crates/crustcore-daemon/src/registry.rs:464-486 | a tick finalizes a task as d exactly when it decides d for its slot, and keeps it exactly when it decides no ending |
| RegistryRuns.SlotsOk | crates/crustcore-daemon/src/registry.rs:300-611 | in every reachable registry each task keeps the chat, budget and start of its birth, its lease is one TTL from its last proof of life, and while not terminal it is within budget; no phase is ever Cancelled, none stays Expired |
| RegistryRuns.EveryStory | crates/crustcore-daemon/src/registry.rs:300-489 | in every run without id reuse the actions about a task are requests to stop followed by at most one whole ending; it is supervised exactly from its birth to that ending, and the ending was brought about by a call at some point of the run that found the task active: its worker finishing, its own chat's kill, a tick after its chat's cancel and a stale lease, a tick on a stale lease, or a charge refused on the axis named (a task adopted over budget ends so at once) |
| RegistryRuns.FinalizeOnce | crates/crustcore-daemon/src/registry.rs:464-486 | in the trace of a run a task is finalized at most once, for a cause that acted, nothing about it follows, and a hard kill precedes exactly when it was killed or out of budget |
| RegistryEndings.TickSays | crates/crustcore-daemon/src/registry.rs:423-489 | exactly what a tick says about any task: a request to stop if it is being cancelled, and for the ending it decides a hard stop when killed or out of budget, the notice of that ending to the task's chat, and the finalization |
| RegistryEndings.TickAsks | crates/crustcore-daemon/src/registry.rs:448-459 | a tick asks exactly the cancelling tasks to stop |
| RegistryEndings.TickOrdered | crates/crustcore-daemon/src/registry.rs:423-489 | the requests to stop come first, then everything else, each in id order |
| RegistryEndings.EveryEndingAnnounced | crates/crustcore-daemon/src/registry.rs:475-483 | in the trace of every run without id reuse a finalization comes right after the notice of the same ending to the chat the task was born with, and every notice is followed by its finalization |
| RegistryEndings.PhaseIs | crates/crustcore-daemon/src/registry.rs:328-414 | in every run without id reuse an active task is Cancelling exactly when its chat ordered that while it was active, otherwise Running exactly when it was marked so while active, otherwise Pending |
| RegistryRuns.NeverReturns | crates/crustcore-daemon/src/registry.rs:300-489 | an ended task is never supervised again and nothing more is said about it, however the run goes on |
| RegistryRuns.TerminalStays | crates/crustcore-daemon/src/registry.rs:341-489 | a terminal slot never changes until the next tick reports exactly that ending and removes it |
| RegistryRuns.OrdersHonoured | crates/crustcore-daemon/src/registry.rs:381-414 | an active task whose worker finished completes at the next tick; the launching chat's kill ends it killed and its cancel reaches the worker |
| RegistryRuns.ForeignOrdersIgnored | crates/crustcore-daemon/src/registry.rs:389-414 | a cancel or kill from a chat that did not launch the task changes nothing |
| RegistryConservation.NextIdAbove | crates/crustcore-daemon/src/registry.rs:309-310 | while the ids issued and adopted cannot have wrapped the counter, refused calls not counted, the next id is above every id ever issued or adopted |
| RegistryConservation.NoReuse | crates/crustcore-daemon/src/registry.rs:309-310 | fewer than 2^64 - 1 accepted admissions and no adoption: no id is ever reused |
| RegistryEndings.IdsConsecutive | crates/crustcore-daemon/src/registry.rs:309-310 | without adoption the ids handed out are exactly 1, 2, 3 and so on |
| RegistryEndings.AdoptionBumps | crates/crustcore-daemon/src/registry.rs:607-609 | after an adoption the next id is not below the last one, above the adopted id, and no higher than one of them requires |
| RegistryConservation.BirthsStay | crates/crustcore-daemon/src/registry.rs:300-325 | while ids are not reused, how a task entered the registry is never rewritten by any later call |
| RegistryConservation.SlotAccounting | crates/crustcore-daemon/src/registry.rs:300-325 | in every run the scheduler's count is at most the supervised tasks, falls short by at most the accepted adoptions, and stays within the cap |
| RegistryConservation.TickUncounted | crates/crustcore-daemon/src/registry.rs:464-486 | a tick that ends at most as many tasks as are counted keeps the number of uncounted ones, whichever ended; one that ends more leaves the count at zero |
| RegistryConservation.UncountedStep | crates/crustcore-daemon/src/registry.rs:300-611 | every call: an adoption adds one uncounted task, a tick keeps them as far as tasks are left, nothing else changes their number |
| RegistryConservation.CountStaysExact | crates/crustcore-daemon/src/registry.rs:300-489 | an exact count, and with it the cap, holds through any calls that adopt nothing |
| RegistryConservation.ExactAccounting | crates/crustcore-daemon/src/registry.rs:474-486 | without adoption the count equals the supervised tasks in every reachable registry |
| RegistryConservation.AdmissionsFill | crates/crustcore-daemon/src/registry.rs:300-325 | from any reachable registry any number of admission calls grants exactly the free slots, and each adds one supervised and one active task to whatever is there |
| RegistryConservation.ActiveCapIff | crates/crustcore-daemon/src/registry.rs:282-489 | from any reachable registry at most `max_concurrent` tasks are active through every adoption-free continuation exactly when the count equals the supervised tasks, or it is at the cap and no task is active |
| RegistryConservation.CapHoldsIff | crates/crustcore-daemon/src/registry.rs:280-325 | from any reachable registry the cap on supervised tasks holds through every adoption-free continuation exactly when the count equals the supervised tasks; through admissions alone the cap on active tasks holds exactly when they are no more than the count |
| RegistryConservation.CountSurvivesAdmit | crates/crustcore-daemon/src/registry.rs:306-323 | an exact count survives an admission exactly when the issued id is not live |
| RegistryConservation.AdoptionBypassesCap | crates/crustcore-daemon/src/registry.rs:577-611 | adopt one task, admit one: two supervised under a cap of one |
| RegistryConservation.UndercountPersists | crates/crustcore-daemon/src/registry.rs:464-486 | let the adopted one finish and be forgotten, admit another: two admitted tasks supervised under a cap of one, one counted |
| RegistryConservation.HarmlessUndercount | crates/crustcore-daemon/src/registry.rs:381-486 | adopt one task, admit one, let both finish: one is uncounted, yet no adoption-free continuation exceeds the cap of one active task |
| RegistryConservation.WallConserved | crates/crustcore-daemon/src/registry.rs:341-362 | under a clock that never goes back every supervised task has been charged exactly its age on top of what it carried, saturated, up to its last charge |
| RegistryConservation.WallUnderAnyClock | crates/crustcore-daemon/src/registry.rs:341-447 | under any clock, in every run, a supervised task has been charged what it carried plus its age up to its last charge plus the backward steps of its accepted charges, saturated |
| RegistryConservation.ConservedIff | crates/crustcore-daemon/src/registry.rs:196-447 | in every run a task's wall time is conserved exactly when no accepted charge stepped back, or carried time and age alone saturate |
| RegistryConservation.WallEnforced | crates/crustcore-daemon/src/registry.rs:429-447 | a tick ends a pending or running task on the wall axis exactly when its age has passed its budget; a survivor is charged up to the tick and within budget |
| RegistryConservation.BackwardsClock | crates/crustcore-daemon/src/registry.rs:347-358 | an accepted charge keeps conservation exactly when the clock did not go back or the total saturates |
| RegistryConservation.BackAndForthOvercharges | crates/crustcore-daemon/src/registry.rs:431-442 | a clock that steps back by d and forth again charges d for no time |
| RegistryConservation.OutputConserved | crates/crustcore-daemon/src/registry.rs:337-362 | in every run an active task has been charged exactly the bytes it streamed since its birth on top of what it carried, saturated |
| RegistryConservation.OutputEnforced | crates/crustcore-daemon/src/registry.rs:341-361 | progress ends a task on the output axis exactly when its wall charge holds and its streamed total has passed the budget, on the wall axis exactly when the wall charge fails, and otherwise leaves it within both |
| RegistryConservation.LeaseExact | crates/crustcore-daemon/src/registry.rs:98-118 | in every reachable registry a lease has run out exactly when the time is more than 60,000 ms past the last proof of life, despite saturation |
| RegistryConservation.StaleIsReclaimed | crates/crustcore-daemon/src/registry.rs:429-461 | a task with a stale lease is finalized by the tick that sees it: killed if it was being cancelled, out of budget on the refused axis if it cannot pay for the time since its last charge, otherwise expired, or as it had already ended |
| RegistryConservation.KeptAliveEndings | crates/crustcore-daemon/src/registry.rs:328-489 | a task with proof of life within the TTL at every tick never ends Expired or Cancelled, and ends Killed only if its own chat ordered the kill at a point where the task was active |
| RegistryConservation.NeverOutOfTokens | crates/crustcore-daemon/src/registry.rs:347-353 | without adoption no task ends on the token axis |
| RegistryConservation.NeverCancelled | crates/crustcore-daemon/src/registry.rs:125-489 | whatever the run, id reuse and adoptions included, no task is ever finalized as Cancelled or in that phase |
| SnapshotCodec.EncodeSnapshots | crates/crustcore-daemon/src/registry.rs:710-733 | the buffer is the header and every snapshot's bytes in order |
| SnapshotCodec.EncodeHeader | crates/crustcore-daemon/src/registry.rs:711-715 | magic, version and a count saturated at 32 bits |
| SnapshotCodec.EncodeOne | crates/crustcore-daemon/src/registry.rs:717-730 | one snapshot's fields in order, its path cut to 4096 bytes |
| SnapshotCodec.SnapCursor.TakeBytes | crates/crustcore-daemon/src/registry.rs:742-750 | reads exactly the next n bytes, or refuses and stays put |
| SnapshotCodec.SnapCursor.Int | crates/crustcore-daemon/src/registry.rs:751-757 | the little-endian value of the next n bytes |
| SnapshotCodec.SnapCursor.U64 | crates/crustcore-daemon/src/registry.rs:758-765 | the little-endian value of the next eight bytes |
| SnapshotCodec.DecodePhase | crates/crustcore-daemon/src/registry.rs:768-787 | agrees with the phase reader on every input |
| SnapshotCodec.DecodeDone | crates/crustcore-daemon/src/registry.rs:773-784 | agrees with the ending reader on every input, any unknown axis byte being the token axis |
| SnapshotCodec.DecodeOne | crates/crustcore-daemon/src/registry.rs:810-842 | agrees with the snapshot reader on every input |
| SnapshotCodec.DecodeSnapshots | crates/crustcore-daemon/src/registry.rs:795-845 | on any bytes gives the specified list or error, never reading out of bounds |
| SnapshotCodec.DecodesEncoded | crates/crustcore-daemon/src/registry.rs:710-845 | an encoding followed by any bytes decodes to the list with each path as the dump keeps it, ending where the encoding ends; a list over 4096 is refused |
| SnapshotCodec.RoundTrip | crates/crustcore-daemon/src/registry.rs:710-845 | up to 4096 snapshots round-trip exactly when every path is absent, or non-empty and unchanged by cutting and text conversion |
| SnapshotCodec.ShortPathsSurvive | crates/crustcore-daemon/src/registry.rs:727-833 | a text path of 1 to 4096 bytes survives |
| SnapshotCodec.TruncatedRejected | crates/crustcore-daemon/src/registry.rs:741-845 | every strict prefix of every encoding is rejected |
| SnapshotLaws.LittleEndian | crates/crustcore-daemon/src/registry.rs:712-731 | byte i of an encoded integer is its i-th digit to the base 256 |
| SnapshotLaws.Layout | crates/crustcore-daemon/src/registry.rs:717-730 | where each field of a snapshot stands in its encoding, in bytes, with every tag and the path cut at 4096 bytes |
| SnapshotLaws.HeaderDecides | crates/crustcore-daemon/src/registry.rs:796-803 | any bytes are refused as no dump exactly when they are under five or do not start with 67, 67, 84, 83, and as version v exactly when those are followed by v other than 1; whatever decodes starts with them and 1 |
| SnapshotLaws.OnlyEncodingsDecode | crates/crustcore-daemon/src/registry.rs:795-845 | the converse of the round trip: any bytes that decode are the encoding of at most 4096 snapshots, those they decode to, up to axis bytes over 2, which read as tokens |
| SnapshotLaws.ConversionOnlyTouchesPaths | crates/crustcore-daemon/src/registry.rs:826-833 | the conversion of path bytes decides nothing but the paths of the result |
| Recovery.DumpsAll | crates/crustcore-daemon/src/registry.rs:543-561 | the dump holds each live task once, in id order, with its current data |
| Recovery.DumpExact | crates/crustcore-daemon/src/registry.rs:543-561 | in every reachable registry the dump holds, for each task that has not ended and no other, one snapshot with its chat, phase, budget and usage, no path, and what is left of 60,000 ms since its last proof of life |
| Recovery.AdoptsAll | crates/crustcore-daemon/src/registry.rs:577-611 | adopting a dump into a fresh registry supervises exactly its tasks, pending under fresh leases, with the id counter above them |
| Recovery.RestartPreserves | crates/crustcore-daemon/src/registry.rs:543-872 | from any reachable registry with at most 4096 live tasks, dump, decode and adopt give the same ids, chats, budgets and usages, all pending under a fresh lease of the new owner, and the next id is above all of them |
| Recovery.StoriesAfterRestart | crates/crustcore-daemon/src/registry.rs:563-611 | after a restart every task, adopted or new, again has its story told exactly once |
| Recovery.SecondLife | crates/crustcore-daemon/src/registry.rs:341-872 | from any reachable registry with at most 4096 live tasks, through dump, decode, adoption and any further run without adoptions under a clock that never goes back: a task keeps its chat and budget, its wall usage is what it had plus its age in the new process, its output usage what it had plus what it streamed there, and its story is told once |
| TaskRunners.TaskRunner.constructor | crates/crustcore-daemon/src/runtime.rs:547-553 | starts with an empty registry of cap four and no handle |
| TaskRunners.TaskRunner.Launch | crates/crustcore-daemon/src/runtime.rs:557-571 | is the launch step; refused exactly at the cap |
| TaskRunners.TaskRunner.Cancel | crates/crustcore-daemon/src/runtime.rs:631-633 | is the cancel step, acting exactly for the launching chat |
| TaskRunners.TaskRunner.Kill | crates/crustcore-daemon/src/runtime.rs:635-637 | is the kill step, acting exactly for the launching chat |
| TaskRunners.TaskRunner.Pump | crates/crustcore-daemon/src/runtime.rs:576-629 | for any worker output, is the pump step: the registry, the handles, the messages sent and the actions performed |
| TaskRunners.TaskRunner.FeedEvery | crates/crustcore-daemon/src/runtime.rs:587-609 | feeds every live handle in id order and forwards its lines to its chat |
| TaskRunners.TaskRunner.FeedOne | crates/crustcore-daemon/src/runtime.rs:599-608 | progress and one message for each line, in order, then finished or a heartbeat |
| TaskRunners.TaskRunner.PerformEvery | crates/crustcore-daemon/src/runtime.rs:611-628 | performs the actions in order: the notices are sent, the handles told to cancel or dropped |
| TaskRunnerModel.RunnerIsRegistryRun | crates/crustcore-daemon/src/runtime.rs:541-646 | every run of the runner is a run of the registry with the same state and trace |
| TaskRunnerModel.AlwaysCoupled | crates/crustcore-daemon/src/runtime.rs:541-646 | after every run the handles are exactly the supervised tasks, each with its launching chat |
| TaskRunnerModel.RunnerKeepsAlive | crates/crustcore-daemon/src/runtime.rs:595-609 | at every tick of every run every active task has proof of life within the TTL |
| TaskRunnerModel.RunnerEndings | crates/crustcore-daemon/src/runtime.rs:541-646 | in every run with fewer than 2^64 - 1 accepted launches no task ends Expired, Cancelled or out of tokens; one ends Killed only if the chat that launched it asked for that at a point where the task was active, Completed only if a pump saw its worker finished while it was active, and is being cancelled only if its chat asked for that while it was active |
| TaskRunnerModel.RunnerStories | crates/crustcore-daemon/src/runtime.rs:531-646 | every task's story is told once, at most four workers live at any time, and every lease is held by instance 1 |
| TaskRunnerModel.EveryLineForwarded | crates/crustcore-daemon/src/runtime.rs:587-603 | over every run the lines sent for a task are exactly the lines drained from its worker, in order, all to the chat that launched it |
| TaskRunnerModel.PumpForwards | crates/crustcore-daemon/src/runtime.rs:595-603 | a pump adds for each held worker exactly its drained lines, in order, whatever becomes of the task |
| TaskRunnerModel.LinesPastTheEnd | crates/crustcore-daemon/src/runtime.rs:599-603 | in any run a pump forwards all lines of an active task; none follows its end exactly when the budget covers all but the last, and none ends it exactly when the budget covers them all |
| TaskRunnerModel.LineFollowsBreach | crates/crustcore-daemon/src/runtime.rs:599-603 | a task without output budget whose worker streams two lines: the first ends it and both are sent |
| TaskRunnerModel.StreamingSettles | crates/crustcore-daemon/src/registry.rs:341-362 | streaming any lines at one time ends an active task exactly when the total of their bytes, or the time up to now, is over budget, on the wall axis first; otherwise exactly those are charged, once |
| TaskRunnerModel.PumpOutcome | crates/crustcore-daemon/src/runtime.rs:576-629 | in any run, exactly what a pump makes of an active task: out of budget if its lines are not covered, else completed if its worker is done, else out of wall time unless it is being cancelled, else kept with exactly its lines and time charged, its handle told to cancel if it is being cancelled |
| RunnerLaws.PumpFlags | crates/crustcore-daemon/src/runtime.rs:611-628 | of every task a pump keeps, the handle is told to cancel exactly when it was before or its own task was being cancelled |
| RunnerLaws.QuietHandles | crates/crustcore-daemon/src/runtime.rs:557-637 | a launch adds exactly the handle of the next id, not told to cancel, when there is room; a cancel or a kill touches no handle |
| RunnerLaws.FlaggedIff | crates/crustcore-daemon/src/runtime.rs:541-646 | over every run a worker has been told to cancel exactly when some pump found its own task being cancelled |
| RunnerLaws.NoticesSent | crates/crustcore-daemon/src/runtime.rs:611-616 | over every run the notices about a task are exactly those its registry actions ask for, in order |
| RunnerLaws.OneNotice | crates/crustcore-daemon/src/runtime.rs:541-646 | over every run the chat that launched a task is told of its ending once, as it ended, and no chat is told of a task that has not ended |
| RunnerLaws.PumpSendsInOrder | crates/crustcore-daemon/src/runtime.rs:587-628 | a pump sends the workers' lines by task id and then the notices by task id, after what was sent before |
| TaskRunnerModel.CancellingForever | crates/crustcore-daemon/src/registry.rs:453-459 | after any run a cancelled worker that stays silent and unfinished is supervised through any number of pumps at any times, with unchanged usage |
| TaskRunnerModel.CancelIgnored | crates/crustcore-daemon/src/registry.rs:453-459 | such a task: the first one launched, with any budget, cancelled at once by its chat |
| Fanout.Blackboard.Post | crates/crustcore-daemon/src/supervisor.rs:345-347 | appends one message |
| Fanout.RunSubagent | crates/crustcore-daemon/src/exec.rs:156-219 | for every executor behaviour, a panic included, the slot count is restored; only a completed run is charged and posted, with its summary cut to 8 KiB, accepted only by the verifier |
| Fanout.RunCharged | crates/crustcore-daemon/src/exec.rs:224-235 | the caller gets the new usage exactly for a reply whose total fits the budget on every axis; a panic, a failure and a reply that does not fit are told apart, the last naming the first axis the total is over on |
| Fanout.RunFanout | crates/crustcore-daemon/src/exec.rs:282-309 | results, usages, messages and winner are the race's, and the slot count ends as it began |
| Fanout.RaceSound | crates/crustcore-daemon/src/exec.rs:282-309 | results are the proposers up to the first accepted one or panic, one message per completed attempt from its agent with its bounded summary, one patch proposal exactly when there is a winner, and agents within budget stay within it |
| Fanout.RaceExplained | crates/crustcore-daemon/src/exec.rs:156-309 | for every plan and reply each attempt is explained: unknown agent, no slot, panic and failure by name, an over-budget reply by its first axis, otherwise the registered role, the verifier's acceptance, the worker's claim, the total usage and the longest part of its summary within 8192 bytes; the blackboard gets exactly the messages of the completed attempts, in order |
| Fanout.SpentIs | crates/crustcore-daemon/src/exec.rs:282-309 | while the race is on, every agent has used exactly its prior usage plus each of its earlier replies that fitted its budget, however often it proposes |
| Fanout.FirstVerifiedWins | crates/crustcore-daemon/src/exec.rs:267-309 | for any proposers, repeated or not, and any replies: the race is stopped by the first attempt that is verified within what its agent has left, or that panics; it is won exactly in the first case |
| Fanout.NoSlotNoRace | crates/crustcore-daemon/src/exec.rs:171-171 | with no free slot every attempt is refused and neither usage nor blackboard changes |
| Webhook.ReplayGuard.constructor | crates/crustcore-daemon/src/webhook.rs:199-204 | remembers nothing |
| Webhook.ReplayGuard.Accept | crates/crustcore-daemon/src/webhook.rs:207-219 | accepts exactly the ids not remembered and then remembers the last 4096; set and queue stay equal and free of repeats |
| Webhook.WebhookVerifier.constructor | crates/crustcore-daemon/src/webhook.rs:119-124 | starts with an empty guard |
| Webhook.WebhookVerifier.Verify | crates/crustcore-daemon/src/webhook.rs:133-166 | the answer is that of a window over the last 4096 accepted deliveries, with the bounded payload; every rejection leaves the guard unchanged |
| Webhook.AcceptedIsBounded | crates/crustcore-daemon/src/webhook.rs:133-166 | an accepted request is authentic and within every bound; its envelope shows a prefix of what the redactor shows, at most 8 KiB, all of it exactly when it fits |
| Webhook.AnswerIs | crates/crustcore-daemon/src/webhook.rs:133-166 | when a request is accepted and for which reason it is rejected otherwise, both ways, with every bound and the event names of each kind |
| Webhook.WebhookVerifier.VerifyAll | crates/crustcore-daemon/src/webhook.rs:133-219 | a whole run of requests gets exactly the reference's answers and leaves exactly the window |
| Webhook.AcceptedApart | crates/crustcore-daemon/src/webhook.rs:207-219 | in every run two equal accepted deliveries are more than 4096 accepts apart, and the window has no repeats |
| RepoProfiler.Profile.constructor | crates/crustcore-daemon/src/repo_profiler.rs:79-79 | an empty snapshot |
| RepoProfiler.Profile.Push | crates/crustcore-daemon/src/repo_profiler.rs:220-226 | appends below the cap, otherwise only marks truncation |
| RepoProfiler.ProfileDir | crates/crustcore-daemon/src/repo_profiler.rs:143-218 | the recursive walk, sorting each listing by name and with its early exits, leaves exactly what reading the unbounded sorted walk's tape up to the cap leaves |
| RepoProfiler.ListingOrderIrrelevant | crates/crustcore-daemon/src/repo_profiler.rs:160-170 | two trees with the same entries in any order at every level, names distinct within a directory, have the same profile |
| RepoProfiler.SortIs | crates/crustcore-daemon/src/repo_profiler.rs:170-170 | each listing is put in byte order of its names, from the least, and no entry is lost or added |
| RepoProfiler.OneEntryProfile | crates/crustcore-daemon/src/repo_profiler.rs:172-260 | the profile of a directory with one entry, for every name and kind of entry: which names are counted as bad, passed over or too long, and what each kind adds |
| RepoProfiler.ProfileEntries | crates/crustcore-daemon/src/repo_profiler.rs:172-217 | the same for a list of entries |
| RepoProfiler.ProfileEntry | crates/crustcore-daemon/src/repo_profiler.rs:173-214 | the same for one entry |
| RepoProfiler.ProfileIsPrefix | crates/crustcore-daemon/src/repo_profiler.rs:143-226 | over any tree walked without error the profile is exactly the first max_paths of the unbounded listing; truncated exactly when a directory lay below the depth limit or something was met after the cap; a walk the cap did not stop counted every symlink and bad path |
| RepoProfiler.FirstErrorUnlessCapped | crates/crustcore-daemon/src/repo_profiler.rs:143-218 | a walk with errors fails with the first exactly when the cap does not stop it before |
| RepoProfiler.UntruncatedIsComplete | crates/crustcore-daemon/src/repo_profiler.rs:143-226 | an untruncated profile is the complete listing of the whole tree at any depth |
| RepoProfiler.ShallowIsWhole | crates/crustcore-daemon/src/repo_profiler.rs:206-210 | a tree with no directory below the depth limit is truncated only by the path cap |
| RepoProfiler.ListedIffReached | crates/crustcore-daemon/src/repo_profiler.rs:172-260 | the listing holds exactly the paths, names with slashes between them, reached through admissible names and real readable directories within the depth limit |
| GuardManifest.Walk.constructor | crates/crustcore-backend/src/worker.rs:799-800 | an empty manifest |
| GuardManifest.WalkGuard | crates/crustcore-backend/src/worker.rs:849-893 | the recursive walk records exactly what reading the uncapped walk's tape up to 50,000 entries records |
| GuardManifest.WalkEntry | crates/crustcore-backend/src/worker.rs:869-891 | the same for one entry |
| GuardManifest.Snapshot | crates/crustcore-backend/src/worker.rs:798-810 | the manifest of all roots in order |
| GuardManifest.Check | crates/crustcore-backend/src/worker.rs:819-835 | accepts exactly when the recorded and re-walked maps are equal; a rejection names the first recorded path, in path order, that is gone or changed, or if there is none the first new one |
| Names.NameLeIs | crates/crustcore-backend/src/worker.rs:822-831 | names are ordered by the first byte in which they differ, and a name before its extensions |
| Names.PathLeIs | crates/crustcore-backend/src/worker.rs:822-831 | paths are ordered by the first name in which they differ, and a path before what is below it |
| GuardManifest.OneEntryManifest | crates/crustcore-backend/src/worker.rs:870-887 | of a directory with one entry, that entry is recorded with its kind, size and time exactly when it was listed, its metadata can be read and neither it nor anything above it is excluded |
| GuardManifest.ManifestExact | crates/crustcore-backend/src/worker.rs:849-893 | at most 50,000 entries; an untruncated walk recorded exactly the entries met below the roots without following symlinks or entering excluded subtrees |
| GuardManifest.ReadIs | crates/crustcore-backend/src/worker.rs:849-893 | any walk recorded exactly what it met before the cap, and is marked truncated exactly when it stopped short or met a directory below the depth limit |
| GuardManifest.ExcludedIrrelevant | crates/crustcore-backend/src/worker.rs:870-872 | file systems that differ only inside excluded subtrees have the same manifest |
| GuardManifest.RecordedIff | crates/crustcore-backend/src/worker.rs:849-893 | of any walk, truncated or not: an entry within the depth limit that is met once is recorded, with its metadata, exactly when fewer than 50,000 entries are recorded when the walk reaches it |
| GuardManifest.RelistedTape | crates/crustcore-backend/src/worker.rs:849-893 | another listing in a directory within the depth limit changes the walk in exactly that place, and below the limit changes nothing |
| GuardManifest.AdditionMissedIff | crates/crustcore-backend/src/worker.rs:812-835 | anywhere below any root, an added entry at a new path that is not excluded and whose metadata can be read leaves the recorded map unchanged exactly when its directory is below depth 32 or 50,000 entries are recorded when the walk reaches it |
| GuardManifest.ChangeMissedIff | crates/crustcore-backend/src/worker.rs:812-835 | a changed size or time of an entry met once leaves the recorded map unchanged exactly under the same condition |
| GuardManifest.TruncationHidesAddition | crates/crustcore-backend/src/worker.rs:812-815 | 50,000 files with distinct five-digit names, and the same with one more, have the same recorded map |
| GuardManifest.DepthHidesAddition | crates/crustcore-backend/src/worker.rs:856-859 | a chain of 34 directories, and the same with a file at the bottom, have the same recorded map of at most 35 entries |
| GuardManifest.TruncationHidesChange | crates/crustcore-backend/src/worker.rs:813-814 | of 50,001 files in a truncated walk the last can take any size and the recorded map stays the same |
| GuardManifest.DepthHidesChange | crates/crustcore-backend/src/worker.rs:813-814 | a file 34 directories down, in a truncated walk, can take any size and the recorded map stays the same |
| TurnQueues.TurnQueue.WithMax | crates/crustcore-chat/src/steer.rs:122-127 | empty, with a depth between 1 and 64 |
| TurnQueues.TurnQueue.Admit | crates/crustcore-chat/src/steer.rs:139-168 | where a message goes and what is signalled, for every kind, activity and length; a running tool is never cancelled by a steer |
| TurnQueues.AdmitSays | crates/crustcore-chat/src/steer.rs:129-168 | when each disposition is given, both ways, and what it means for the queue |
| TurnQueues.ParseIs | crates/crustcore-chat/src/steer.rs:64-81 | how a message is read, both ways, by its first characters once trimmed, and the text each kind keeps |
| TurnQueues.TurnQueue.PopNext | crates/crustcore-chat/src/steer.rs:171-173 | takes the front, if any |
| TurnQueues.TurnQueue.Clear | crates/crustcore-chat/src/steer.rs:188-190 | leaves nothing pending |
| TurnQueues.TurnDelivery | crates/crustcore-chat/src/steer.rs:103-191 | over every run the deque serves like a stack of steers ahead of a FIFO of turns; admitted = served + pending + dropped as multisets; at most max queued turns pend |
| TurnQueues.ChatSession.constructor | crates/crustcore-chat/src/session.rs:86-93 | idle, nothing pending, depth 64 |
| TurnQueues.ChatSession.Submit | crates/crustcore-chat/src/session.rs:119-122 | admits the parsed message under the current activity |
| TurnQueues.ChatSession.NextTurn | crates/crustcore-chat/src/session.rs:125-127 | takes the front, if any |
| TurnQueues.ChatSession.CancelRun | crates/crustcore-chat/src/session.rs:131-134 | drops everything pending and returns to idle |
| TurnQueues.ChatBridge.constructor | crates/crustcore-daemon/src/chat.rs:64-69 | settled, not armed |
| TurnQueues.ChatBridge.Dispatch | crates/crustcore-daemon/src/chat.rs:95-119 | between dispatches the queue is empty; the turn handled is exactly the one submitted; when the steer button is armed and disarmed |
| TurnQueues.ChatBridge.Turn | crates/crustcore-daemon/src/chat.rs:124-146 | handles exactly the submitted turn, or nothing when the message is a command or cancel |
| TurnQueues.SteersAreTurns | crates/crustcore-daemon/src/chat.rs:130-145 | a steer always becomes a turn, with the trimmed and bounded message text |
| TurnQueues.BridgeAnswers | crates/crustcore-daemon/src/chat.rs:95-146 | commands and approvals go elsewhere, the button answers nothing, a turn after the button is a steer of the same text, and one without it is read as it stands |
| BranchScope.ConfinedBySegments | crates/crustcore-daemon/src/github.rs:341-350 | a branch is under a prefix exactly when it has no dot segment and the segments of the non-empty trimmed prefix are its first segments |
| BranchScope.DotSegmentIs | crates/crustcore-daemon/src/github.rs:341-344 | a branch has a dot segment exactly when one or two dots stand between slashes or its ends |
| BranchScope.TrimSlashesIs | crates/crustcore-daemon/src/github.rs:345-345 | all trailing slashes are taken off a prefix and nothing else |
| BranchScope.SingleWord | crates/crustcore-daemon/src/github.rs:310-315 | a trimmed refspec passes the word count exactly when it holds no whitespace |
| BranchScope.DestinationSplits | crates/crustcore-daemon/src/github.rs:321-323 | the destination is what follows the last colon, or everything when there is none |
| BranchScope.DestinationIs | crates/crustcore-daemon/src/github.rs:319-322 | the destination of a branch, bare or in full, alone or after a source, is the branch |
| BranchScope.ValidatePush | crates/crustcore-daemon/src/github.rs:293-333 | gives the first denial in the order host, repository, force, then refspecs |
| BranchScope.RefusalIs | crates/crustcore-daemon/src/github.rs:309-331 | why one refspec is refused, both ways: several words or a plus, a protected destination, or one outside the prefix |
| BranchScope.DenialIs | crates/crustcore-daemon/src/github.rs:293-333 | why a push is denied: host, repository, force, and otherwise the refusal of the first refspec that is refused |
| BranchScope.AcceptedIffInScope | crates/crustcore-daemon/src/github.rs:293-350 | accepted exactly when host and repository match, nothing is forced and every destination is unprotected and under the prefix by segments |
| BranchScope.AcceptedTogether | crates/crustcore-daemon/src/github.rs:309-331 | two refspec lists are accepted together exactly when each is |
| BranchScope.ParsePushArgv | crates/crustcore-daemon/src/github.rs:204-237 | force exactly when some token is a force flag; the refspecs are the positional words after verb and remote |
| BranchScope.RefspecsAre | crates/crustcore-daemon/src/github.rs:204-237 | the refspecs are exactly the words that are no flags and follow the first word that is neither a flag nor the verb |
| BranchScope.ForcedIff | crates/crustcore-daemon/src/github.rs:179-181 | the force mark is set exactly when some token is "-f" or starts with "--force" |
| BranchScope.ArgvAccepted | crates/crustcore-daemon/src/github.rs:204-350 | a parsed push is accepted exactly when no token forces and every positional word after the remote is in scope |
| JsonText.JsonString | crates/crustcore-daemon/src/product.rs:2225-2257 | prints exactly the longest prefix whose escaped form fits, marked when cut |
| JsonText.JsonStringArray | crates/crustcore-daemon/src/product.rs:2259-2273 | prints the first max_items values separated by commas |
| JsonText.JsonStr | crates/crustcore-backend/src/worker.rs:922-936 | prints the whole value escaped |
| JsonText.ShortEscapes | crates/crustcore-daemon/src/product.rs:2225-2257 | the two-character escapes |
| JsonText.LongEscapes | crates/crustcore-backend/src/worker.rs:922-936 | every other control character is six characters with four hexadecimal digits, everything else stands as it is; which characters count as control for each printer |
| JsonText.KeptLen | crates/crustcore-daemon/src/product.rs:2229-2251 | the length kept fits, and every longer prefix does not |
| JsonText.BodyCost | crates/crustcore-daemon/src/product.rs:2214-2220 | the predicted escaped lengths are the real sizes in bytes |
| JsonText.PrintedBounded | crates/crustcore-daemon/src/product.rs:2222-2257 | the escaped body is at most max bytes and the literal at most max + 5 |
| JsonText.PrintedReads | crates/crustcore-daemon/src/product.rs:2222-2257 | reading the literal gives the longest prefix that fits, followed by "..." exactly when cut, and consumes exactly the literal |
| JsonText.PlainReads | crates/crustcore-backend/src/worker.rs:922-936 | reading the unbounded literal gives the input |
| JsonText.ArrayReads | crates/crustcore-daemon/src/product.rs:2259-2273 | reading the array gives the first max_items values as their literals show them |
| ReviewGate.Score | crates/crustcore-daemon/src/score.rs:52-68 | a verified candidate scores at least 50 and an unverified one at most 28 |
| ReviewGate.ScoreIs | crates/crustcore-daemon/src/score.rs:52-68 | what verification, diff size, gates and the security review are each worth, whatever the others are |
| ReviewGate.SmallerRanksHigher | crates/crustcore-daemon/src/score.rs:57-58 | with all else equal the smaller diff ranks higher exactly below 50 KiB |
| ReviewGate.PickBest | crates/crustcore-daemon/src/score.rs:78-91 | the first candidate of maximal score, verified whenever any candidate is |
| ReviewGate.DecideIntegration | crates/crustcore-daemon/src/supervisor.rs:412-433 | the first veto wins, then a missing review, then a missing verification |
| ReviewGate.DecisionIs | crates/crustcore-daemon/src/supervisor.rs:412-433 | the first block by a reviewer, security auditor or tester is named with its reason; without one a vote of such a role is needed, then the verifier's word |
| ReviewGate.ReadyExactly | crates/crustcore-daemon/src/task_loop.rs:95-121 | ready exactly when verified and, if the risk is high or the change touches security, workflow or dependencies, the reviewer voted, for such a change the security auditor too, and no reviewer, auditor or tester blocked; the undecided fallback is unreachable |
| ReviewGate.OutcomeIs | crates/crustcore-daemon/src/task_loop.rs:95-121 | what becomes of a task that is not ready: failed, waiting or timed out for exactly the required roles that have not voted, or blocked by the first block |

## Left out

- Status line text, failures of sending and redaction of forwarded lines: which line or ending is reported, in what order and to which chat is modelled.
- Registry read-outs (`snapshot`, `len_active`, `sole_active_for`) and rendering: easy next to the state machine.
- Worker threads, worktrees and the serve loop: a worker is its streamed lines and its done flag at each poll.
- File reading and writing of dumps: the codec and the restart are modelled on the bytes.
- Decode: the conversion of path bytes to text is a parameter, so what it does to invalid UTF-8 is not modelled.
- RunSubagent: verify commands and goals are not modelled; what the executor did with them is its reply.
- Verify: the HMAC computation and the redactor are inputs.
- Score: computed in exact integer units of 1/1024; the 32-bit float steps are exact in them, which is argued here and not proved.
- Turn: classification of a turn and the model call after it are not modelled, only which text is handed on.
- ReadBody: escapes of surrogate halves are not read, since neither printer writes one.
- Kernel, policy, receipts, secrets, sandbox, admin framing, onboarding, Slack, routing heuristics and CLI parsing are not part of this model.
