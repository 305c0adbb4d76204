# Robot scheduler and market engine: verification

This project models the parts of the robot program that decide who may act, in which order and
how often, and proves what they promise for every input and every run.

* **Position batcher** - a write-behind buffer with a timer, one write in flight, retry with
  backoff and a closing handshake.  `PositionProtocol.dfy` is the protocol over all interleavings of
  its lock sections; `PositionBatcher.dfy` is the class whose methods refine it.
* **Actors and ledger** - each actor is a loop that holds at most one UID; the ledger leases UIDs to
  actors, drains, blocks, quarantines and reaps.  `ActorModel.dfy` and `LedgerModel.dfy` are the
  state machines, `Actor.dfy` and `Ledger.dfy` the objects, `StopOrder.dfy` the order of stopping.
* **Mail notifier** - at-least-once notification with durable cursors: `MailModel.dfy`, `MailNotify.dfy`.
* **Market jobs** - the worker pool (`ActionPool.dfy`), the life cycle of the automatic loop
  (`AutoLoop.dfy`), the patch of six bytes with rollback (`MemoryPatch.dfy`), restocking in rounds
  (`CeraPlanner.dfy`) and stack splitting (`StackSplit.dfy`).
* **Codecs** - item-ID lists (`ItemCodec.dfy`) and iteminfo rows (`ItemInfo.dfy`).

Goroutines, timers and channels are atomic steps in any order.  The runtime, the database, the
sender, the memory file and the cursor file answer as they like: their answers, panics included,
are arguments of the steps.  Where the program works on fields, arrays and maps in place, a class
or a method with loops does the same and is proved equal to a function; the laws are lemmas about
these functions and about all runs of them.

What the models show about the code, beyond what it promises:

* The backoff wraps to a negative delay when retryMax is above half the range of a duration
  (`PositionProtocol.BackoffLaw`).
* A panic of the runtime during a stop can leave a UID open and unquarantined, and the UID can then
  be given to a second actor (`LedgerModel.PanicCanShareUid`).  The same happens without a panic when
  an assignment that timed out is carried out after its lease was dropped and given away
  (`LedgerModel.LateAssignmentSharesUid`).  The system stays safe exactly as long
  as every assignment is carried out under its lease, no lease of a held UID is dropped, and no stop
  ends in such a panic (`LedgerModel.SafeIffOrderly`).  Clean stops alone suffice for finished actors
  and for the leases that reaping frees (`LedgerModel.RunCleanIffStopsClean`,
  `LedgerModel.FreedLeaseWasReleased`).
* A mail whose transaction commits behind the cursor is never collected, and only such a mail is
  missed (`MailModel.NoMailLost`, `MailModel.LateMailIsLost`).
* The lease operations of the ledger look at the UID and not at the actor's other leases.  An actor
  keeps a single lease exactly as long as no lease goes to an actor that has one
  (`LedgerModel.OneLeaseKept`, `LedgerModel.OneLeaseInRuns`), and the operations alone do not rule
  that out (`LedgerModel.OneActorTwoLeases`).  This concerns the ledger's operations: their caller
  `acquireUIDs` in internal/scheduler/supervisor_scaling.go goes on to the next actor after each
  lease, and the program itself never calls `ReserveEmptyAutoActor`.
* A mail that is merged into an older pending entry inherits its age and can be dropped long before
  its own 24 hours are over (`MailModel.KeptForADay`).
* The file scanner misses an ID with a bare LF behind it (`ItemInfo.ScannersDiffer`).  The two
  scanners see the same IDs exactly when every such ID also begins a line that the file scanner
  accepts (`ItemInfo.ScannersAgree`).
* A discarded position comes back when the write that carried it fails
  (`PositionProtocol.FailureUndoesDiscard`).
* A start of the automatic loop while the old loop is stopping is lost
  (`AutoLoop.StartIsLostWhileStopping`).
* The stop order contradicts itself on negative UIDs, which actors never have
  (`StopOrder.ContradictsItselfOn`).

Run `dafny verify dfyconfig.toml` in this directory to check everything.

## Model

| member | source | states |
|---|---|---|
| `PositionProtocol.StepKeepsInv` | internal/scheduler/position_batcher.go:116-332 | Every lock section keeps: one write at a time, numbered and ordered updates, exact callback count, idle channels closed once, no lost wake-up. |
| `PositionProtocol.EveryUpdateAccounted` | internal/scheduler/position_batcher.go:116-243 | In every run each accepted update is pending, being written, written, superseded by a later accepted update of its UID, or removed by Discard. |
| `PositionProtocol.WritesInOrder` | internal/scheduler/position_batcher.go:144-243 | In every run at most one write is in progress, the final write of Close included, and per UID the writes never return to an older update. |
| `PositionProtocol.CloseNilSettlesEverything` | internal/scheduler/position_batcher.go:144-188 | Once Close has returned nil nothing is pending or being written, then and for ever, and every accepted update was written, superseded or discarded. |
| `PositionProtocol.NoWakeUpLost` | internal/scheduler/position_batcher.go:190-278 | Between lock sections an open batcher with pending updates has a timer or a running flush; the callback count equals the callbacks there are; no idle channel is closed twice. |
| `PositionProtocol.FailureRearms` | internal/scheduler/position_batcher.go:201-243 | A failed flush of an open batcher is counted and arms the timer with the delay of as many failures in a row, for all options; that delay is min(retryMin*2^(k-1), retryMax) as long as doubling retryMax cannot overflow. |
| `PositionProtocol.TimersArmed` | internal/scheduler/position_batcher.go:190-232 | Exactly these events arm a timer: an update queued while no timer is set and no flush runs, with flushDelay; the end of a flush that leaves something pending, with flushDelay after a success and the delay of as many failures in a row after a failure. |
| `PositionProtocol.BooksAreHonest` | internal/scheduler/position_batcher.go:135-232 | A write begins with all that is pending; an update counts as written only when a write that carried it returned without an error, and as discarded only by Discard of its UID while it was pending. |
| `PositionProtocol.BackoffLaw` | internal/scheduler/position_batcher.go:323-332 | The k-th failure in a row waits min(retryMin*2^(k-1), retryMax), for all k, if and only if doubling retryMax does not overflow a 64-bit duration. |
| `PositionProtocol.FailureUndoesDiscard` | internal/scheduler/position_batcher.go:135-142 | Discard does not reach a running write: when that write fails the UID is pending again exactly if the write carried it. |
| `PositionBatcher.PositionBatcher.Queue` | internal/scheduler/position_batcher.go:116-133 | The fields take the Queue step of the protocol; a closed batcher rejects; a timer armed here waits flushDelay. |
| `PositionBatcher.PositionBatcher.Discard` | internal/scheduler/position_batcher.go:135-142 | The fields take the Discard step; UIDs that are not positive are ignored. |
| `PositionBatcher.PositionBatcher.FlushBegins` | internal/scheduler/position_batcher.go:201-215 | The first lock section of flushTimer takes the whole pending map as a batch in ascending order of UID, or nothing. |
| `PositionBatcher.PositionBatcher.FlushEnds` | internal/scheduler/position_batcher.go:217-232 | The second lock section of flushTimer: a failed batch goes back, the outcome is counted, and the timer object is armed again with the delay of that many failures, or with flushDelay after a success. |
| `PositionBatcher.PositionBatcher.CloseBegins` | internal/scheduler/position_batcher.go:149-161 | The first lock section of Close, and whether it has to wait for a callback. |
| `PositionBatcher.PositionBatcher.CloseTakes` | internal/scheduler/position_batcher.go:172-174 | The second lock section of Close takes what is left. |
| `PositionBatcher.PositionBatcher.CloseEnds` | internal/scheduler/position_batcher.go:175-185 | After the final write: a failed batch goes back to the pending map. |
| `PositionBatcher.PositionBatcher.CallbackReturns` | internal/scheduler/position_batcher.go:264-278 | The deferred end of a callback; the last one closes the idle channel, which is open then. |
| `PositionBatcher.PositionBatcher.TakePending` | internal/scheduler/position_batcher.go:280-306 | The pending map is emptied into a list of exactly its updates, each once, sorted by UID, in the spare buffer exactly if there is one that is large enough. |
| `PositionBatcher.PositionBatcher.MergeBack` | internal/scheduler/position_batcher.go:315-321 | A failed batch goes back except where a newer update of the UID is pending. |
| `PositionBatcher.PositionBatcher.Recycle` | internal/scheduler/position_batcher.go:308-313 | The batch is cleared and becomes the spare buffer exactly if there is none or a smaller one. |
| `ActorModel.UidKeptUntilClosed` | internal/actor/actor_loop.go:262-339 | An actor that holds a UID moves to another one, or to none, only if releaseRuntimeUID of that UID returned true in the same step, and the answers of the runtime in that step have an accepted logout, a refused one with a successful ForceClose, or a refused one with no ForceClose and an inactive session. |
| `ActorModel.AnswersDecide` | internal/actor/actor_loop.go:331-339 | What releaseRuntimeUID returns for every combination of answers: Logout first, then ForceClose as it is, or without it the opposite of IsActive, and where it panics. |
| `ActorModel.ReleaseIsRetried` | internal/actor/actor_loop.go:212-302 | A release gives up the UID exactly when nothing panics and the runtime lets go of it; otherwise the actor keeps it and is Releasing, so that the next tick is a release again. |
| `ActorModel.AssignmentLeaves` | internal/actor/actor_loop.go:262-281 | An assignment that is carried out leaves a fresh actor that wants to be online; another one leaves the old UID and an actor that is Releasing. |
| `ActorModel.RequestNeedsItsLease` | internal/actor/actor_loop.go:162-175 | A request whose UID or generation is not the current one changes nothing; another one takes effect, keeps the UID, and stops the actor exactly for a logout in manual mode. |
| `ActorModel.OutsideCalls` | internal/actor/actor_loop.go:50-101 | What the calls from outside the loop set, and that they set nothing else. |
| `ActorModel.FinishedUnquarantined` | internal/actor/actor_loop.go:125-132 | A stopped actor still holds its UID without being quarantined exactly when it held one, the runtime panicked during the stop, and the clean-up did not close it. |
| `ActorModel.AttemptsOutcome` | internal/actor/actor_loop.go:304-329 | Eight refusals quarantine the UID; the first answer that is not a refusal decides otherwise. |
| `ActorModel.StepCountsResets` | internal/actor/actor_state.go:22-41 | The generation is the number of resets modulo 2^64, and a step resets exactly when it assigns or gives up a UID. |
| `ActorModel.CommandRunsUnderItsLease` | internal/actor/actor_loop.go:104-175 | A command runs exactly when the actor held a UID at enqueue and no assignment or release, back to the same UID included, came in between, for fewer than 2^64 of them. |
| `ActorModel.StepUids` | internal/actor/actor_loop.go:125-160 | Only an assignment gives an actor a new UID; only a stop finishes or quarantines it. |
| `ActorModel.AssignedIffCarriedOut` | internal/actor/actor_loop.go:262-302 | An assignment leaves the actor with the wanted UID exactly when it held none or that one, or the release of what it held neither panicked nor was refused. |
| `Actor.Actor.ResetForUID` | internal/actor/actor_state.go:22-41 | The whole new state of a reset, on the fields. |
| `Actor.Actor.QuarantineCurrentUID` | internal/actor/actor_state.go:202-213 | The whole new state of a quarantine, on the fields. |
| `Actor.Actor.HandleLoopPanic` | internal/actor/actor_loop.go:225-240 | The whole new state after a recovered panic; the UID stays. |
| `Actor.Actor.ReleaseRuntimeUID` | internal/actor/actor_loop.go:331-339 | True exactly for an accepted logout, for a refused one with a successful ForceClose, or with no ForceClose and an inactive session; the panics likewise. |
| `Actor.Actor.ReleaseCurrentUID` | internal/actor/actor_loop.go:283-302 | The release of the model on the fields, panics included. |
| `Actor.Actor.ReleaseCurrentUIDUntilClosed` | internal/actor/actor_loop.go:304-329 | The retry loop equals the recursive specification for all answers. |
| `Actor.Actor.HandleControlSafely` | internal/actor/actor_loop.go:187-281 | An assignment succeeds exactly when the actor ends up reset to the wanted UID; a release that reports a UID has given it up. |
| `Actor.Actor.HandleRequestSafely` | internal/actor/actor_loop.go:162-175 | A command is executed exactly when its UID and generation are the current ones. |
| `Actor.Actor.StopBranch` | internal/actor/actor_loop.go:125-147 | The stop branch with the deferred recovery: the done channel is always closed. |
| `Actor.Actor.Iterate` | internal/actor/actor_loop.go:125-160 | Every iteration of the loop is one step of the model. |
| `LedgerModel.StepKeepsInv` | internal/actor/ledger.go:120-623 | Every operation keeps: actors under their own slots, draining and leased actors registered, slots unique, quarantine blocked and not leased. |
| `LedgerModel.QuarantineIsPermanent` | internal/actor/ledger.go:130-359 | In every run a quarantined UID stays blocked and is never leased again, although reaping deletes blocks. |
| `LedgerModel.LedgerStructure` | internal/actor/ledger.go:419-654 | In every run each actor sits only under its own slot, no two actors ever made share one, and leased and draining actors are registered. |
| `LedgerModel.ReapRemovesTheDead` | internal/actor/ledger.go:527-600 | After ReapDoneDraining no finished actor is in any of the three maps, and every lease of an actor that finished without being drained is blocked and in quarantine. |
| `LedgerModel.ReapLeaves` | internal/actor/ledger.go:555-600 | What a reap leaves, by the flags of the actors alone: exactly those that finished (of those draining, or of all) leave their slots and lose their leases; their UIDs are blocked and quarantined if the actor was quarantined or not draining, and free otherwise; everything else stays. |
| `LedgerModel.ReapOneAgrees` | internal/actor/ledger.go:602-623 | Reaping one draining actor does to its slot and leases what the reap of all does, and nothing to any other. |
| `LedgerModel.SafeIffOrderly` | internal/actor/ledger.go:177-623 | A step keeps every UID held under its lease or in quarantine, by one actor only, and finished actors clean, exactly when an assignment that is carried out, by the state and the answers to the release, has its lease (or an unheld quarantined UID), no lease of a held UID is dropped, and a stop closes or quarantines its UID. |
| `LedgerModel.RunSafeIffOrderly` | internal/actor/ledger.go:177-623 | A run has been safe so far exactly when every operation so far was orderly in that sense. |
| `LedgerModel.ExclusiveKept` | internal/actor/actor_loop.go:262-281 | In any state, leases apart, a step lets two actors hold one UID exactly when it carries out an assignment of a UID that another actor holds. |
| `LedgerModel.RunCleanIffStopsClean` | internal/actor/actor_loop.go:125-132 | Up to any point of a run every finished actor was quarantined or held no UID exactly when no stop so far panicked without a clean-up that closed the UID; nothing is asked of the leases. |
| `LedgerModel.FreedLeaseWasReleased` | internal/actor/ledger.go:555-623 | In a run with clean stops, whatever happened to the leases, a lease that a reap makes available again belonged to a finished actor that holds no UID: it was never left attached. |
| `LedgerModel.OneActorPerUid` | internal/actor/ledger.go:555-623 | While every operation is orderly no two actors hold the same UID; while every stop is clean, late assignments and dropped leases or not, a finished actor is quarantined or holds none. |
| `LedgerModel.LeasableMeansDetached` | internal/actor/ledger.go:177-194 | While every operation is orderly, which is the exact condition of RunSafeIffOrderly, a UID that can be leased is held by no actor. |
| `LedgerModel.ReapFreesHeldUid` | internal/actor/ledger.go:555-600 | A drained actor that finished with its leased UID leaves it leasable after the reap exactly when it is not quarantined. |
| `LedgerModel.PanicCanShareUid` | internal/actor/actor_loop.go:242-249 | A reachable run in which a panic during the stop lets a second actor get a UID that the first one still holds. |
| `LedgerModel.LateAssignmentSharesUid` | internal/actor/actor_loop.go:41-81 | A reachable run without any panic in which two running actors hold one UID: the first assignment is carried out after its lease was dropped and given to the second actor. |
| `LedgerModel.OneLeaseKept` | internal/actor/ledger.go:177-359 | The operations keep at most one lease per actor exactly when no lease goes to an actor that has one. |
| `LedgerModel.OneLeaseInRuns` | internal/actor/ledger.go:177-359 | Up to any point of a run no actor ever had two leases exactly when every lease so far went to an actor without one. |
| `LedgerModel.OneActorTwoLeases` | internal/actor/ledger.go:311-339 | A reachable run in which the second case occurs: an idle actor is leased for two UIDs before the first assignment. |
| `LedgerModel.LeaseNeedsRegistration` | internal/actor/ledger.go:177-194 | A lease keeps the structure of the ledger exactly when its actor is registered. |
| `Ledger.Ledger.TryLeaseUID` | internal/actor/ledger.go:177-194 | Succeeds exactly for a positive UID that is neither blocked nor leased and an actor that is not draining; the ledger stays in order exactly when that actor is still registered. |
| `Ledger.Ledger.BlockLeaseIfCurrent` | internal/actor/ledger.go:120-128 | Blocks the UID exactly when the lease is still the given one. |
| `Ledger.Ledger.BlockUID` | internal/actor/ledger.go:215-222 | Blocks a positive UID and nothing else. |
| `Ledger.Ledger.UnblockUID` | internal/actor/ledger.go:130-136 | Unblocks the UID unless it is in quarantine. |
| `Ledger.Ledger.UnleaseUID` | internal/actor/ledger.go:196-205 | Drops the lease of the given actor, or any lease when no actor is given. |
| `Ledger.Ledger.RemoveLeaseIfActor` | internal/actor/ledger.go:207-213 | Drops the lease exactly when it is the given one. |
| `Ledger.Ledger.ReserveManualActor` | internal/actor/ledger.go:341-359 | The actor that has the lease, or a new manual actor in the next slot with it; nothing for a blocked UID. |
| `Ledger.Ledger.ReserveEmptyAutoActor` | internal/actor/ledger.go:311-339 | The actor that has the lease, or some idle auto actor that is not draining if there is one; nothing changes otherwise. |
| `Ledger.Ledger.EnsureAutoActorSlots` | internal/actor/ledger.go:224-284 | Either creates actors, never above the target, or drains exactly the lowest-priority part of the batch size; never both. No actor of a later class is drained while one of an earlier class is left. |
| `Ledger.Ledger.BeginDrainSomeAutoActors` | internal/actor/ledger.go:433-464 | Drains exactly the lowest-priority part of the allowed size and leaves at least the smaller of floor and the previous count. No actor of a later class is drained while one of an earlier class is left. |
| `Ledger.Ledger.ReapDoneActors` | internal/actor/ledger.go:548-600 | The two scans and the lease scan together remove exactly what the set-based specification removes. |
| `Ledger.Ledger.ReapActor` | internal/actor/ledger.go:515-623 | One stopped actor is reaped if it is draining and finished, with its leases. |
| `Ledger.DrainManyIsSteps` | internal/actor/ledger.go:278-281 | Draining a chosen list is a sequence of single drain operations. |
| `Ledger.ScaleDownBatch` | internal/capability/robotconfig/scheduler_policy.go:53-72 | Drains nobody exactly when there is no surplus; otherwise at most 50 and at most the surplus, and at least 5 unless that is the whole surplus. Otherwise a 25th of the actors, rounded up, between 5 and 50. |
| `Ledger.WhoCounts` | internal/actor/ledger.go:231-263 | Which actors count for scaling, as pending, and as candidates: registered auto actors; of them those not draining and not yet running; those not draining. |
| `StopOrder.StopsByClass` | internal/actor/model.go:130-145 | The order over the status fields: actors without a UID, then those with no status, disconnected or still logging in, then stores, then others that run, and those in a party last; within a class the larger UID and then the larger slot first. |
| `StopOrder.LowestRespectsClasses` | internal/actor/ledger.go:656-676 | In a lowest part nobody is of a later class than anybody left. |
| `StopOrder.StrictTotalOrder` | internal/actor/ledger.go:656-676 | On non-negative UIDs and distinct slots the comparator is a strict total order. |
| `StopOrder.ContradictsItselfOn` | internal/actor/ledger.go:656-676 | The comparator puts two actors before each other exactly for two different UIDs that are not positive. |
| `StopOrder.LowestPartUnique` | internal/actor/ledger.go:656-676 | For each size only one set of actors stops before all others. |
| `StopOrder.SortForStop` | internal/actor/ledger.go:656-676 | Sorting orders exactly the given actors by the comparator. |
| `MailModel.NoMailLost` | internal/capability/mailnotify/notifier.go:63-193 | In every run a mail between baseline and durable cursor was collected by some poll if and only if it did not become visible behind the cursor; and such a system mail is in the durable pending set, or since that poll began its character was notified, or an entry for it was dropped as more than 24 hours old. |
| `MailModel.LateIsNeverFetched` | internal/capability/mailnotify/notifier.go:195-262 | A row that became visible behind the durable cursor of its table is in the query of no poll, at any later point of any run. |
| `MailModel.LateMailIsLost` | internal/capability/mailnotify/notifier.go:245-262 | A reachable run that loses a mail: the row with id 1 becomes visible after a poll has moved the cursor to id 2. |
| `MailModel.OnlyRealMail` | internal/capability/mailnotify/notifier.go:92-193 | In every run a character is notified only after system mail for it has arrived. |
| `MailModel.PollsAreBounded` | internal/capability/mailnotify/notifier.go:92-193 | The durable pending set never exceeds 4096 entries, so that loading never trims it; the log shows at most 64 deliveries per poll. |
| `MailModel.StepKeepsInv` | internal/capability/mailnotify/notifier.go:63-305 | Arrivals in any order of the ids, deletions, a lost or damaged file and every poll, with any failures, keep the accounting of mail. |
| `MailModel.FaultFreePollDelivers` | internal/capability/mailnotify/notifier.go:92-193 | A poll without failures, with fewer than 64 ready characters and at most 1000 rows behind each cursor notifies every system mail of both tables behind the cursors, leaves nothing pending, and moves each cursor to the greatest id of its table, or nowhere if no row is behind it. |
| `MailModel.FetchExact` | internal/capability/mailnotify/notifier.go:195-262 | A query gives rows of the table behind the cursor, in order and at most the limit, and every row with fewer than that many rows between the cursor and itself. |
| `MailModel.DelaysRespected` | internal/capability/mailnotify/notifier.go:92-193 | What waits after a poll has its old ready time, at most 24 hours ago, or became known now and is ready after the settle delay; nobody is notified before that time. |
| `MailModel.BaselineIsTheEnd` | internal/capability/mailnotify/notifier.go:63-91 | Without a readable file a poll notifies nobody and puts both cursors at the greatest ids of their tables. |
| `MailModel.KeptForADay` | internal/capability/mailnotify/notifier.go:156-193 | A collected mail is kept for 24 hours exactly when its character was not pending, or was pending with a ready time at least as late. |
| `MailModel.DroppedAfterOneMillisecond` | internal/capability/mailnotify/notifier.go:292-305 | A mail merged into an older entry is dropped one millisecond after it was collected. |
| `MailModel.TrimIsIdle` | internal/capability/mailnotify/notifier.go:264-328 | A cursor file the program wrote is never trimmed. |
| `MailNotify.Notifier.PollOnce` | internal/capability/mailnotify/notifier.go:63-154 | A poll is one step of the model, whatever the database, the sender, the context and the file do. |
| `MailNotify.SendReady` | internal/capability/mailnotify/notifier.go:109-140 | At most 64 attempts, each for another ready character, all ready ones unless a limit or a cancellation stops it; exactly the settled ones leave the map. |
| `MailNotify.CollectEvents` | internal/capability/mailnotify/notifier.go:163-180 | The intake loop equals its specification: what is added, and how many found no room. |
| `MailNotify.PrunePending` | internal/capability/mailnotify/notifier.go:292-305 | Exactly the entries that are too old go, and the result says whether there were any. |
| `MailNotify.TrimPending` | internal/capability/mailnotify/notifier.go:307-328 | Keeps as many entries as the limit allows, the first ones by ready time and then by the decimal text of the key. |
| `MailModel.TrimUnique` | internal/capability/mailnotify/notifier.go:307-328 | Which entries a trim keeps is determined. |
| `ActionPool.AtMostOnce` | internal/capability/marketapp/marketapp_actions.go:44-165 | In every run no action is executed or recorded twice, and only executed actions are recorded. |
| `ActionPool.ExactlyOnce` | internal/capability/marketapp/marketapp_actions.go:44-165 | If the pool finishes uncancelled, every action was executed and recorded exactly once. |
| `ActionPool.WhyCancelled` | internal/capability/marketapp/marketapp_actions.go:72-107 | The work context is cancelled exactly by the caller, by a panic of a worker, or by a failure when errors stop the job. |
| `ActionPool.Report` | internal/capability/marketapp/marketapp_actions.go:52-75 | failed is the rejected and errored entries plus worker panics; the job shows the first entries up to the limit. |
| `ActionPool.FailuresCounted` | internal/capability/marketapp/marketapp_actions.go:56-78 | failed is the number of rejected entries, of entries with an error and of panics; where errors stop the job one such entry has cancelled it. |
| `ActionPool.FirstErrorKept` | internal/capability/marketapp/marketapp_actions.go:66-75 | The first error is that of the step that reported the first rejected entry, error or panic. |
| `ActionPool.NoNewWorkAfterCancel` | internal/capability/marketapp/marketapp_actions.go:109-158 | Once the work is cancelled, only the actions that an executor is working on at that moment are still executed. |
| `ActionPool.NeverStuck` | internal/capability/marketapp/marketapp_actions.go:109-158 | While the pool has not finished some step is possible: the sender never blocks for ever. |
| `ActionPool.AlwaysReturns` | internal/capability/marketapp/marketapp_actions.go:44-165 | Every run has at most ten steps per action, one per worker and one more, not counting cancellations by the caller. |
| `ActionPool.WorkerCount` | internal/capability/marketapp/marketapp_actions.go:28-37 | One worker per action up to the wished concurrency, else the configured one, else 32; at least one. |
| `ActionPool.Record.Add` | internal/capability/marketapp/marketapp_actions.go:56-75 | The record closure on the shared variables keeps the counters in step with the entries. |
| `ActionPool.Record.Recover` | internal/capability/marketapp/marketapp_actions.go:94-104 | The recovery of a worker counts one failure and cancels. |
| `AutoLoop.AtMostOneLoop` | internal/capability/marketapp/marketapp_auto.go:12-117 | In every run at most one loop is live, the one of the current channel. |
| `AutoLoop.ClosedExactlyOnce` | internal/capability/marketapp/marketapp_auto.go:100-117 | Every done channel is closed exactly once, or its loop still runs. |
| `AutoLoop.MismatchUnreachable` | internal/capability/marketapp/marketapp_auto.go:100-105 | finishAutoLoop never meets another channel. |
| `AutoLoop.ShutdownIsFinal` | internal/capability/marketapp/marketapp_auto.go:75-98 | After Shutdown returned no loop runs and none is ever started. |
| `AutoLoop.StoppedLoopIsGone` | internal/capability/marketapp/marketapp_auto.go:60-73 | When the wait of StopAuto is over, that loop is gone for good. |
| `AutoLoop.StopReachesTheLoop` | internal/capability/marketapp/marketapp_auto.go:236-244 | A stop, a restart or a shutdown cancels the running loop, and it stays cancelled. |
| `AutoLoop.RestartIsHonoured` | internal/capability/marketapp/marketapp_auto.go:40-117 | A restarted loop is replaced by a new one when it ends, unless a stop or shutdown comes first. |
| `AutoLoop.StopWithdrawsRestart` | internal/capability/marketapp/marketapp_auto.go:60-117 | A stop or a shutdown withdraws a pending restart: no loop is started from then on, also when the old one ends, until a start or a restart comes. |
| `AutoLoop.StartStarts` | internal/capability/marketapp/marketapp_auto.go:12-52 | With no loop running a start or a restart starts a fresh loop that is not cancelled, and after a shutdown neither does anything. |
| `AutoLoop.OnlyStopsCancel` | internal/capability/marketapp/marketapp_auto.go:40-117 | Only a stop, a restart or a shutdown cancels a loop; the end of a loop closes its channel and starts a new one exactly if a restart is pending. |
| `AutoLoop.StartIsLostWhileStopping` | internal/capability/marketapp/marketapp_auto.go:12-19 | A start has no effect exactly while a loop runs or after a shutdown; during a stop it is lost. |
| `AutoLoop.App.StartAuto` | internal/capability/marketapp/marketapp_auto.go:12-30 | The start step on the fields. |
| `AutoLoop.App.RestartAutoAsync` | internal/capability/marketapp/marketapp_auto.go:40-52 | The restart step on the fields. |
| `AutoLoop.App.StopAutoWithWait` | internal/capability/marketapp/marketapp_auto.go:60-73 | The stop step on the fields, and the channel to wait for. |
| `AutoLoop.App.Shutdown` | internal/capability/marketapp/marketapp_auto.go:75-92 | The shutdown step on the fields, and the channel to wait for. |
| `AutoLoop.App.FinishAutoLoop` | internal/capability/marketapp/marketapp_auto.go:100-117 | The end of a loop on the fields; the channel it closes is open. |
| `MemoryPatch.AppliedCompletely` | internal/capability/marketapp/marketapp_memory_patch.go:166-196 | Without an error every planned address holds its byte exactly when no two plans contradict each other; no other address changes. |
| `MemoryPatch.AddressRestored` | internal/capability/marketapp/marketapp_memory_patch.go:166-218 | After a failure an address has its old byte exactly when no write reached it or some rollback write did. |
| `MemoryPatch.FailureRestoresMemory` | internal/capability/marketapp/marketapp_memory_patch.go:166-218 | When every rollback write takes effect memory is exactly as before, also when the failing write did or did not take effect. |
| `MemoryPatch.ReportAfterSuccess` | internal/capability/marketapp/marketapp_memory_patch.go:190-195 | After a success the report shows what memory holds. |
| `MemoryPatch.ReportAfterFailure` | internal/capability/marketapp/marketapp_memory_patch.go:198-218 | After a failure an entry shows what memory holds exactly under the stated outcome of its rollback write. |
| `MemoryPatch.SecondPatchWritesNothing` | internal/capability/marketapp/marketapp_memory_patch.go:169-174 | When memory holds the new bytes already, nothing is written. |
| `MemoryPatch.SpecsNeverShareAnAddress` | internal/capability/marketapp/marketapp_memory_patch.go:25-32 | No memory lets two of the six specs be located at one address. |
| `MemoryPatch.LocatedHolds` | internal/capability/marketapp/marketapp_memory_patch.go:290-330 | At a located address memory holds the pattern. |
| `MemoryPatch.MatchesAre` | internal/capability/marketapp/marketapp_memory_patch.go:290-345 | The scan lists an address exactly when memory shows the pattern there within a segment of at most 64 MiB that could be read: every byte but the target, and there the new byte, the expected one, an alternate, or with a level range any smaller one. |
| `MemoryPatch.FineMeans` | internal/capability/marketapp/marketapp_memory_patch.go:166-196 | Nothing fails exactly when every byte that has to change is written without an error, the write takes effect, and the byte can be read back. |
| `MemoryPatch.Locate` | internal/capability/marketapp/marketapp_memory_patch.go:290-319 | Finds an address exactly when all scanned segments can be read and the pattern occurs once in all of them. |
| `MemoryPatch.IsSupportedOriginal` | internal/capability/marketapp/marketapp_memory_patch.go:332-345 | The loop over the alternates decides the predicate. |
| `MemoryPatch.TargetSupported` | internal/capability/marketapp/marketapp_memory_patch.go:134-139 | At a located address the byte check of the preflight cannot fail. |
| `MemoryPatch.Patcher.Apply` | internal/capability/marketapp/marketapp_memory_patch.go:166-196 | Memory and report are those of the specification, for the first plan that fails or for all. |
| `MemoryPatch.Patcher.Rollback` | internal/capability/marketapp/marketapp_memory_patch.go:198-218 | Undoes the written plans, the last one first. |
| `MemoryPatch.Patcher.Patch` | internal/capability/marketapp/marketapp_memory_patch.go:97-164 | Nothing is written unless all six specs are located; then all six addresses hold the new byte, the report says so and the count is that of the bytes that were different; or memory is as before if the rollback writes take effect, and the report agrees. The patch is planned exactly when all six are locatable and readable, and succeeds exactly under the condition of FineMeans. |
| `ItemInfo.MergeIsUnion` | internal/capability/marketapp/marketapp_cera_iteminfo.go:37-68 | The merged data keeps the PVF bytes as its beginning and its IDs under the file's own scanner are exactly the union, with or without a final newline. |
| `ItemInfo.MergeAgain` | internal/capability/marketapp/marketapp_cera_iteminfo.go:37-68 | Merging the same rows again changes nothing. |
| `ItemInfo.MergeItemInfo` | internal/capability/marketapp/marketapp_cera_iteminfo.go:37-68 | Appends exactly the missing rows in ascending order of ID, after closing the last line, for any rows; changed means that a row was missing. |
| `ItemInfo.LeadingItemInfoID` | internal/capability/marketapp/marketapp_cera_iteminfo.go:219-240 | The byte loops return the ID between 1 and 2^32-1 that a line begins with, if any. |
| `ItemInfo.LeadingReads` | internal/capability/marketapp/marketapp_cera_iteminfo.go:219-240 | A line is read as blanks, then digits that are an ID, then a blank or nothing; any other line has no ID. |
| `ItemInfo.ScanItemInfoIDs` | internal/capability/marketapp/marketapp_cera_iteminfo.go:165-190 | The scan visits exactly the IDs of the lines. |
| `ItemInfo.ScannersRelate` | internal/capability/marketapp/marketapp_cera_iteminfo.go:169-217 | The line scanner sees exactly what the file scanner sees and the IDs with a bare LF behind them. |
| `ItemInfo.ScannersAgree` | internal/capability/marketapp/marketapp_cera_iteminfo.go:169-217 | The file scanner sees no more IDs than the line scanner, and the same exactly when every ID with a bare LF also begins a line that the file scanner accepts. |
| `ItemInfo.ScannersDiffer` | internal/capability/marketapp/marketapp_cera_iteminfo.go:169-217 | On "123" and LF one scanner sees 123 and the other nothing. |
| `ItemInfo.LoadRows` | internal/capability/marketapp/marketapp_cera_iteminfo.go:15-33 | The loaded rows are those of the readable files, line by line and file by file, and each can be written as a line of its own ID. |
| `ItemInfo.LoadedRowsAre` | internal/capability/marketapp/marketapp_cera_iteminfo.go:15-33 | Exactly the IDs that some file has are loaded, each with the trimmed text of its first line in the first file that has it. |
| `ItemInfo.FirstFileIs` | internal/capability/marketapp/marketapp_cera_iteminfo.go:15-33 | The file a row is taken from is the first one that has the ID, and none before it has. |
| `ItemInfo.LoadFile` | internal/capability/marketapp/marketapp_cera_iteminfo.go:22-27 | The callback on every line of a file adds its rows one after the other. |
| `ItemInfo.FileRowIs` | internal/capability/marketapp/marketapp_cera_iteminfo.go:22-27 | A file adds exactly its IDs without a row, each with the trimmed text of its first line; the other rows stay. |
| `ItemCodec.DecodeEncode` | internal/capability/marketapp/marketapp_config.go:269-361 | decode(encode(v)) is normalize(v) if that has at most 100000 IDs and is refused otherwise, for every list, up to the ID 2^32-1. |
| `ItemCodec.EncodeDecodeStable` | internal/capability/marketapp/marketapp_config.go:269-361 | Any text that can be read can be written and read again with the same result. |
| `ItemCodec.DecodeMeans` | internal/capability/marketapp/marketapp_config.go:269-301 | A list that is read is increasing and holds exactly the IDs its fields name. |
| `ItemCodec.NormalFormUnique` | internal/capability/marketapp/marketapp_config.go:321-333 | A list has only one normal form. |
| `ItemCodec.NormalizeIDs` | internal/capability/marketapp/marketapp_config.go:321-333 | Sorting a copy and compacting it in place gives the normal form. |
| `ItemCodec.Contains` | internal/capability/marketapp/marketapp_filter.go:96-99 | The binary search finds exactly the members of an increasing list. |
| `ItemCodec.LookUp` | internal/capability/marketapp/marketapp_filter.go:96-99 | Looking up in the normalised list is plain membership except for 0. |
| `ItemCodec.ParseID` | internal/capability/marketapp/marketapp_config.go:305-311 | The digit loop accepts exactly the decimal numbers from 1 to 2^32-1. |
| `ItemCodec.DecodeIDs` | internal/capability/marketapp/marketapp_config.go:269-301 | The loops over fields and ranges compute the specified list or the same kind of error; the range counter stops before it wraps. |
| `ItemCodec.EncodeIDs` | internal/capability/marketapp/marketapp_config.go:343-361 | The loop over runs prints the specified text. |
| `ItemCodec.FieldsAreTokens` | internal/capability/marketapp/marketapp_config.go:270-272 | A field is never empty and holds no separator. |
| `ItemCodec.FieldsCut` | internal/capability/marketapp/marketapp_config.go:270-272 | The comma, the full-width comma and every blank of Unicode cut a list in two. |
| `ItemCodec.FieldsWhole` | internal/capability/marketapp/marketapp_config.go:270-272 | Nothing else does: a text without them is one field. |
| `ItemCodec.SpanOfParts` | internal/capability/marketapp/marketapp_config.go:274-290 | One number is an ID, two with a dash a range that does not run backwards; anything else is refused, with the error that is reported. |
| `ItemCodec.ParseMeans` | internal/capability/marketapp/marketapp_config.go:305-311 | A text is read as an ID exactly when it is its decimal form, zeros in front allowed. |
| `ItemCodec.DecodeAccepts` | internal/capability/marketapp/marketapp_config.go:269-301 | A list is read exactly when every field is an ID or a range and they name at most 100000 IDs, repeated ones counted again. |
| `CeraPlanner.PlanMeetsTargets` | internal/capability/marketapp/marketapp_cera_planner.go:10-31 | Every pending row gets exactly restockQty minus stock orders. |
| `CeraPlanner.PendingExactly` | internal/capability/marketapp/marketapp_cera_planner.go:10-31 | The pending rows are exactly the enabled, accepted and known rows with a positive target above the stock, each at its place, with restockQty minus stock. |
| `CeraPlanner.PendingComplete` | internal/capability/marketapp/marketapp_cera_planner.go:10-31 | Every eligible row below its target is pending. |
| `CeraPlanner.FairInEveryPrefix` | internal/capability/marketapp/marketapp_cera_planner.go:32-59 | In every prefix of the plan two rows that are not yet done differ by at most one order, the earlier row ahead. |
| `CeraPlanner.OwnersWithinLimit` | internal/capability/marketapp/marketapp_pricing.go:141-149 | An owner's count grows by exactly its orders, and an owner that gets an order is not taken past the limit. |
| `CeraPlanner.PickUnique` | internal/capability/marketapp/marketapp_pricing.go:141-149 | Which owner is picked is determined. |
| `CeraPlanner.PickMeans` | internal/capability/marketapp/marketapp_pricing.go:141-149 | The owner picked has fewer orders than the limit, and every owner between the base and it, around 2^32, has as many or more. |
| `CeraPlanner.PickExists` | internal/capability/marketapp/marketapp_pricing.go:141-149 | There is an owner to pick exactly when some of the 2^32 owners has room. |
| `CeraPlanner.OrdersFindOwners` | internal/capability/marketapp/marketapp_pricing.go:141-149 | A number of orders finds owners exactly when it does not exceed the places left under the limit. |
| `CeraPlanner.UnusedOwnersHaveRoom` | internal/capability/marketapp/marketapp_pricing.go:141-149 | With a positive limit there are at least as many places as owners without orders, so that 2^32 owners leave room for any plan. |
| `CeraPlanner.FirstWithRoom` | internal/capability/marketapp/marketapp_pricing.go:141-149 | Whenever some owner has room the search ends, at the first owner from the base on, around 2^32, that has room. |
| `CeraPlanner.Planner.PlanCera` | internal/capability/marketapp/marketapp_cera_planner.go:3-60 | The orders are the concatenated rounds, each under the owner whose turn it is; both loops terminate. |
| `StackSplit.PlansAreProper` | internal/capability/marketapp/marketapp_planner.go:107-137 | A positive quantity is cut into the rounded-up number of records exactly when quantity + stack size - 1 does not overflow. |
| `StackSplit.RecordsAre` | internal/capability/marketapp/marketapp_planner.go:107-117 | The number of records for every quantity, none for 0 or less. |
| `StackSplit.SharesFit` | internal/capability/marketapp/marketapp_planner.go:257-265 | Every record gets between one piece and a full stack. |
| `StackSplit.SplitConserves` | internal/capability/marketapp/marketapp_planner.go:107-137 | The records together hold exactly the quantity. |
| `StackSplit.CountsExact` | internal/capability/marketapp/marketapp_planner.go:257-265 | The int32 counts are those of the split exactly when the largest share fits into an int32. |
| `StackSplit.ClampIsLargest` | internal/capability/marketapp/marketapp_planner.go:223-238 | The clamped count is the largest at most the wished one whose total fits into an int32; a positive count is never raised. |
| `StackSplit.TotalIsExact` | internal/capability/marketapp/marketapp_planner.go:240-255 | After the clamp total = unit * count, at least 1, if and only if the unit price is positive. |
| `StackSplit.OffersConserve` | internal/capability/marketapp/marketapp_planner.go:139-194 | All offers of a row hold at most the quantity and at least one piece per record, stackables for unit price times count; equipment is offered piece by piece, all of it, each piece for its unit price. |
| `StackSplit.AppendActions` | internal/capability/marketapp/marketapp_planner.go:139-194 | One action per record with the clamped count and total. |

## Left out

- LedgerModel.LeasableMeansDetached: promises nothing once an operation was not orderly; LateAssignmentSharesUid shows such a run, and FreedLeaseWasReleased says what remains true of freed leases then.
- The moments inside a poll of the mail tables: a poll is one step, so that a row which appears while it runs counts as one that appears behind it.
- MemoryPatch.Patcher.Patch: assumes that nobody else writes to the process between locating, reading and writing.
- StopOrder.SortForStop: an insertion sort stands for the library's sort, which by StrictTotalOrder has the same result.
- ItemCodec.SortedCopy: an insertion sort stands for the library's sort; it is proved to sort and to permute.
- CeraPlanner.Planner.PlanCera: requires that the owners have places left for all orders of the plan, which OrdersFindOwners shows to be exactly when owners for them exist; without that the code searches for ever. A positive limit, which the configuration check demands, and 2^32 owners that are mostly unused give far more places than any plan needs.
- A pending key in the cursor file that is not a decimal number below 2^32, which the program never writes.
- Overflow of the slot counter, which would take 2^63 actors.
- The bodies of actor commands and ticks: they may leave any state, busy flag, failure count and online wish, but never touch the UID.
- Ledger operations that only read, AdoptManualActors, and the drains of all actors or of given UIDs, which are sequences of the steps proved here.
- The lease and actor fields are read under two locks; the ledger steps read the actors at one moment.
- Creation failures of executors, the delay between two tasks, log summaries and the rejection queue of the worker pool.
- What an automatic round does, and the clocks between rounds.
- Messages, names, prices drawn at random and the other fields of market actions.
- The special auction plan, the collector and the queues of the market engine.
- RandomizedDue (the jitter of a schedule), EvaluateStatus (what the status pages show) and nextSpecialAddInfo (serial numbers of special listings): none of them influences which UID an actor holds, what the ledger contains, or which orders are placed.
- The price factors: they only decide the unit price, and the model allows any unit price.
- setBusy: it changes only the state and the busy flag, which the model lets a command or a tick leave at any value.
- SQL, TCP, process control, the web administration and the INI reader.
