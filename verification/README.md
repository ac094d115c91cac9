# MediaFlow verification

A Dafny model of the parts of MediaFlow in which state, interleaving, string rewriting or ordering make
the code hard to be sure of, with proofs of what those parts keep. Nothing in it was executed.

`dafny verify dfyconfig.toml` checks the whole project.

## What is modelled

| file | subject |
|---|---|
| `task_kernel.dfy` | the scheduling repository: a Task row and every SQLite transaction that can change it, under a claim fence, by the operator, or by the writers that carry no fence at all, as functions that commit a whole new row or nothing |
| `kernel_columns.dfy`, `kernel_guards.dfy` | those transactions read along the columns: what each writes to which column and which stored values it asks for; the lease of a claim and the evidence of a Result over every run |
| `kernel_safety.dfy`, `kernel_liveness.dfy` | what every interleaving of those transactions keeps, which transaction breaks what, and exactly which unfinished Tasks can still move |
| `direct_organize.dfy` | one direct CLI organize process as a class; before each of its transactions any other processes may commit anything, and its own call may raise before the commit or after it; and what becomes of a pass that nobody disturbs |
| `pending_queue.dfy` | the resident Worker's choice of a pin, the claims that follow from it, and fairness |
| `managed_configuration.dfy` | drafting and activating configuration revisions, and resolving pinned and current ones while that goes on |
| `library_roots.dfy` | the three deepest-root selectors and the Storage-relative path |
| `python_text.dfy`, `text_order.dfy`, `options.dfy` | strip, split, splitlines, string order, Option |
| `environment_file.dfy` | the KEY=VALUE parser and a printer that it inverts |
| `preflight.dfy` | the container entrypoint's checks and the health probe that repeats them |
| `redaction.dfy`, `concealment.dfy`, `credentials.dfy` | secret masking as string rewriting, exactly which secrets it never shows, and exactly what it takes for a credential |
| `explore_list.dfy`, `explore_stats.dfy` | the fake upstream's filters, stable sort and paging; its counters under every thread interleaving |
| `gated_worker.dfy` | which write the gated worker pauses, and who owns the patched write method |
| `roadmap.dfy`, `governance.dfy` | the Roadmap table parser and the acceptance decision over the planning documents |

Code that changes things step by step is imperative here too: the CLI process, the entrypoint, the resident
Worker, the gate and the counters are classes, and the loops of the sources are loops with invariants. Each
is proved against a function of its inputs or of its old state, and the theorems are about that function. The
kernel is a state machine: each transaction of the repository that writes a scheduled Task, its sources or its
Results is one constructor of `TaskKernel.Change`, and "every interleaving of every process" is a quantification over sequences of attempted
transactions (`TaskKernel.Run`).

Assumptions: instants are integers of one common clock; claim tokens and Worker names drawn from `uuid4` and
`secrets` are never guessed by another process (`DirectOrganize.Foreign`); the filesystem has no symbolic
links, so `Path.resolve` is lexical; SHA-256, the configuration loader and case folding are arbitrary
functions; ISO instants of one zone sort like the instants.

## Where the code and its documentation part

The code is followed; each point is a proved lemma.

- Reviews, decisions, ignores, retries, analysis projections and the reconciliation of a manual execution write the
  sources of a scheduled Task without a fence. A Task that gave its slot back can therefore hold machine work
  (`KernelSafety.TidyIff`), and reconciling an admitted execution before a Worker took it leaves a queued Task that
  no Worker ever claims and that keeps its slot until it is cancelled (`KernelSafety.StatusIff`,
  `KernelLiveness.MisqueuedKeepsSlot`, `KernelLiveness.MisqueuedIsReachable`).
- The direct pass chooses its arm from an earlier read. An ignore before the deferring release leaves a Task waiting
  with every source finished (`DirectOrganize.IgnoredBeforeDeferStrands`); a retry before the completing release is
  written back unless the attempt has a Result (`DirectOrganize.RetriedBeforeSettleIff`). Which writes in between
  spoil which arm is exact (`DirectOrganize.SideWriteSpoilsIff`, `DirectOrganize.ArmStillFits`).
- A cancel accepted on a Task with a source that an operator sent back after a recorded failure is never settled,
  and the Task never goes on: the recorded outcome may not be rewritten
  (`KernelLiveness.OperatorSettlesIff`, `KernelLiveness.CancelledRetryWaitsForEver`, `KernelLiveness.CancelledRetryIsReachable`).
- Adopting a confirmed decision grants the authority of an admitted Task and queues it again without asking for the
  in-flight marker (`KernelSafety.AuthorityIff`, `KernelSafety.MarkerIff`). A source whose row it replaces may be
  mutated again (`KernelLiveness.FreshIdentityMayMutate`); one whose row it keeps counts attempts from zero, so that
  its next outcome is refused when an earlier first attempt has a Result
  (`KernelLiveness.AdoptedAttemptMayBeUnrecordable`).
- Yielding keeps the claim token and Worker name (`mediaflow/infrastructure/sqlite_runtime.py:18773-18849`), so
  a control accepted on a yielded, queued Task is not settled at once although no Worker holds it
  (`KernelLiveness.OperatorSettlesIff`, `KernelLiveness.YieldedCancelIsNotImmediate`).
- Lease expiry does not bring back a Task whose owner died after the running boundary: the claim requires status
  pending (`KernelLiveness.ReclaimableIff`, `KernelLiveness.AbandonedTaskKeepsSlot`).
- A pause acknowledgement without a fence that commits late can reopen settled work, since neither resuming nor
  requeueing moves the control revision and the queue state is not compared
  (`KernelLiveness.SettledReopensIff`, `KernelLiveness.CompletedTaskReopensInARun`).
- The waiting arm of the direct pass first publishes the admitted projection, so the row says pending until the
  second transaction commits and another Worker can take it
  (`DirectOrganize.WaitingArmReopensTakeover`); all settling arms also erase the start time.
- The failure arm is refused while a source is queued or processing
  (`DirectOrganize.SettleCommitsIff`, `DirectOrganize.UnprovedScopeWithMachineWorkKeepsSlot`).
- A finished boundary is closed without asking for a Result, although the release's own description asks for one
  (`mediaflow/infrastructure/sqlite_runtime.py:18427-18434`); the source may then be mutated again when its status is
  resumable (`KernelLiveness.ClosedBoundaryReplayableIff`).
- A pending Task with an effect in flight whose owner died stays the head of the queue, and the resident Worker
  then serves no other pin (`PendingQueue.StuckHeadStarvesOtherPins`, `PendingQueue.StuckHeadIsReachable`).
- An empty pin id is no pin: it follows the Active revision (`ManagedConfiguration.EmptyPinFollowsActive`).
- An accepted media root may contain the data volume; the two are apart only when every directory above the
  volume is a forbidden root (`Preflight.ApartIff`, `Preflight.VolumeInsideMediaAllowed`).
- An environment value with a NUL character stops the entrypoint but not the probe (`Preflight.AgreementIff`).
- Masking can spell a secret out again when the secret has a star at an edge or three together
  (`Redaction.ReplaceRemovesIff`, `Concealment.NeverShownIff`).
- The upstream's sort ignores the direction asked for, and pages below one are not refused
  (`ExploreList.DirectionIsIgnored`, `ExploreList.PagesBelowOne`).
- The gated move pauses with two folder writes complete; its comment says three (`GatedWorker.PausesIff`).
- A gated start that gives up joining can let a second worker in, and the first gate can stay installed; two workers
  are alive exactly when a start overlaps the forgotten one (`GatedWorker.OneWorkerAndRestored`,
  `GatedWorker.ForgottenGateStays`).
- Dotted Slices such as 22.3 and 22.6 share one Roadmap entry, the last one's (`Roadmap.PartsShareOneRow`).

## Model

| member | source | states |
|---|---|---|
| `TaskKernel.RunConcat` | mediaflow/application/task_scheduling.py:167-207 | running two stretches of transactions one after the other is running their concatenation, so every interleaving is one run |
| `KernelColumns.StatusesAreSorted` | mediaflow/domain/task_persistence.py:258-268 | every source is machine work, waiting for a person, paused or finished, and one of these only; a pause rewrites the machine work and a cancel all that is not finished |
| `KernelColumns.OwnerColumns` | mediaflow/infrastructure/sqlite_runtime.py:17850-17919 | the generation grows by one with each claim and each re-entry and never otherwise; the owner is the claimer until a release, a re-entry or a hand-over that frees the slot |
| `KernelColumns.LeaseColumn` | mediaflow/infrastructure/sqlite_runtime.py:17921-17960 | the lease is set by a claim and a heartbeat to their own end, and erased by whatever gives the Task back |
| `KernelColumns.QueueColumn` | mediaflow/infrastructure/sqlite_runtime.py:17779-19190 | the queue state after every transaction: which ones move a Task, and where to |
| `KernelColumns.StatusColumn` | mediaflow/infrastructure/sqlite_runtime.py:18399-18675 | the flow status after every transaction |
| `KernelColumns.StartedColumn` | mediaflow/infrastructure/sqlite_runtime.py:17961-18004 | the running boundary and an adoption keep an earlier start time; every publication of the aggregate overwrites it |
| `KernelColumns.ControlColumns` | mediaflow/infrastructure/sqlite_runtime.py:18006-18057 | the accepted control stays until a re-entry clears it; each newly accepted one is listed once |
| `KernelColumns.AdmissionColumns` | mediaflow/infrastructure/sqlite_runtime.py:18773-18976 | the due time is rewritten by the four ways back into the queue, the authority by an adoption, and nothing else of the admission ever |
| `KernelColumns.MarkerColumn` | mediaflow/infrastructure/sqlite_runtime.py:19350-19413 | what sets and what clears the in-flight marker, transaction by transaction |
| `KernelColumns.SourceColumns` | mediaflow/infrastructure/sqlite_runtime.py:19880-19972 | the status, attempts and supersession of a source with a row, after every transaction that leaves it the row |
| `KernelColumns.SourceRows` | mediaflow/infrastructure/sqlite_runtime.py:11840-11903 | which transactions add or remove source rows, and how a new row begins |
| `KernelColumns.ResultColumns` | mediaflow/infrastructure/sqlite_runtime.py:19415-19541 | each recording adds one Result, under the attempt's own name or outside the attempts, and nothing removes one |
| `KernelColumns.OwnerCommitsIff` | mediaflow/infrastructure/sqlite_runtime.py:17921-18004 | the stored values that a heartbeat, the running boundary, a publication and a yield ask for |
| `KernelColumns.StartCommitsIff` | mediaflow/infrastructure/sqlite_runtime.py:19219-19348 | a start commits exactly for the next attempt of a resumable source without an effect on record that is not the one in flight, or the first of a source without a row |
| `KernelColumns.MutateCommitsIff` | mediaflow/infrastructure/sqlite_runtime.py:19350-19413 | a mutation boundary commits exactly for a processing source without an effect on record while no other is in flight |
| `KernelColumns.ProgressCommitsIff` | mediaflow/infrastructure/sqlite_runtime.py:19880-19972 | a progress frame commits exactly for the current attempt, and never changes an outcome or a reported attempt |
| `KernelColumns.OutcomeCommitsIff` | mediaflow/infrastructure/sqlite_runtime.py:19415-19541 | an outcome commits exactly as the first of a processing attempt, for the direct and the manual writer alike |
| `KernelColumns.PlanCommitsIff` | mediaflow/infrastructure/sqlite_runtime.py:14799-14952 | a plan commits exactly when its failures have rows and its additions have none |
| `KernelColumns.ReleaseCommitsIff` | mediaflow/infrastructure/sqlite_runtime.py:18399-18675 | a settlement or deferral with any overlay commits exactly under a live claim, with no cancel, a closable marker, no machine work in the caller's view and no rewritten outcome |
| `KernelColumns.AcknowledgeCommitsIff` | mediaflow/infrastructure/sqlite_runtime.py:18399-18675 | an acknowledgement commits exactly at the last revision, with the Task's authority, by its live owner or without any, under the same view |
| `KernelColumns.RequestCommitsIff` | mediaflow/infrastructure/sqlite_runtime.py:18139-18188 | a control is accepted exactly when it is the accepted one already, or the Task is neither settled nor cancelled |
| `KernelColumns.ReentryCommitsIff` | mediaflow/infrastructure/sqlite_runtime.py:18851-19190 | a requeue and a resumption commit exactly from their queue states, with no cancel, the same pin, the expected revision and a free slot |
| `KernelColumns.AdoptCommitsIff` | mediaflow/infrastructure/sqlite_runtime.py:11602-11903 | an adoption commits exactly for a waiting, unfinished Task of the same pin with a free slot, over unfinished sources of its own |
| `KernelColumns.DecisionCommitsIff` | mediaflow/infrastructure/sqlite_runtime.py:4411-4451 | a review, a decision, an ignore and a retry ask for the source's status and for nothing about the claim |
| `KernelColumns.ProjectCommitsIff` | mediaflow/infrastructure/sqlite_runtime.py:3661-3876 | an analysis projection creates a pending source only where there is none, and writes any other status over what is there |
| `KernelColumns.HandOffCommitsIff` | mediaflow/infrastructure/sqlite_runtime.py:13501-13705 | a hand-over takes one failed or partial source that is still the Task's own, before the Task is settled |
| `KernelColumns.ReconcileCommitsIff` | mediaflow/infrastructure/sqlite_runtime.py:16857-16975 | a reconciliation closes sources of its Task as failed or partial |
| `KernelColumns.KernelCommits` | mediaflow/infrastructure/sqlite_runtime.py:17669-17712 | a Task is admitted exactly once and into a free slot; Workers register, beat while live, and stop |
| `KernelColumns.RowWrites` | mediaflow/infrastructure/sqlite_runtime.py:17669-17712 | an admitted row is queued and untouched, and only a Task's own transactions change its row |
| `KernelColumns.WorkerWrites` | mediaflow/infrastructure/sqlite_runtime.py:8640-8788 | a Worker's entry is changed by its registration, its heartbeats and its stop alone |
| `KernelGuards.LiveLeaseBarsClaims` | mediaflow/infrastructure/sqlite_runtime.py:19673-19718 | before its lease ends nobody claims an owned Task, whoever asks |
| `KernelGuards.ClaimCommitsIff` | mediaflow/infrastructure/sqlite_runtime.py:19673-19718 | the instants at which one Worker's claim commits: from the due time and the end of the lease on, while the Worker's heartbeat is fresh, for a pending unmarked Task of its command and pin |
| `KernelGuards.ClaimGrants` | mediaflow/infrastructure/sqlite_runtime.py:17850-17919 | a claim grants the next generation and a lease of exactly the asked length and writes nothing else |
| `KernelGuards.OwnershipEndsIff` | mediaflow/infrastructure/sqlite_runtime.py:19720-19728 | an ownership survives a transaction exactly unless its owner releases or yields, a hand-over frees the slot, or a claim is made at or after the lease's end |
| `KernelGuards.OwnedForItsLease` | mediaflow/infrastructure/sqlite_runtime.py:17779-17919 | over every run: while no claim is made at or after the lease's end, nobody takes a claimed Task from its owner |
| `KernelGuards.ClaimedForItsLease` | mediaflow/infrastructure/sqlite_runtime.py:17779-17919 | so a claim owns its Task for the whole lease it asked for |
| `KernelGuards.RecordedIff` | mediaflow/infrastructure/sqlite_runtime.py:19829-19851 | a recorded Result leaves its source replayable exactly when it was and the Result has certainty none, no success, no uncertain effect and no operation |
| `KernelGuards.ActedSourceIsLeftAlone` | mediaflow/infrastructure/sqlite_runtime.py:19219-19413 | once a Result that acts is recorded for a source, no continuation mutates that source, nor starts it while it has a row |
| `KernelGuards.CleanResultKeepsGuard` | mediaflow/infrastructure/sqlite_runtime.py:19829-19851 | a Result that does not act, or of another source, leaves the guard as it was |
| `KernelGuards.OutcomeClearsMarkerIff` | mediaflow/infrastructure/sqlite_runtime.py:19518-19536 | an outcome clears the in-flight marker exactly when it is its own source's and leaves nothing unknown |
| `KernelSafety.NextKeepsRow` | mediaflow/infrastructure/sqlite_runtime.py:18399-18675 | every transaction, fenced or not, keeps the scheduling columns in agreement: a claimed row has an owner, a lease and a generation; no other row has a lease; a waiting, suspended or settled one has no owner, a suspended one no effect in flight; the control is the last one accepted, and an accepted cancel stays the control |
| `KernelSafety.RunKeepsKernel` | mediaflow/infrastructure/sqlite_runtime.py:17669-19573 | that holds in every kernel that any interleaving of any processes reaches |
| `KernelSafety.TidyIff` | mediaflow/infrastructure/sqlite_runtime.py:4411-4451 | for every transaction: a Task without a slot stays without machine work, and a handed-over source keeps its outcome, exactly when the transaction is not a decision, a retry or a projection to machine work on a Task without a slot, nor a retry or a projection of a handed-over source |
| `KernelSafety.RunKeepsTidy` | mediaflow/infrastructure/sqlite_runtime.py:1905-1926 | so in every run without a decision, a retry or a projection of the Task a released slot means that no machine work is left |
| `KernelSafety.StatusIff` | mediaflow/infrastructure/sqlite_runtime.py:16857-16975 | for every transaction: the flow status keeps agreeing with the queue state exactly when the transaction is not a reconciliation of a queued, suspended or settled Task that writes another status than that state has |
| `KernelSafety.RunKeepsStatus` | mediaflow/infrastructure/sqlite_runtime.py:18399-18675 | so without a reconciliation a queued Task is pending, a suspended one running, a settled one finished, and a cancelled settled one cancelled |
| `KernelSafety.MarkerIff` | mediaflow/infrastructure/sqlite_runtime.py:13550-13705 | for every transaction: only owned Tasks keep having an effect in flight exactly when it is not a hand-over that takes the slot from an owner while another source is marked |
| `KernelSafety.RunIsLater` | mediaflow/infrastructure/sqlite_runtime.py:17669-17712 | an admitted Task is never lost: after every run its row exists with the admitted command, time and pin, an authority that is only ever granted, all accepted controls, all recorded attempts and every effect not proved empty |
| `KernelSafety.AuthorityIff` | mediaflow/infrastructure/sqlite_runtime.py:11742-11756 | the admission of a Task changes exactly when a confirmed decision is adopted on one that had no authority |
| `KernelSafety.FinishedIff` | mediaflow/infrastructure/sqlite_runtime.py:19880-19972 | for every transaction: a finished source keeps its row and outcome exactly when the transaction is not a start or a retry of it, a projection of another status or a reconciliation to another one |
| `KernelSafety.OutcomeIsKept` | mediaflow/infrastructure/sqlite_runtime.py:19880-19972 | so a finished outcome other than a failed one is kept by every run without a projection or a reconciliation of that source |
| `KernelSafety.RowIsDeletedIff` | mediaflow/infrastructure/sqlite_runtime.py:11840-11903 | a source loses its row exactly when an adoption retires it; each replacing row starts pending, with no attempts and with the Results of its own name |
| `KernelSafety.StaleRefused` | mediaflow/infrastructure/sqlite_runtime.py:19720-19728 | no guarded transaction commits under an ownership the row has left behind |
| `KernelSafety.StaleFenceStaysStale` | mediaflow/domain/task_scheduling.py:524-548 | once stale, a fence is stale in every continuation and nothing it guards ever commits |
| `KernelSafety.ClaimSupersedes` | mediaflow/infrastructure/sqlite_runtime.py:17779-17919 | every claim mints an ownership newer than all earlier ones, so at most one owner exists at any instant |
| `KernelSafety.StepCapacity` | mediaflow/infrastructure/sqlite_runtime.py:19643-19648 | only an admission, a requeue or an adoption takes a new slot, and only below the capacity it was given |
| `KernelSafety.RunCapacity` | mediaflow/application/task_scheduling.py:216-268 | over every run whose admissions see capacities up to a limit, used slots never pass the limit, or the number already in use |
| `KernelSafety.ReachableKernels` | mediaflow/infrastructure/sqlite_runtime.py:17669-17712 | from the empty database every reachable kernel satisfies the row invariant and uses at most the capacity its admissions saw |
| `KernelLiveness.ReclaimableIff` | mediaflow/infrastructure/sqlite_runtime.py:19673-19718 | a slot-holding Task can be claimed by some Worker at some instant exactly when its status is pending and no effect is in flight |
| `KernelLiveness.AbandonedTaskKeepsSlot` | mediaflow/infrastructure/sqlite_runtime.py:17961-18004 | past the running boundary a vanished owner's Task keeps its slot through every run without that owner's fence and without a hand-over, and its sources through every such run without an unfenced writer |
| `KernelLiveness.CancelIsFinal` | mediaflow/infrastructure/sqlite_runtime.py:18139-18188 | an accepted cancel stays the last control over every continuation; nothing requeues, adopts, resumes, settles, defers or yields the Task, and if it settles it settles as cancelled and, without a reconciliation, stays so |
| `KernelLiveness.ControlOverlayIff` | mediaflow/application/task_scheduling.py:988-1075 | the rewrite of an acknowledged control leaves no machine work, and it respects every recorded outcome exactly when no source to be rewritten has one |
| `KernelLiveness.OperatorSettlesIff` | mediaflow/application/task_scheduling.py:373-404 | for every row: the operator's own call settles the last accepted control exactly when one was accepted, no claim token is left over, no effect is in flight and no source to be rewritten has a recorded outcome |
| `KernelLiveness.YieldedControlWaitsForClaim` | mediaflow/infrastructure/sqlite_runtime.py:18773-18849 | a yielded Task with a pending control stays queued under its old token until a claim or a hand-over, with its sources unchanged but for unfenced writers |
| `KernelLiveness.YieldedCancelIsNotImmediate` | mediaflow/infrastructure/sqlite_runtime.py:18180-18188 | the concrete run: claimed, yielded, cancelled, and not settled |
| `KernelLiveness.SettledReopensIff` | mediaflow/infrastructure/sqlite_runtime.py:18399-18580 | for every transaction on a settled Task: it leaves that state, and is then suspended, exactly when it is an unfenced acknowledgement of the last accepted pause that the marker, the authority, the unfinished sources its caller had read and the recorded outcomes admit; any other keeps the scheduling columns, and the whole row unless it is an unfenced writer or a repeated cancel |
| `KernelLiveness.LatePauseIff` | mediaflow/application/task_scheduling.py:988-1075 | for every row without an owner: that acknowledgement commits exactly when those four admit it, whatever the queue state |
| `KernelLiveness.CompletedTaskReopensInARun` | mediaflow/infrastructure/sqlite_runtime.py:19092-19190 | the concrete run that suspends a completed Task |
| `KernelLiveness.SettledIsFinal` | mediaflow/infrastructure/sqlite_runtime.py:18460-18580 | in every run without such a late acknowledgement settled work stays settled with its scheduling columns, and exactly as it was unless an unfenced writer touched it |
| `KernelLiveness.SettledRetryNeverStarts` | mediaflow/infrastructure/sqlite_runtime.py:1905-1926 | in those runs a source of a settled Task that was sent back for another attempt is never started |
| `KernelLiveness.UnprovedEffectNeverReplayed` | mediaflow/infrastructure/sqlite_runtime.py:19219-19413 | over every continuation a source identity with a recorded effect that is not proved empty is never mutated again, and never started again while it has a row |
| `KernelLiveness.FreshIdentityMayMutate` | mediaflow/infrastructure/sqlite_runtime.py:11840-11903 | the row that takes the place of a retired one may be started unless the marker names it, and its first attempt may be mutated exactly when no effect is in flight, whatever the retired identity had recorded |
| `KernelLiveness.ClosedBoundaryReplayableIff` | mediaflow/infrastructure/sqlite_runtime.py:19746-19787 | a source whose boundary was closed without a Result may be started again exactly when its status is resumable |
| `KernelLiveness.AdoptedAttemptMayBeUnrecordable` | mediaflow/infrastructure/sqlite_runtime.py:21706-21744 | the outcome of the first attempt after an adoption that kept the row is refused exactly when an earlier first attempt has a Result |
| `KernelLiveness.ReEntryIff` | mediaflow/infrastructure/sqlite_runtime.py:18851-18976 | some claim, requeue, resumption or adoption of an unowned, unsettled Task commits in some kernel exactly when its queue state, status, control and marker allow it as CanReenter says |
| `KernelLiveness.StopsIff` | mediaflow/application/task_scheduling.py:373-404 | some control that an operator may ask for is accepted and settled at once exactly when no token is left over, no effect is in flight and no source that the mildest admissible control rewrites has a recorded outcome |
| `KernelLiveness.BlockedIff` | mediaflow/infrastructure/sqlite_runtime.py:18851-18976 | for every unowned, unsettled Task: nobody can send it on and no control can be settled exactly when it is blocked in one of the listed ways, among them a cancel over a recorded outcome |
| `KernelLiveness.ClaimedIsHeldOrReclaimable` | mediaflow/infrastructure/sqlite_runtime.py:19673-19718 | a claimed Task is held by its owner exactly when no ordinary claim can take it |
| `KernelLiveness.CancelledRetryWaitsForEver` | mediaflow/infrastructure/sqlite_runtime.py:19880-19972 | a cancelled, waiting Task with a retried source whose earlier attempt is recorded stays so, and blocked, over every run without a projection or a reconciliation of that source |
| `KernelLiveness.CancelledRetryIsReachable` | mediaflow/infrastructure/sqlite_runtime.py:1905-1926 | the concrete run that makes one: a recorded failure, a review, the deferral, the retry, the cancel |
| `KernelLiveness.MisqueuedKeepsSlot` | mediaflow/infrastructure/sqlite_runtime.py:16857-16975 | a queued Task whose status is not pending is never claimed, requeued, resumed or adopted and keeps its slot, over every run without an acknowledged control and without a hand-over |
| `KernelLiveness.MisqueuedIsReachable` | mediaflow/application/manual_organize_execution.py:2371-2427 | the concrete run that makes one: begun, analysed, deferred, confirmed, and reconciled before a Worker took it |
| `DirectOrganize.ForeignRun` | mediaflow/final_cli.py:2403-2477 | whatever other processes commit, an ownership that still holds held all along: accepted controls stay, the sources are the old ones overridden by exactly what the unfenced writers wrote, each by its last writer, and only a reconciliation moved the status or the start time |
| `DirectOrganize.SideWriteWrites` | mediaflow/infrastructure/sqlite_runtime.py:3531-3566 | a committed unfenced writer gives each source it names the status it writes, and changes no other source and no hand-over |
| `DirectOrganize.ChooseArm` | mediaflow/final_cli.py:2504-2532 | the arm fits the statuses read: failure settles failed, machine work yields, waiting defers, and completed only when every source is finished |
| `DirectOrganize.ArmIgnoresOutcomes` | mediaflow/final_cli.py:2504-2595 | two recordings that agree on machine work and waiting take the same arm whatever succeeded or failed, and only one arm fits |
| `DirectOrganize.SettleCommitsIff` | mediaflow/application/task_scheduling.py:505-553 | a terminal settlement commits exactly when nothing is queued or processing, no cancel is accepted and a marker names one of the sources |
| `DirectOrganize.UnprovedScopeWithMachineWorkKeepsSlot` | mediaflow/final_cli.py:2542-2554 | an unproved scope found with a source still processing cannot settle, and its Task then holds its slot |
| `DirectOrganize.WaitingArmReopensTakeover` | mediaflow/final_cli.py:2568-2580 | publishing the admitted projection turns a Task nobody could claim into one that somebody can |
| `DirectOrganize.SideWriteSpoilsIff` | mediaflow/infrastructure/sqlite_runtime.py:4411-4451 | for every unfenced writer that commits where an arm fits: the arm stops fitting exactly when a yielding one loses its last machine work, a deferring one gains some or loses everything that waits, a completing one gains something unfinished |
| `DirectOrganize.ArmStillFits` | mediaflow/final_cli.py:2489-2595 | over every run between the read and the release, the arm chosen fits the sources that its release leaves exactly when what the unfenced writers committed in between, as far as the settling arms do not write over it, does not spoil it |
| `DirectOrganize.IgnoredBeforeDeferStrands` | mediaflow/final_cli.py:2568-2580 | for every such row: ignoring the only waiting source between the read and the deferring release leaves a Task waiting with all sources finished |
| `DirectOrganize.RetriedBeforeSettleIff` | mediaflow/final_cli.py:2584-2595 | a retry between the read and the completing release refuses the release exactly when the failed attempt has a Result, and is undone by it otherwise |
| `DirectOrganize.CliProcess.Execute` | mediaflow/application/task_scheduling.py:167-207 | after any foreign transactions the own one commits, is refused, or raises before or after its commit; kernel, trace, claim-ending record and record of lost calls are exactly that |
| `DirectOrganize.CliProcess.Release` | mediaflow/infrastructure/sqlite_runtime.py:18399-18675 | a release that commits did so under an ownership held on entry, and left the row it computes |
| `DirectOrganize.CliProcess.AcknowledgeControl` | mediaflow/application/task_scheduling.py:406-449 | acknowledging adds exactly one claim-ending transaction and leaves the Task suspended or cancelled |
| `DirectOrganize.CliProcess.BeginWork` | mediaflow/application/task_scheduling.py:347-371 | the running boundary is published only without an accepted control, and ends no claim |
| `DirectOrganize.CliProcess.YieldClaim` | mediaflow/application/task_scheduling.py:555-599 | yielding keeps the slot, the absence of a control, and every source but for what unfenced writers wrote before it |
| `DirectOrganize.CliProcess.HandBack` | mediaflow/final_cli.py:2453-2476 | after a failed begin the claim is handed back by acknowledging an accepted control or by yielding, never by changing the control |
| `DirectOrganize.CliProcess.ClaimTask` | mediaflow/final_cli.py:2418-2452 | a failed registration or claim leaves no live Worker unless stopping it raised or the registration committed although its call raised |
| `DirectOrganize.CliProcess.RegisterWorker` | mediaflow/final_cli.py:2418-2428 | the transient Worker is registered under its own name for organizing alone; a registration that failed leaves no live Worker unless it committed although it raised |
| `DirectOrganize.CliProcess.TakeClaim` | mediaflow/final_cli.py:2429-2452 | the named claim succeeds exactly when its transaction does, and then this process owns the Task |
| `DirectOrganize.CliProcess.Drive` | mediaflow/final_cli.py:2403-2477 | success is an owned, running Task; failure ended at most one claim, and only as HandBack does; with nobody else at work it succeeds exactly when the Task is claimable and no control is accepted |
| `DirectOrganize.CliProcess.TakeArm` | mediaflow/final_cli.py:2533-2595 | each arm ends the claim in its own way once, on the sources at entry overridden by what unfenced writers wrote since; the settling arms write the sources that were read |
| `DirectOrganize.CliProcess.SettlePass` | mediaflow/final_cli.py:2489-2595 | a settled pass ended the claim once, in the arm that fits what it read, leaving the queue state and status of that arm; the arm fits what is left exactly when no write committed between the read and the release spoils it |
| `DirectOrganize.CliProcess.EndObserved` | mediaflow/final_cli.py:1277-1297 | under a control that was read the pass acknowledges, without one it settles, and never the other way round |
| `DirectOrganize.CliProcess.RequestCancel` | mediaflow/application/task_scheduling.py:373-404 | while this process owns the Task, its own cancel request leaves a control accepted; undisturbed, the row is what `CancelledBy` says |
| `DirectOrganize.CancelledByIff` | mediaflow/application/task_scheduling.py:389-404 | a cancel is recorded and nothing else on a claimed Task, and on one that nobody owns it settles at once exactly when no effect is in flight and no source to be cancelled has a recorded outcome |
| `DirectOrganize.CliProcess.RecordCancel` | mediaflow/infrastructure/sqlite_runtime.py:18006-18057 | a committed cancel request leaves a cancel accepted and the ownership as it was |
| `DirectOrganize.CliProcess.ObserveControl` | mediaflow/final_cli.py:1271-1276 | the pass reads the accepted control, after its own cancel if it wants one; one accepted before is not missed while the claim holds |
| `DirectOrganize.CliProcess.WorkAndEnd` | mediaflow/final_cli.py:1240-1297 | the work, then the end: a control accepted before the work returned is acknowledged by every pass that ends |
| `DirectOrganize.EndsIff` | mediaflow/final_cli.py:2489-2595 | the settlement a pass chooses commits exactly when, under a live claim, a yield finds no effect in flight and no control, or a deferral or settlement finds no machine work, no cancel and a marker that names a source |
| `DirectOrganize.AnswersIff` | mediaflow/application/task_scheduling.py:406-449 | the owner can answer an accepted control exactly under a live claim, with a closable marker and no recorded outcome to rewrite |
| `DirectOrganize.CliProcess.EndPass` | mediaflow/final_cli.py:1270-1297 | a returned pass ends its claim exactly once, and acknowledges exactly when the control it read had been accepted; one accepted before the work returned, or the CLI's own cancel, is always acknowledged; undisturbed, it ends exactly when the control can be answered or the settlement commits |
| `DirectOrganize.CliProcess.RunPass` | mediaflow/final_cli.py:1267-1325 | for every schedule, fault and result: a finished pass committed exactly one claim-ending transaction, of the arm that fits what it read and that fits what is left exactly when no write in between spoils it; an aborted one that had begun none, unless the call that ended its claim raised after the commit; one that never began at most a hand-back; and the transient Worker is not live unless stopping it raised or its registration was lost; a finished pass acknowledges exactly when the control it read at its end had been accepted, and so whenever one was accepted before the work returned; undisturbed, it begins exactly for a new Task of its command with a free slot, and is done exactly when the work's fatal publications commit and its end does |
| `PendingQueue.FirstOf` | mediaflow/final_cli.py:3035-3049 | the selection is the one Task that is before all others by due time, creation and id, and exists exactly when any is listed |
| `PendingQueue.HeadIff` | mediaflow/final_cli.py:3035-3049 | the head is the queued or claimed, pending Task that is due first, then admitted first, then of the least id, the admission standing in for a missing due time |
| `PendingQueue.ResidentWorker.EnsureRegistration` | mediaflow/application/automation.py:556-578 | afterwards the registration row carries the selected pin, and a matching registration is not written again |
| `PendingQueue.HeadIsClaimedIff` | mediaflow/infrastructure/sqlite_runtime.py:19673-19718 | a Worker registered for the head claims the head exactly when the head is claimable |
| `PendingQueue.BehindTheHead` | mediaflow/final_cli.py:3026-3053 | behind a head that cannot be claimed exactly the Tasks of its own pin are served |
| `PendingQueue.FutureHeadHidesNothing` | mediaflow/final_cli.py:3035-3049 | a head that is not due yet hides no Task admitted before now |
| `PendingQueue.SelectedInTime` | mediaflow/final_cli.py:3035-3049 | if each selected head leaves and nobody slips in front, a waiting Task is selected after at most as many selections as Tasks were ahead of it |
| `PendingQueue.OnlyRelistingOvertakes` | mediaflow/infrastructure/sqlite_runtime.py:18773-18976 | only an admission, a requeue, a yield, an adoption or publishing a claimed Task as pending can put a Task in front of a waiting one, with the due time it was given or else its admission time |
| `PendingQueue.NobodySlipsIn` | mediaflow/final_cli.py:3035-3049 | in a run without such a step the Tasks ahead of a waiting one only become fewer |
| `PendingQueue.RunIsRound` | mediaflow/final_cli.py:3026-3053 | any interleaving between two selections is a round when the selected Task has left |
| `PendingQueue.StuckHeadStarvesOtherPins` | mediaflow/final_cli.py:3026-3053 | a pending head with an effect in flight stays the head through every run that neither frees, reconciles nor overtakes it, and no Task of another pin is claimed |
| `PendingQueue.StuckHeadIsReachable` | mediaflow/final_cli.py:2555-2580 | the concrete run of a direct pass that makes such a head: a failed attempt with an unverified effect, a source waiting for review, the waiting arm, its first transaction, and no second one |
| `ManagedConfiguration.RunKeepsPublished` | mediaflow/infrastructure/sqlite_configuration_management.py:698-829 | a published revision keeps its document, digest and version over every sequence of edits |
| `ManagedConfiguration.RunKeepsStore` | mediaflow/infrastructure/sqlite_configuration_management.py:698-829 | at most one revision is ever Active, and the activation marker is never lost |
| `ManagedConfiguration.ActivatesIff` | mediaflow/infrastructure/sqlite_configuration_management.py:736-769 | an activation commits exactly when the row has the expected version, is Validated, and was made from the intact Active revision, or from none when there is none or it is damaged |
| `ManagedConfiguration.ActivationReplaces` | mediaflow/infrastructure/sqlite_configuration_management.py:770-829 | then that row is Active, the former Active one Superseded, and every other row as it was |
| `ManagedConfiguration.UpdatesIff` | mediaflow/infrastructure/sqlite_configuration_management.py:595-639 | a Draft is written exactly under the version it was read at and while it is not published |
| `ManagedConfiguration.CreatesIff` | mediaflow/infrastructure/sqlite_configuration_management.py:464-485 | a new row takes no other's place and is never born published |
| `ManagedConfiguration.ActivationBuildsOnActive` | mediaflow/infrastructure/sqlite_configuration_management.py:744-761 | an activation that supersedes an intact revision was made from that revision |
| `ManagedConfiguration.OneSuccessor` | mediaflow/infrastructure/sqlite_configuration_management.py:744-761 | over every sequence of edits, of all Drafts made from one revision at most one is ever activated |
| `ManagedConfiguration.PinnedResolvesIff` | mediaflow/final_cli.py:4013-4111 | a pin resolves exactly when its own row is published, readable, supported, uncorrupted, loadable and of the pinned digest |
| `ManagedConfiguration.PinnedRefusedIff` | mediaflow/final_cli.py:4061-4111 | each refusal of a pin that has a row has one cause, and the causes are looked for in one order |
| `ManagedConfiguration.PinnedMissingIff` | mediaflow/final_cli.py:4013-4030 | a pin is missing exactly when no row has its id |
| `ManagedConfiguration.UnpinnedResolvesIff` | mediaflow/final_cli.py:4013-4111 | without a pin the answer is the one usable Active revision, or the bootstrap of the file's kind exactly when neither read finds an activation |
| `ManagedConfiguration.ReferenceIff` | mediaflow/final_cli.py:4222-4237 | the registration's reference names the one readable Active revision, or none exactly when there is none |
| `ManagedConfiguration.PinIsStable` | mediaflow/final_cli.py:4061-4111 | a pin that resolved once resolves to the same configuration after every sequence of publications |
| `ManagedConfiguration.EmptyPinFollowsActive` | mediaflow/final_cli.py:4013-4052 | an empty pin id resolves to the bootstrap before and to the Active revision after an activation |
| `ManagedConfiguration.BootstrapOnlyBeforeActivation` | mediaflow/final_cli.py:4031-4052 | the bootstrap is returned only if no activation was committed up to the second read, with any publications between the two reads |
| `ManagedConfiguration.ActivationBetweenReadsRefuses` | mediaflow/final_cli.py:4031-4052 | an activation between the two reads refuses rather than falls back |
| `ManagedConfiguration.ResolversAgree` | mediaflow/final_cli.py:4164-4237 | whatever two stores the reads see, the identity resolver knows an identity exactly when the unpinned resolver succeeds with it; both fail for the same reason; the reference equals it |
| `ManagedConfiguration.KnownIdentityStaysGood` | mediaflow/final_cli.py:4164-4221 | an identity once known is a pin that resolves, after any later publications, to the configuration that was Active when it was read; only an id of blanks is refused |
| `ManagedConfiguration.RebuiltIff` | mediaflow/final_cli.py:3850-3909 | a claimed transfer is rebuilt exactly when its row was readable and not a Draft first and is usable under the pinned digest when resolved |
| `ManagedConfiguration.RebuildIsStable` | mediaflow/final_cli.py:3850-3909 | later publications never change whether or as what a published pin is rebuilt |
| `ManagedConfiguration.KindFollowsCommand` | mediaflow/final_cli.py:3850-3909 | the rebuilt service has the library kind of its command and the pinned revision |
| `ManagedConfiguration.ServiceForIs` | mediaflow/final_cli.py:3850-3909 | exactly four commands are served, each with its own library kind |
| `LibraryRoots.ContainingRootsFormAChain` | mediaflow/final_cli.py:4318-4329 | roots containing one path are prefixes of each other, so equal depth is the same root |
| `LibraryRoots.SelectedIsUnique` | mediaflow/cli.py:253-264 | at most one binding is the right answer, whichever selector looked for it |
| `LibraryRoots.ResourceLibrary` | mediaflow/final_cli.py:4318-4329 | the max selector returns that binding, or says that none contains the path or that its library is unknown |
| `LibraryRoots.ResolveResourceLibraryId` | mediaflow/cli.py:244-264 | an explicit id wins, no match falls back, otherwise the reverse sort yields that binding |
| `LibraryRoots.ExecutionRoot` | mediaflow/cli.py:311-320 | the keyed max yields that binding's root, else the parent, the filesystem root being its own, and the source is always inside it |
| `LibraryRoots.StoragePathInjective` | mediaflow/final_cli.py:4332-4335 | below one root two paths with the same Storage path are the same path, whatever slashes surround the library root |
| `LibraryRoots.StoragePathIs` | mediaflow/final_cli.py:4332-4335 | the library root stands first, one slash, then the path below it, with no slash around them; an empty part leaves no slash |
| `PythonText.LinesConcat` | mediaflow/container_entrypoint.py:45 | text that ends with a line feed splits into lines independently of what follows |
| `EnvironmentFile.Load` | mediaflow/container_entrypoint.py:36-63 | the reader's loop computes exactly the fold of its lines, or stops at the first malformed one |
| `EnvironmentFile.ReportsFirstMalformedLine` | mediaflow/container_entrypoint.py:45-61 | a failure exists exactly when some line is malformed, and reports the first one's number and kind |
| `EnvironmentFile.LastLineWins` | mediaflow/container_entrypoint.py:62-63 | a variable exists exactly when some line sets it, with the last such line's value |
| `EnvironmentFile.LoadingIsAHomomorphism` | mediaflow/container_entrypoint.py:44-63 | reading A followed by B is reading A overridden by B, and an error in B is reported at its place in the whole |
| `EnvironmentFile.PlainLineParses` | mediaflow/container_entrypoint.py:46-57 | blanks around the line and the equals sign never matter; one pair of equal quotes is taken off and everything inside it survives; any other value is kept as written |
| `EnvironmentFile.ExportedLineParses` | mediaflow/container_entrypoint.py:49-50 | an export prefix is dropped with the blanks after it |
| `EnvironmentFile.ExportCannotBeSpread` | mediaflow/container_entrypoint.py:49-50 | the one exception: a variable called export followed by a blank loses its name |
| `EnvironmentFile.PairIff` | mediaflow/container_entrypoint.py:46-62 | a line assigns a value to a name exactly when it is blanks, an export prefix or none, a valid name, an equals sign between blanks, text that stands for the value, blanks |
| `EnvironmentFile.UnquoteIff` | mediaflow/container_entrypoint.py:55-57 | a trimmed text stands for what is between one pair of equal single or double quotes, and otherwise for itself |
| `EnvironmentFile.IgnoredIff` | mediaflow/container_entrypoint.py:46-48 | a line is skipped exactly when it is blank or its first other character is a hash sign |
| `EnvironmentFile.NotKeyValueIff` | mediaflow/container_entrypoint.py:51-52 | of the other lines exactly those without an equals sign are reported as no assignment |
| `EnvironmentFile.ValidNameIff` | mediaflow/container_entrypoint.py:16 | a name is a letter or underscore followed by letters, underscores and digits |
| `EnvironmentFile.RoundTrip` | mediaflow/container_entrypoint.py:36-63 | printing entries as NAME="value" and reading them back gives exactly their map |
| `EnvironmentFile.MapOfDistinct` | mediaflow/container_entrypoint.py:44-63 | with distinct names that map has every entry's own value and nothing else |
| `Preflight.ResolvedIsNormal` | mediaflow/container_entrypoint.py:66-71 | a resolved path has no empty, dot or dot-dot part |
| `Preflight.ResolveTwice` | mediaflow/container_entrypoint.py:170-174 | resolving a resolved path changes nothing |
| `Preflight.DetoursAre` | mediaflow/container_entrypoint.py:66-71 | in any text a repeated slash and a dot part change nothing, and a dot-dot part undoes the name before it |
| `Preflight.AboveRoot` | mediaflow/container_entrypoint.py:66-71 | above the root is the root |
| `Preflight.LastSlash` | mediaflow/container_entrypoint.py:66-71 | a last slash is not read |
| `Preflight.BelowWorkingDirectory` | mediaflow/container_entrypoint.py:66-71 | a relative text is resolved below the working directory, an absolute one without it |
| `Preflight.MissingSecrets` | mediaflow/container_entrypoint.py:74-93 | the loops collect the enabled principals' token names and keep exactly the unset ones |
| `Preflight.CheckStorages` | mediaflow/container_entrypoint.py:160-197 | the loop with its early continues computes each Storage's own errors in order |
| `Preflight.Check` | mediaflow/container_entrypoint.py:96-209 | the accumulated error list is the specification's list |
| `Preflight.StorageFaultsAre` | mediaflow/container_entrypoint.py:162-197 | a Storage is blamed by its place for exactly the faults it has |
| `Preflight.MissingAre` | mediaflow/container_entrypoint.py:199-208 | the secrets reported are exactly the needed ones that are unset or empty |
| `Preflight.SecretsIff` | mediaflow/container_entrypoint.py:74-93 | none is reported exactly when the API's own token, or else every enabled principal's, is set |
| `Preflight.PrincipalIff` | mediaflow/container_entrypoint.py:84-93 | a principal counts unless its enabled member is anything but true, and only with a valid variable name |
| `Preflight.IsLocalIff` | mediaflow/container_entrypoint.py:160-166 | a Storage is checked exactly when its type reads local in either case |
| `Preflight.NonBlankIff` | mediaflow/container_entrypoint.py:140-168 | a path text counts exactly when it holds something other than blanks |
| `Preflight.AbsoluteIff` | mediaflow/container_entrypoint.py:140-174 | and is absolute exactly when it begins with a slash |
| `Preflight.NoProblemsIff` | mediaflow/container_entrypoint.py:96-209 | the error list is empty exactly when every path, mount, permission and secret condition holds |
| `Preflight.ApartIff` | mediaflow/container_entrypoint.py:170-181 | no allowed media root lies above the volume exactly when every directory above the volume is forbidden |
| `Preflight.DefaultVolumeIsApart` | mediaflow/container_entrypoint.py:17-33 | with the default volume, roots and volume never contain each other |
| `Preflight.Entrypoint.Update` | mediaflow/container_entrypoint.py:217 | the update succeeds exactly when no value holds a NUL, and then overrides exactly those variables |
| `Preflight.Entrypoint.Run` | mediaflow/container_entrypoint.py:212-238 | the process is refused, reports, lacks a command, or becomes the command with exactly the overridden environment |
| `Preflight.Probe` | mediaflow/container_probe.py:57-87 | the probe computes its error list from a copy of the environment |
| `Preflight.AgreementIff` | mediaflow/container_probe.py:69-87 | for every argument list of the service both reach the same verdict with the same errors exactly when the file's values hold no NUL |
| `Preflight.ProbeInsideService` | mediaflow/container_probe.py:57-66 | a probe inside the started service finds no error, unless the file renames the file |
| `Redaction.Redact` | mediaflow/cli.py:816-820 | the loop over the two names, then the credential pattern |
| `Redaction.NothingBroughtIn` | mediaflow/cli.py:819-820 | replacing stretches by the mask never makes a star-safe text appear |
| `Redaction.ReplaceRemovesIff` | mediaflow/cli.py:818-819 | replacing a secret removes it from every message exactly when no star is at its edge and no three stand together; a secret without stars qualifies |
| `Redaction.NoSecretShown` | mediaflow/cli.py:816-820 | the shown message does not contain a star-safe secret, in either place and whatever the other secret is |
| `Redaction.HeaderIsLocal` | mediaflow/cli.py:820 | the credential pattern is decided by its own characters and the kind of the next one |
| `Redaction.CoverTwice` | mediaflow/cli.py:820 | after masking, every credential left is the mask: masking again changes nothing |
| `Redaction.RedactedTwice` | mediaflow/cli.py:816-820 | redacting a redacted message changes nothing |
| `Redaction.HarmlessIsKept` | mediaflow/cli.py:816-820 | a message with neither secret and no credential is shown as it is |
| `Credentials.HeaderIff` | mediaflow/cli.py:820 | the pattern begins at a text exactly when it reads authorization, blanks, a colon, blanks, bearer, at least one blank and then a credential, in either case |
| `Credentials.PlainIsKept` | mediaflow/cli.py:820 | a text in which none begins is shown as it is |
| `Credentials.CredentialIsMasked` | mediaflow/cli.py:820 | behind any front with none and before any text that begins with a blank, the credential alone is replaced by the mask, whatever the case of the words and the blanks around the colon |
| `Concealment.ShownIsLegible` | mediaflow/cli.py:820 | whatever stands in a masked text holds no credential but the mask or, at its end, a part of it |
| `Concealment.LegibleIsShown` | mediaflow/cli.py:820 | and masking keeps every text of that kind, with stars behind it or not |
| `Concealment.NeverShownIff` | mediaflow/cli.py:816-820 | for every secret: the whole redaction hides it from every message, in either place and beside any other secret, exactly when no star is at its edge and no three stand together, or it holds a credential that is not the mask; one without blanks holds none |
| `ExploreList.FilterWorks` | scripts/explore_harness.py:186-214 | six optional filters in a row keep exactly the works that match all of them, in order |
| `ExploreList.StablySortedIsUnique` | scripts/explore_harness.py:215-221 | descending with ties in their order leaves one result only |
| `ExploreList.SortedIsStable` | scripts/explore_harness.py:215-221 | the sort achieves it |
| `ExploreList.ListPayload` | scripts/explore_harness.py:172-234 | the answer is the page of the filtered, sorted list, with its counts |
| `ExploreList.ListingIsUnique` | scripts/explore_harness.py:186-221 | filters and order together admit one list only, so ListPayload's list is determined |
| `ExploreList.PagesCover` | scripts/explore_harness.py:223-234 | the announced pages concatenate to exactly the list, the last is not empty, all before it are full, all later ones are empty |
| `ExploreList.OnePagePerPlace` | scripts/explore_harness.py:227-234 | every place of the list is on exactly one page, at one offset |
| `ExploreList.PagesBelowOne` | scripts/explore_harness.py:228-233 | page zero is empty and negative pages count from the end |
| `ExploreList.UnratedLast` | scripts/explore_harness.py:215-219 | no rated work comes after an unrated one |
| `ExploreList.ListedIff` | scripts/explore_harness.py:186-221 | the list holds exactly the works that pass every filter asked for: all asked genres, the language, a date of the year, at least the average and votes, and the text in either title |
| `ExploreList.OrderIff` | scripts/explore_harness.py:215-219 | the order is read off the front of the parameter |
| `ExploreList.NewestFirst` | scripts/explore_harness.py:218-219 | asked for by date the list runs from the newest to the oldest |
| `ExploreList.BestFirst` | scripts/explore_harness.py:215-217 | asked for by rating it runs from the best to the worst, an unrated work standing where minus one would |
| `TextOrder.StrLeIff` | scripts/explore_harness.py:218-219 | texts are ordered by their first difference, the shorter first |
| `ExploreList.DirectionIsIgnored` | scripts/explore_harness.py:215-219 | two requests whose sort keys name the same order, whatever follows the name, have one and the same list, in descending order |
| `ExploreList.BothDirectionsAgree` | scripts/explore_harness.py:215-219 | the ascending and the descending key of each order are such a pair |
| `ExploreStats.Upstream.Record` | scripts/explore_harness.py:256-259 | the total and this route's count grow by one, every other route's count stays, and a total that was the sum over the routes still is |
| `ExploreStats.RecordIsOneMore` | scripts/explore_harness.py:256-259 | that is the only such change of the counters: the thread model's counting section is it, and nothing else is |
| `ExploreStats.RequestLeaves` | scripts/explore_harness.py:286-317 | a request served through leaves one count, then, unless a failure is injected, its vote floor and, on a list route, its page; and touches no other thread |
| `ExploreStats.RouteIs` | scripts/explore_harness.py:288-292 | the route is the path without one leading slash and one version prefix |
| `ExploreStats.IsListIff` | scripts/explore_harness.py:306 | the list routes are those below discover and search |
| `ExploreStats.Upstream.FailureResponse` | scripts/explore_harness.py:262-283 | a failure is injected exactly when the mode covers the path, with its status |
| `ExploreStats.SumIncrement` | scripts/explore_harness.py:256-259 | one more request of any route is one more in the sum |
| `ExploreStats.RunConsistent` | scripts/explore_harness.py:286-328 | in every interleaving each count is the number of threads that made it |
| `ExploreStats.CountersAgree` | scripts/explore_harness.py:256-328 | at every instant the total is the sum of the routes, and a route's pages plus its requests without a page are its count, with failures injected and threads dying anywhere |
| `ExploreStats.AllListedIff` | scripts/explore_harness.py:306-317 | pages equal requests exactly when every counted thread appended its page |
| `GatedWorker.Gate.Pass` | scripts/direct_files_browser_harness.py:190-210 | one patched write pauses and counts as the gate's state function says |
| `GatedWorker.PausesIff` | scripts/direct_files_browser_harness.py:185-210 | a move pauses before the folder write that finds exactly two complete; otherwise the first write of a listed name pauses |
| `GatedWorker.PausesOnce` | scripts/direct_files_browser_harness.py:190-210 | a worker pauses at most one write |
| `GatedWorker.MovePausesIff` | scripts/direct_files_browser_harness.py:185-202 | a move pauses at all exactly when it has three folder writes |
| `GatedWorker.IsNamedIff` | scripts/direct_files_browser_harness.py:192-206 | a write is one of the paused ones exactly when its path ends in one of the two names |
| `GatedWorker.EventHappensIff` | scripts/direct_files_browser_harness.py:171-265 | every step of the lifecycle happens exactly in its own situation |
| `GatedWorker.StartedAndPaused` | scripts/direct_files_browser_harness.py:212-237 | a start whose worker reaches its write installs the gate, pauses the write and answers |
| `GatedWorker.ReleasedAndGone` | scripts/direct_files_browser_harness.py:244-265 | its release lets the write go on, puts back what the patch found and forgets the worker that is gone |
| `GatedWorker.GivenUpDoesNotPause` | scripts/direct_files_browser_harness.py:232-235 | a start that gives up waiting releases its worker, whose write then does not pause |
| `GatedWorker.RunKeepsOwned` | scripts/direct_files_browser_harness.py:171-265 | in every run of one request at a time in which no start gives up on a live worker, only the current worker is alive, and no start overlaps one |
| `GatedWorker.OneWorkerAndRestored` | scripts/direct_files_browser_harness.py:171-265 | over every run of one request at a time: at every instant at most one worker is alive exactly when no start is let through while a forgotten one lives; and then, whenever none lives, the original write is in place and every gate passes on to it |
| `GatedWorker.ForgottenGateStays` | scripts/direct_files_browser_harness.py:232-240 | the run in which a start gives up joining and the first gate stays installed |
| `Roadmap.ParseRoadmap` | scripts/check_governance.py:92-106 | the loop computes the table of its rows, and a document without rows is refused |
| `Roadmap.LastRowWins` | scripts/check_governance.py:92-106 | a Slice number has the status of its last row |
| `Roadmap.SliceIdReads` | scripts/check_governance.py:99-103 | the number is read off the front of the field, with or without a dotted part |
| `Roadmap.SliceIdIff` | scripts/check_governance.py:100-103 | a field carries a number exactly when it is digits, an optional dotted part, at least one blank and a dash; the number is the first one |
| `Roadmap.RowIff` | scripts/check_governance.py:94-104 | a line is a row exactly when it opens with a bar, its first cell is such a heading and it has a third cell, which is the status |
| `Roadmap.RoundTrip` | scripts/check_governance.py:92-106 | a printed table parses back to its statuses |
| `Roadmap.DistinctRowsKept` | scripts/check_governance.py:92-106 | with distinct numbers every Slice keeps its own status and there are no others |
| `Roadmap.PartsShareOneRow` | scripts/check_governance.py:99-103 | two parts of one number collapse to the last one's status |
| `Governance.NextOpenIff` | scripts/check_governance.py:188-196 | the sorted scan finds exactly the least-numbered unclosed Slice above |
| `Governance.TaskAcceptedIff` | scripts/check_governance.py:164-252 | the branch ladder accepts exactly when the row fits the Slice status, a Slice Task names its Slice, and a closed Slice's next open one is planned |
| `Governance.AcceptedIff` | scripts/check_governance.py:201-252 | acceptance of the whole repository, as one condition for all inputs |
| `Governance.SliceIff` | scripts/check_governance.py:54-64 | a contract is read exactly when its four headers are there and the status is known, each into its own field |
| `Governance.TaskIff` | scripts/check_governance.py:67-89 | a Task is read as none, standalone or of a Slice exactly by its status, type, parent and base headers |
| `Governance.HistoryIff` | scripts/check_governance.py:126-154 | the history test, commit by commit: full known SHAs, HEAD below both bases, a recorded implementation head below the Slice base |
| `Governance.ClosedAndIdleIff` | scripts/check_governance.py:186-198 | with a closed Slice and no active Task: its row is closed and the least unclosed row above, if any, is planned |
| `Governance.StandaloneRowMatches` | scripts/check_governance.py:229-238 | beside an accepted standalone Task the Roadmap row equals the Slice status |
| `Governance.EarlierRowsIgnored` | scripts/check_governance.py:186-198 | rows below the current Slice never matter |
| `Governance.NoneAloneIsRefused` | scripts/check_governance.py:67-89 | NONE as a parent does not make a Task standalone |
| `Governance.AncestryIsTransitive` | scripts/check_governance.py:132-140 | reachability along parents is transitive |
| `Governance.CommitsKeepAcceptance` | scripts/check_governance.py:126-154 | further commits on top of an accepted HEAD keep it accepted while the documents stay |

## Left out

- Admission dedupe by request id: the CLI passes none.
- Cross-Task source ownership and how the history gate of begin_existing_item decides (its outcome is a parameter of the start): they read other Tasks' items.
- Item source-identity fields, item time stamps, run display rows, file_locks and schema-version checks: they do not decide any transition that is modelled.
- The rows of reviews, confirmations, previews and recovery requests, and what they ask before a decision, an ignore, a retry or an adoption: they can only refuse more of these.
- The execution rows of a manual execution, and the version checks that its completion and reconciliation make on them.
- The authority comparison of publications under a claim, and the admission columns that a manual execution's completion and reconciliation write back: no adoption happens under a live claim, the direct CLI admits with the authority already granted, and an execution's admission grants it before they read it.
- Tasks outside the scheduling kernel and their generic writers, which refuse a scheduled Task.
- Resident polling, the manual, discovery and transfer consumers, and their claim columns.
- Undecodable text in the environment file is one with unreadable; NUL characters in path text.
- Regular expressions searched in SLICE.md and TASK.md headers: their results are inputs; digits are ASCII.
- SHA-256, JSON text, IP parsing, `expanduser`, symbolic links, `git` itself.
- Parsing of query parameters and the detail payload of the upstream, and the generated catalogue: easy members.
- Overlapping start and release requests of the gated worker, and other threads writing through its gate.
- argparse, rendering, exit messages, HTTP serving, Docker and browser journeys: no hard property.
