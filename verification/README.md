# Verification of the workflow platform's agent, manifest, archive and mount protocols

This project models the parts of the platform whose correctness depends on long histories or on exact bytes, and
proves what they guarantee. `dafny verify dfyconfig.toml` checks everything.

* **Schedules** (`Schedules`, `ScheduleStore`, `ScheduleClaims`, `ScheduleEffects`, `ScheduleRuns`, `ScheduleDelta`,
  `ScheduleExample`). The agent keeps a replica of the control plane's schedule table. It applies snapshots and revision deltas, refreshes signed leases, and advances rows
  when it claims them. `ScheduleDatabase` is the agent's database with one method per transaction; each method is proved
  equal to a function of the old table, and the theorems are about runs of those functions together with a control
  plane that publishes states by `applyScheduleDelta`.
* **Remote runs** (`RunClaims`, `RunProtocol`, `RunSafety`, `RunOutcomes`, `RunAgent`, `RunExample`). Signed claims, local tasks, cancellation, completion and the
  report outbox as a state machine whose steps are database transactions. The loops of the control-plane cycle are
  methods of the class `Agent`, each shown to be a run of that state machine whatever the network and the runner answer.
* **Installations** (`InstallProtocol`, `InstallAgent`, `InstallSafety`, `InstallSync`, `InstallEffects`, `InstallExample`). Filesystem and database steps
  in the source's order, with the outcome of every step, of every compensation included, as an input.
* **The cycle** (`ControlPlaneCycle`, `Outbox`). One whole control-plane cycle over the three databases above.
* **Canonical JSON and capability sets** (`Unicode`, `CanonicalJson`, `JsonReader`, `CapabilitySet`, `AgentJson`, `TextAgreement`,
  `ArtifactDescriptors`). The serialiser behind every hash and signature, the normaliser that turns arrays into sets, in its TypeScript form and in
  the agent's form, the exact condition under which both sides derive one text, and the integrity text of a release's artifacts.
  What the serialiser writes is pinned down by a reader written from the grammar of RFC 8259.
* **Deterministic ZIP** (`Crc32`, `ZipFormat`, `ZipRoundTrip`, `ZipWriter`, `ArchivePaths`). The writer fills arrays field by field; a
  separate reader follows APPNOTE sections 4.3.7, 4.3.12, 4.3.16 and 4.4.7 from the end record backwards.
* **Mounting** (`MountProtocol`, `MountRuns`, `MountProgress`, `MountSafety`, `MountEffects`). The asynchronous replacement of
  control-plane mounts in one container, one step per stretch of code between two awaits. A run is *disciplined* when
  `unmount` is not called while a call is inside `mountControlPlane`; where a statement needs that, it says so.
* **Smaller proofs** (`Contracts`, `Slugs`, `Artifacts`, `AuthorizationClock`).

Everything the code takes from elsewhere is a parameter: UUID syntax, SHA-256, cron and time zones (`Schedules.World`),
letter casing (`ZipWriter.Casing`, `lower`), the manifest and release checks (`InstallProtocol.World`), and the answers of
the network, the filesystem and child processes. Where a proof needs that a digest binds its payload, it says so as the
hypothesis `NoSecondPreimage` or `NoOtherRun` on the one payload concerned. `ArchivePaths` takes as hypothesis
`DeviceCasing` that JavaScript's upper case recognises the same Windows device names as ASCII upper case.

## Where a stated property needs a condition

* The contract schema of a delta accepts one that changes data without advancing the revision, and
  `applyScheduleDelta` publishes it; the agent refuses it. `SchemaAllowsSilentChange` is the counterexample,
  `PublishDetermines` the exact condition, and the refinement theorem is about control planes that meet it; without it
  the refinement breaks after two honest events (`SilentChangeBreaks`).
* Storing an unsigned schedule loses its revision, application and release: `UnsignedReload` says exactly when it survives.
* The database alone lets a report overwrite a terminal state (`DatabaseAloneOverwrites`). A report keeps the log of
  an attempt in order exactly when it passes its caller's gate (`ReportKeepsIff`), and all callers have that gate;
  `OverwriteHappens` is a run that reaches a state where only the gate helps.
* The contract schemas count UTF-16 units where the agent counts UTF-8 bytes: one schedule with a long enough accented
  argument passes the contract, and the agent then refuses every snapshot that has it (`AccentedArgumentRefused`,
  `OneStopsAll`); `ScheduleAdmission` is exact.
* A run whose task succeeded is reported as succeeded unless a cancellation arrives before the success was reported:
  `EveryReportIsTrue` is exact, and `CancelledAfterSuccess` is a run in which it happens.
* The UTF-8 order of the agent and the UTF-16 order of the manifest schema give different texts once supplementary
  characters meet U+E000 to U+FFFF; `AgreementCondition` is exact.
* Once all mounts have settled, the container shows the pending mount exactly when the last call to fill it did not throw
  before registering itself (`SettledRun`). After such a throw its root stays with nothing pending, and no `unmount`
  removes it (`LateFailureShows`, `LeftBehind`); what `SettledRun` says about the registered mount holds in every
  disciplined run.
* `unmount` is safe exactly while no call is inside `mountControlPlane` (`UnmountSafeIff`); the returned cleanup is
  always safe. After one at a bad moment two calls can be inside at once and a registered mount is lost
  (`UntimelyUnmountLoses`); what is lost in any run is exactly what another registration overwrote (`LostExactly`).
* Rows and directories of installed versions agree unless an uninstall can neither delete its row nor move the directory
  back (`CoherentIff`, `EveryRunCoherentIff`; `StrandingHappens` reaches it).
* Registering a development directory for a version that is installed from a signed package leaves that package's
  directory without a managed row (`OrphansIff`; `DisplacingHappens` reaches it), and no later run can install that version again (`OrphanForever`).
* The archive writer's path rules and the agent's agree except for the device name `CLOCK$`: a package with such a name
  is built and then refused at installation (`PathsAgree`, `PackedIsAcceptedIff`, `ClockIsRefused`).

## Model

| member | source | states |
|---|---|---|
| ScheduleRuns.EveryRunRefines | crates/agent/src/db.rs:427-496 | From an empty table, after any interleaving of publications, snapshots, deltas, refusals, claims and lease refreshes: the table has exactly the ids of the control plane's state at the stored revision, every field except next run, enabled flag and lease is equal, enabled rows are enabled there, next runs are never earlier, and stored leases are for that very intent |
| ScheduleRuns.RunKeepsInv | crates/agent/src/db.rs:427-496 | The refinement and the uniqueness of states per revision survive every run from any state that has them |
| ScheduleRuns.SignedClaimedOnce | crates/agent/src/db.rs:633-669 | Between two applied revisions a signed schedule is handed out at most once, through any honest messages, lease refreshes and claims in between |
| ScheduleRuns.SpentIsNotClaimed | crates/agent/src/scheduler.rs:80-100 | A row that moved past its signed occurrence is never handed out, and the next claim at which it is due disables it |
| ScheduleRuns.ClaimedAsSigned | crates/agent/src/db.rs:1038-1060 | A claimed record with a lease is, field by field, the intent the control plane has for that id at the stored revision |
| ScheduleExample.SignedClaimHappens | crates/agent/src/db.rs:427-460 | A publication, a snapshot and a claim that meet every hypothesis of the signed-claim theorems, so those are not vacuous |
| ScheduleRuns.PublishDetermines | packages/contracts/src/desktop.ts:451-498 | After a delta one revision still has one state if and only if the delta advances the revision or changes nothing |
| ScheduleRuns.SchemaAllowsSilentChange | packages/contracts/src/desktop.ts:451-498 | A delta the schema accepts and the agent refuses, after which revision 0 has two states |
| ScheduleRuns.SilentChangeBreaks | packages/contracts/src/desktop.ts:510-528 | After such a delta, an honest publication and an honest sync leave the table at the newest revision without the silently added record |
| ScheduleDelta.ApplyScheduleDelta | packages/contracts/src/desktop.ts:510-528 | The Map loops: refused exactly when the schema refuses the delta or it starts elsewhere; otherwise removed ids are gone, upserts win and keep the place of what they replace, new records follow in the delta's order, and every id occurs once |
| ScheduleDelta.AppliedPublishes | packages/contracts/src/desktop.ts:510-528 | What the loops leave is, as a state of the control plane, the edit that the run theorems publish |
| ScheduleDelta.CheckDelta | packages/contracts/src/desktop.ts:458-497 | The two set-filling loops accept exactly ordered revisions, distinct upserts, and distinct removals that are not upserted |
| ScheduleClaims.ClaimEffects | crates/agent/src/db.rs:633-669 | A claim leaves nothing due at its time, returns each schedule at most once and only valid records, keeps ids and leases, never moves a next run back, and leaves rows that were not due alone |
| ScheduleClaims.ClaimedExactly | crates/agent/src/db.rs:633-669 | A record is returned if and only if its row is due and its next occurrence exists |
| ScheduleEffects.HandedOutIff | crates/agent/src/db.rs:633-669 | A stored schedule is handed out if and only if it is enabled, due, valid, and cron has a next occurrence that is later and safe; it then waits for exactly the occurrence cron gives for the time of the claim, and one that is due and not handed out is disabled |
| ScheduleEffects.ClaimsFollowCron | crates/agent/src/db.rs:633-669 | Between applied revisions, through any messages, what a schedule is next handed out for is the occurrence cron gives for the time of the claim before |
| ScheduleEffects.ClaimedInOrder | crates/agent/src/db.rs:633-648 | Schedules are handed out by due time and, at equal times, by the bytes of their ids |
| ScheduleEffects.ClaimRefused | crates/agent/src/db.rs:633-640 | A claim fails if and only if its time is past the database's integers, and then changes nothing |
| ScheduleEffects.SnapshotStores | crates/agent/src/db.rs:427-460 | A newer snapshot leaves exactly its records, each as it came, except that an unsigned one that is due moves to cron's next occurrence and that one is disabled exactly when its recurrence is invalid or cron gives it no next occurrence |
| ScheduleEffects.DeltaStores | crates/agent/src/db.rs:462-496 | A delta stores its upserts in the same way, drops what it removes and leaves every other row as it was |
| ScheduleEffects.RefusedMessages | crates/agent/src/db.rs:427-496 | When a message is refused, exactly, and that it then changes nothing, like an older snapshot |
| ScheduleEffects.OnlySignedDue | crates/agent/src/db.rs:1093-1103 | Right after a newer snapshot only signed schedules can be handed out |
| ScheduleClaims.ClaimTwice | crates/agent/src/db.rs:633-669 | A second claim at the same time returns nothing and changes nothing |
| ScheduleClaims.ClaimsIncrease | crates/agent/src/db.rs:633-669 | Between applied revisions the claimed occurrences of one schedule strictly increase, even when the clock goes back |
| ScheduleClaims.RevisionMonotone | crates/agent/src/db.rs:427-496 | Over every sequence of messages, claims and failures the stored revision never decreases |
| ScheduleClaims.RowsBetweenRevisions | crates/agent/src/db.rs:427-451 | While no revision is applied a row keeps its id, its next run only moves forward and its lease is never downgraded |
| ScheduleClaims.LeaseNeverOlder | crates/agent/src/db.rs:1140-1175 | Over any sequence of refreshes the pair (lease revision, issue time) never goes back lexicographically, and a tie is the same lease id |
| ScheduleClaims.RefreshAllOrNothing | crates/agent/src/db.rs:443-451 | A refresh at the stored revision is refused if and only if one lease would be downgraded; then nothing changes, otherwise every lease carried for a known schedule is stored and every other row stays as it was |
| ScheduleStore.ScheduleDatabase.ApplyScheduleSnapshot | crates/agent/src/db.rs:427-460 | The transaction: older snapshots ignored, equal revisions refresh leases, newer ones replace the table by the normalised records |
| ScheduleStore.ScheduleDatabase.ApplyScheduleDelta | crates/agent/src/db.rs:462-496 | The transaction: wrong start revisions refused, removals then upserts otherwise, and an empty delta only marks the sync |
| ScheduleStore.ScheduleDatabase.ClaimDueSchedules | crates/agent/src/db.rs:633-669 | The loop over due rows computes the claimed records in due order and the advanced table |
| ScheduleStore.ScheduleDatabase.RefreshAuthorizations | crates/agent/src/db.rs:1140-1175 | The refresh loop stores all the leases or reports a replay |
| ScheduleStore.ScheduleDatabase.InsertAll | crates/agent/src/db.rs:1106-1138 | Writing records one after the other equals one merge of their normalised rows over the table |
| ScheduleStore.NormalizeSynced | crates/agent/src/db.rs:1083-1104 | A synced record is kept, moved to its next occurrence, or disabled; signed ones are never moved |
| ScheduleStore.ValidateSnapshot | crates/agent/src/scheduler.rs:181-192 | The check accepts exactly snapshots with a safe revision, valid records and distinct ids |
| ScheduleStore.ValidateDelta | crates/agent/src/scheduler.rs:204-240 | The check accepts exactly deltas with ordered revisions, valid distinct upserts, distinct UUID removals that are not upserted, and no change at an unchanged revision |
| ScheduleStore.NextOccurrenceAfter | crates/agent/src/scheduler.rs:116-154 | There is an answer if and only if the record is valid and cron gives an occurrence after that time which is later and a safe integer, and that occurrence is the answer |
| Schedules.SignedReload | crates/agent/src/db.rs:1032-1060 | A valid signed record survives storing and reloading unchanged although three fields are not stored |
| Schedules.PayloadBindsIntent | crates/agent/src/scheduler.rs:103-110 | Two intents have the same hashed payload if and only if they are equal in every field |
| Schedules.PayloadAgrees | packages/contracts/src/desktop.ts:95-117 | The agent recomputes the payload of the control plane exactly, for every intent |
| Schedules.HashBindsIntent | crates/agent/src/authorization.rs:193-199 | Where the digest has no second preimage, equal intent hashes mean equal intents |
| Contracts.ScheduleAdmission | packages/contracts/src/desktop.ts:407-420 | Of the schedules that the contract schema admits the agent admits exactly those whose texts are also short enough in UTF-8 bytes, and it admits no others with the schema's identifiers |
| Contracts.AccentedArgumentRefused | crates/agent/src/scheduler.rs:80-82 | Every schedule of the contract becomes one that the contract still admits and the agent refuses, by one accented argument |
| Contracts.OneStopsAll | crates/agent/src/scheduler.rs:181-192 | One such schedule makes the agent refuse the whole snapshot, whatever it has stored |
| Contracts.AsciiSchedulesFit | crates/agent/src/scheduler.rs:66-82 | Schedules whose texts are ASCII meet no such difference |
| Contracts.RunAdmission | packages/contracts/src/desktop.ts:595-602 | The same for run claims: exactly the byte lengths of the arguments make the difference |
| Contracts.LeaseAdmission | crates/agent/src/authorization.rs:67-93 | A lease that the contract admits is well formed for the agent if and only if it lasts at most a day and its key id is short enough in bytes |
| Contracts.ScopeAdmission | packages/contracts/src/desktop.ts:422-442 | The agent makes the contract's scope checks, and besides that the lease was signed for this very intent |
| Contracts.ErrorCodeAdmission | crates/agent/src/control_plane.rs:1080-1086 | The agent's check of an error code admits exactly the contract's codes and those that begin with a digit |
| RunSafety.EveryRunIsSafe | crates/agent/src/ipc.rs:720-838 | In every reachable state each attempt has reported each status at most once, at most one terminal status and nothing after it; a run is terminal if and only if its attempt reported so; a running run has its task; every enqueued report waits once in the outbox or was acknowledged |
| RunSafety.EveryRunMovesForward | crates/agent/src/db.rs:671-705 | From any reachable state on, attempts never decrease and within an attempt a claimed run may go anywhere, any other only to terminal |
| RunOutcomes.EveryReportIsTrue | crates/agent/src/ipc.rs:720-838 | In every reachable state an attempt was reported running if and only if it has a task; succeeded if and only if it is over, its task succeeded and it was not cancelled first; failed, if it has a task, if and only if it is over, the task ended otherwise and it was not cancelled; a cancelled run has no active task, and one that requires elevation was never started |
| RunExample.CancelledAfterSuccess | crates/agent/src/agent.rs:1219-1247 | A run whose task succeeded and which is reported cancelled, because the cancellation came before the success was reported |
| RunOutcomes.ProcessReports | crates/agent/src/ipc.rs:720-815 | Handling a claimed run stores exactly one report, with approval needed for elevation, foreground and web applications, running exactly when its task started and was bound, failed otherwise; or nothing is stored and the loop ends |
| RunOutcomes.ControlReports | crates/agent/src/agent.rs:1219-1247 | A control cancels exactly the stored attempt of a run that is not over, once its task is not active any more; otherwise only the task can have changed |
| RunOutcomes.ClaimStored | crates/agent/src/db.rs:671-705 | A claim is stored if and only if it is for a new run or a later attempt; what is stored stands for that claim, claimed and without a task, and no other run changes |
| RunOutcomes.RestartEnds | crates/agent/src/db.rs:935-948 | After a restart no task is active: those that were have failed, all others are as they ended |
| RunOutcomes.PutOffDoubles | crates/agent/src/ipc.rs:843-856 | A delivery that is put off keeps its report, moves only its own entry, and makes the next delay twice this one, up to the maximum |
| RunSafety.StepKeepsInv | crates/agent/src/agent.rs:1219-1247 | Each transaction of the cycle, user stops, task ends and restarts keep the protocol's invariant |
| RunSafety.GatedIsNew | crates/agent/src/db.rs:797-890 | A report that passes its caller's gate was never enqueued before for that attempt |
| RunExample.OverwriteHappens | crates/agent/src/db.rs:834-866 | A claim and a cancellation reach a terminal run on which every further report that only the database checked would put the log out of order |
| RunClaims.RunPayloadBinds | crates/agent/src/control_plane.rs:998-1006 | Two run intents have the same hashed payload if and only if they are equal in every field |
| RunClaims.RunIsNoSchedule | crates/agent/src/authorization.rs:194-200 | No run intent shares its hashed payload with a schedule intent, so a lease for one never fits the other |
| RunClaims.RunPayloadAgrees | packages/contracts/src/desktop.ts:95-117 | The agent recomputes the control plane's payload of a run exactly |
| RunClaims.ValidateClaim | crates/agent/src/control_plane.rs:968-996 | The check accepts exactly claims in range whose lease, if any, is valid and was issued for that very intent |
| RunClaims.AuthorizedAsSigned | crates/agent/src/agent.rs:1119-1161 | What is started for an authorized stored claim is, field by field, the intent its lease was signed for |
| RunClaims.AuthorizedIff | crates/agent/src/agent.rs:1119-1161 | A stored claim may be started if and only if its lease verifies, is in force at the clock's answer, and is for this device, run, attempt, application version, installed capabilities and digest |
| RunSafety.ReportKeepsIff | crates/agent/src/db.rs:834-866 | The transaction keeps an attempt's log in order if and only if the report passes its caller's gate for the stored state, and keeps the whole database invariant if and only if it also is not a running report |
| ControlPlaneCycle.Cycle.RunControlPlaneCycle | crates/agent/src/ipc.rs:629-702 | Whatever fails, one cycle takes installations, runs and schedules each along a run of its protocol; no installation snapshot is applied after an installation report had to be put off, and no run is claimed after a run report had to be |
| ControlPlaneCycle.Cycle.SyncInstallations | crates/agent/src/ipc.rs:638-657 | Flush, at most one snapshot and only after a complete flush, and flush again |
| ControlPlaneCycle.Cycle.SyncSchedules | crates/agent/src/control_plane.rs:484-522 | Success is exactly one applied or accepted message; every failure ends with the schedules marked offline |
| RunAgent.Agent.RunControlPlaneCycle | crates/agent/src/ipc.rs:660-692 | The run part of a cycle is a run of the protocol whatever fails, and no run is claimed in it after a delivery had to be put off |
| RunAgent.Agent.ApplyRunControls | crates/agent/src/agent.rs:1219-1247 | When it succeeds every controlled attempt that is stored is terminal |
| RunAgent.Agent.EnqueueCompletedRunReports | crates/agent/src/ipc.rs:819-838 | The log gains one report for each running run whose task had ended, in the order in which they ended, succeeded if and only if the task succeeded and failed otherwise, up to the first that cannot be stored; on success no running run with an ended task is left |
| RunAgent.Agent.PendingAuthorizedRemoteRuns | crates/agent/src/agent.rs:1119-1161 | Exactly the claimed runs whose lease verifies, is for this intent, device and installed version, and is in force, by claim time and run id; nothing exactly when the authorization clock refuses for one of them |
| RunAgent.Agent.ProcessPendingRemoteRuns | crates/agent/src/ipc.rs:720-817 | It handles authorized claimed runs only, and when it succeeds none it was given is still claimed |
| RunAgent.Agent.FlushRunReportOutbox | crates/agent/src/ipc.rs:840-861 | Due reports are delivered in the order they were enqueued; a flush that succeeds removes exactly them, one that fails stops at the first failure and puts off at most that report, by its backoff |
| InstallAgent.Agent.FlushInstallationReports | crates/agent/src/ipc.rs:863-886 | The same for installation reports |
| RunAgent.Agent.DueRunReports | crates/agent/src/db.rs:892-917 | Exactly the due entries, in the order in which they were enqueued |
| RunAgent.Agent.CompletedRemoteRuns | crates/agent/src/db.rs:868-890 | Every running run whose task has ended, once, by finishing time and run id |
| RunAgent.Agent.BindRemoteTaskAndEnqueueRunning | crates/agent/src/db.rs:797-832 | Only a claimed attempt is bound, together with its running report; otherwise nothing changes |
| RunAgent.Agent.EnqueueRunReport | crates/agent/src/db.rs:834-866 | The stored attempt takes the report's state and the report is enqueued once; an unknown attempt changes nothing |
| RunAgent.Agent.RecordRemoteClaim | crates/agent/src/db.rs:671-705 | An invalid claim is refused; a valid one is stored with all its fields only when it is new or of a later attempt, and then unbound |
| Outbox.BackoffBounds | crates/agent/src/ipc.rs:848-852 | Delays stay between the base and the maximum and never shrink with the number of attempts |
| Outbox.BackoffDoubles | crates/agent/src/ipc.rs:848-852 | The first delay is five seconds, and each one is twice the one before, up to five minutes |
| InstallSafety.EveryRunCoherentIff | crates/agent/src/agent.rs:329-436 | In every state of a run from an empty store managed rows are backed by directories with checked releases, if and only if no uninstall of the run strands its row |
| InstallSafety.CoherentIff | crates/agent/src/agent.rs:404-436 | A step keeps every managed row backed by a directory with a checked release, if and only if it is not an uninstall whose row cannot be deleted and whose directory cannot be moved back |
| InstallExample.StrandingHappens | crates/agent/src/agent.rs:404-436 | An installation and a failing uninstall reach such a state |
| InstallExample.DisplacingHappens | crates/agent/src/agent.rs:302-319 | An installation, a development directory and its registration leave the signed package's directory without a row |
| InstallSafety.ContentsFixed | crates/agent/src/agent.rs:379-392 | While a version stays managed, in any run with compensations succeeding, its directory exists and its contents never change |
| InstallSafety.WriteOnce | crates/agent/src/agent.rs:379-436 | No step rewrites a version's directory; only an uninstall of that version, with no active task, removes it |
| InstallSafety.BusyDirectoryStays | crates/agent/src/agent.rs:406-413 | While an application has an active task none of its directories is removed or rewritten, whatever fails |
| InstallSafety.OneActive | crates/agent/src/db.rs:116-147 | In every run, whatever fails, an application has at most one active version |
| InstallSafety.OrphansIff | crates/agent/src/agent.rs:302-402 | A step leaves a directory without a managed row if and only if an activation failed and its directory could not be removed, directly or for an item of a snapshot at its turn, or a development registration displaced a managed version |
| InstallSafety.OrphanForever | crates/agent/src/agent.rs:379-384 | Such a version stays so in every later run, and every attempt to install it is refused |
| InstallSafety.InstallThenUninstall | crates/agent/src/agent.rs:329-436 | Installing a new version and uninstalling it restores every directory and row, except that no version of the application is active any more |
| InstallSafety.FailedInstallRestores | crates/agent/src/agent.rs:366-396 | A failed installation changes no row, and changes anything at all if and only if it leaves a staging or destination directory behind |
| InstallSafety.FailedUninstallRestores | crates/agent/src/agent.rs:404-436 | With restoration succeeding, a failed uninstall changes nothing at all, or only purging the quarantined directory failed |
| InstallEffects.InstallFault | crates/agent/src/agent.rs:329-402 | An installation ends with the fault of its first step that fails, in the source's order of steps, and succeeds if none does |
| InstallEffects.ItemFault | crates/agent/src/agent.rs:1000-1022 | So does the installation of a snapshot's item, from the checks of the item and the download on; this is the fault whose code is reported |
| InstallEffects.PresentFault | crates/agent/src/agent.rs:972-999 | The presence check fails with its first failing step and otherwise answers whether the version is there as described |
| InstallEffects.CodesTell | crates/agent/src/agent.rs:1353-1364 | Every fault has a code that the agent and the contract accept for a report, and each code stands for exactly its kinds of fault |
| InstallEffects.InstallPlaces | crates/agent/src/agent.rs:379-402 | A successful installation puts the extracted release in its own directory, makes its row the application's only active one, and changes nothing else |
| InstallEffects.RegistersDirectory | crates/agent/src/agent.rs:302-319 | A registration succeeds if and only if it is allowed, the directory has a manifest and the row is written; then that version is the only active one, unmanaged, where it lies; otherwise nothing changes |
| InstallEffects.UninstallFault | crates/agent/src/agent.rs:404-436 | An uninstall ends with the fault of its first step that fails, managed or not |
| InstallEffects.UninstallRemoves | crates/agent/src/agent.rs:404-436 | A successful one removes the row, the directory if the version is managed, and nothing else |
| InstallSync.SnapshotApplied | crates/agent/src/agent.rs:873-942 | Under every failure: the revision is committed exactly on a true answer, then it is new and every item is present (and reported) or failed while downloading with that report pending; a false answer means already applied, or an item waits; nothing installed is disturbed |
| InstallSync.HeldBackIff | crates/agent/src/agent.rs:934-942 | Without failures the revision is held back if and only if some requested item was absent at its turn |
| InstallSync.ItemHandled | crates/agent/src/agent.rs:893-932 | One item waits if and only if it is requested and absent; otherwise it is present and reported so unless the server knows, or it was to be downloaded, is absent, and is reported failed |
| InstallSync.ItemTold | crates/agent/src/agent.rs:893-932 | Exactly what one item adds to the pending reports: installed if it is present afterwards and the server does not know, downloading if it is requested and absent, failed with the fault's code if it was to be downloaded and is absent; due at once and last in the outbox; a turn that fails adds nothing |
| InstallSync.SnapshotTold | crates/agent/src/agent.rs:873-942 | After a snapshot applied without failure the pending reports are the old ones and exactly those its items call for at their turns |
| InstallSync.SnapshotRefused | crates/agent/src/agent.rs:878-892 | A malformed or older snapshot is refused and one already applied is a no-op, before anything is looked at |
| InstallSync.AppliedOnce | crates/agent/src/agent.rs:880-889 | After a commit the same revision is a no-op and an older one is refused, without any effect |
| InstallSync.CommitsIncrease | crates/agent/src/db.rs:515-539 | Over every run the committed revisions strictly increase and the last one is the stored one |
| InstallAgent.Agent.InstallSigned | crates/agent/src/agent.rs:329-402 | Verification, staging, move, activation and compensation, in order, with every failure |
| InstallAgent.Agent.UninstallVersion | crates/agent/src/agent.rs:404-436 | Quarantine, row deletion, restoration and purge, in order, with every failure |
| InstallAgent.Agent.RegisterDevDirectory | crates/agent/src/agent.rs:302-319 | A development directory becomes the active, unmanaged version its manifest names, installed now |
| InstallAgent.Agent.ActivateInstall | crates/agent/src/db.rs:116-147 | Deactivates the application's other versions and upserts the row as active |
| InstallAgent.Agent.InstallationIsPresent | crates/agent/src/agent.rs:972-999 | Presence, with the row dropped when its directory is gone and errors for a different manifest or a failed check |
| InstallAgent.Agent.ApplyInstallationSnapshot | crates/agent/src/agent.rs:873-942 | The loop computes the snapshot function item by item and stops at the first failure |
| InstallAgent.Agent.ValidateSnapshot | crates/agent/src/control_plane.rs:748-773 | The check accepts exactly safe revisions with valid items and distinct installation ids |
| InstallAgent.Agent.EnqueueReport | crates/agent/src/db.rs:541-563 | An invalid installation id or error code is refused; a report already pending for the installation and status is kept as it is, a new one is due now and not yet attempted |
| CapabilitySet.CapabilityIdentity | packages/manifest-schema/src/index.ts:526-563 | Two capability lists have the same canonical text if and only if they are equal as nested sets, network domains compared in lower case |
| CapabilitySet.NormIdentity | packages/manifest-schema/src/index.ts:546-563 | Two values have one normal form if and only if they are equal up to order and repetition in arrays at every depth and up to key order in objects |
| CapabilitySet.NormIsTheNormalForm | packages/manifest-schema/src/index.ts:546-563 | The normal form has every array in strictly ascending order of texts and equals the value as nested sets; a value is its own normal form if and only if its arrays ascend |
| CapabilitySet.OnlyDomainCaseIsLost | packages/manifest-schema/src/index.ts:526-544 | Lists that differ at most in how network domains are capitalised have one identity text; no other capability is touched |
| CapabilitySet.TsNormalizeIsNorm | packages/manifest-schema/src/index.ts:546-563 | The Map-then-sort normaliser computes that normal form |
| AgentJson.NormalizeSetArrays | crates/agent/src/authorization.rs:202-224 | Drain, stable sort and dropping consecutive repeats compute that normal form |
| AgentJson.DropRepeats | crates/agent/src/authorization.rs:212-214 | On entries sorted by text the pass keeps each value once, strictly sorted |
| AgentJson.TextBuffer.WriteCanonicalJson | crates/agent/src/authorization.rs:232-264 | The serialiser appends exactly the canonical text, which is the shortest text a JSON reader reads as that value |
| AgentJson.DesktopCapabilityText | crates/agent/src/authorization.rs:172-191 | The text the agent hashes is the canonical text of the normalised, lower-cased list |
| JsonReader.CanonParses | crates/agent/src/authorization.rs:232-264 | A reader written from the grammar of RFC 8259, which takes no whitespace and only ascending member names, reads every canonical text back as the value it was made from |
| JsonReader.CanonRead | packages/manifest-schema/src/index.ts:565-583 | The same for a canonical text inside a document, with what follows it left over |
| JsonReader.CanonShortest | packages/manifest-schema/src/index.ts:565-583 | Of all texts which that reader reads as a value, with any escapes, the canonical one is the shortest and no other is as short: so the named escapes, literals and digits are the only ones possible |
| JsonReader.CanonInjective | packages/manifest-schema/src/index.ts:565-583 | Canonical texts are equal if and only if the values are, so a hashed text binds every field |
| JsonReader.CanonPrefix | crates/agent/src/manifest.rs:434-466 | A canonical text followed by any delimiter has one reading and one place where it ends |
| TextAgreement.AgreementCondition | crates/agent/src/authorization.rs:172-264 | Both sides derive one text from every value over some characters if and only if those do not mix supplementary characters with U+E000 to U+FFFF |
| TextAgreement.TextsDiffer | packages/manifest-schema/src/index.ts:586-588 | Two one-character strings, one from each range, for which the texts differ |
| Unicode.EncodeOrder | packages/manifest-schema/src/index.ts:586-588 | UTF-8 order is code point order; UTF-16 order is too when the two ranges are not mixed |
| Unicode.SurrogatesOfUnits | packages/manifest-schema/src/index.ts:586-588 | A UTF-16 supplementary character is a high and a low surrogate with ten bits each, any other is one unit |
| ArtifactDescriptors.TextBindsDescriptors | packages/manifest-schema/src/index.ts:513-517 | With distinct names, two artifact lists have the same integrity text if and only if they hold the same descriptors |
| ArtifactDescriptors.OrderIndependentIff | crates/agent/src/manifest.rs:408-414 | No reordering of the list changes the integrity text if and only if no two different descriptors share a name |
| ArtifactDescriptors.DescriptorsAgree | crates/agent/src/manifest.rs:408-414 | The agent, which sorts by bytes, recomputes the integrity text of the schema, which sorts by UTF-16 units, for every list, repeated names included |
| ZipWriter.PackedIsRead | apps/cli/src/archive.ts:21-94 | Reading the archive gives back every input entry once, in name order, and nothing else |
| ZipRoundTrip.RoundTrip | apps/cli/src/archive.ts:41-93 | The reader, which checks every signature, version, flag, date, file mode, disk, size, offset, count and checksum against the format, recovers exactly the laid-out entries |
| ZipWriter.OrderIndependent | apps/cli/src/archive.ts:21-46 | Any two orderings of the same entries are both refused or give identical bytes |
| ZipWriter.FailureIffNotPackable | apps/cli/src/archive.ts:21-94 | The writer refuses exactly the inputs with an unsafe path, two names equal up to case, or a number that does not fit its field |
| ZipWriter.FailureMeans | apps/cli/src/archive.ts:21-94 | What each refusal means for the input: an entry with that path error, too many files, two names that fold to one, more bytes than an offset holds, or a field that does not fit |
| ZipWriter.PackedNamesDiffer | apps/cli/src/archive.ts:34-39 | If nothing is refused, all names differ without regard to case |
| ZipWriter.BuildDeterministicZip | apps/cli/src/archive.ts:21-94 | The writer returns that error, the first one in its order of checks, or the archive's bytes |
| ArchivePaths.PathsAgree | crates/agent/src/artifact.rs:189-223 | The agent accepts a plain name if and only if the writer does and no component's stem is the device name that only the agent reserves |
| ArchivePaths.PackedIsAcceptedIff | crates/agent/src/artifact.rs:141-182 | Of the archives that can be packed, the agent accepts all paths of exactly those without such a name |
| ArchivePaths.ClockIsRefused | crates/agent/src/artifact.rs:209 | There is such a name |
| ArchivePaths.ValidatePortableArchivePath | crates/agent/src/artifact.rs:189-223 | The loop over components decides the agent's rules |
| ZipWriter.LayOut | apps/cli/src/archive.ts:41-93 | The loop over entries keeps offsets equal to the bytes before them and produces the three regions |
| ZipWriter.BuildLocalHeader | apps/cli/src/archive.ts:46-57 | Writing the fields at their offsets gives the local header record |
| ZipWriter.BuildCentralHeader | apps/cli/src/archive.ts:60-77 | Writing the fields at their offsets gives the central directory record |
| ZipWriter.BuildEndRecord | apps/cli/src/archive.ts:84-92 | Writing the fields at their offsets gives the end record |
| ZipWriter.HasDuplicate | apps/cli/src/archive.ts:34-39 | The set of folded names detects exactly the lists with two names equal up to case |
| Crc32.ComputeCrc | apps/cli/src/archive.ts:161-165 | The table-driven checksum equals the reference that feeds one bit at a time |
| Crc32.CrcTable | apps/cli/src/archive.ts:155-159 | Entry i is the effect of shifting byte i out of the register |
| Crc32.TableStep | apps/cli/src/archive.ts:161-165 | One table lookup does the work of eight bits, for every register and byte |
| Crc32.PolynomialIsGenerator | apps/cli/src/archive.ts:155-159 | The feedback constant has exactly the coefficients of the generator polynomial of ISO 3309 |
| Crc32.KnownChecksums | apps/cli/src/archive.ts:161-165 | The empty message has checksum zero, and four bytes of ones have a checksum of ones |
| Crc32.Residue | apps/cli/src/archive.ts:161-165 | A message followed by its own checksum has one and the same checksum whatever the message is |
| Crc32.ByteChangeDetected | apps/cli/src/archive.ts:161-165 | Replacing any single byte of any message changes its checksum |
| Crc32.BurstDetected | apps/cli/src/archive.ts:161-165 | Any change confined to 32 consecutive bits changes the register |
| MountSafety.OneInside | apps/control-plane/src/remote.tsx:30-61 | In every disciplined run two calls are never inside mountControlPlane at once |
| MountRuns.SettledInOrder | apps/control-plane/src/remote.tsx:37-41 | In every run a replacement past its wait has every mount it replaced, however many, settled |
| MountSafety.SettledRun | apps/control-plane/src/remote.tsx:30-96 | Once all calls of a disciplined run have settled the registered mount is the pending call's, the newest and live, and every other one registered was cleaned up; the container shows exactly that mount if and only if the last call to fill it did not throw before registering |
| MountRuns.StaleRun | apps/control-plane/src/runtime.tsx:40-88 | In every state of every run the container shows what is registered if and only if the last call to fill it did not throw before registering |
| MountRuns.LeftBehind | apps/control-plane/src/runtime.tsx:92-99 | In every run a root left by such a call belongs to no mount and stays through every unmount and cleanup until another call fills the container |
| MountSafety.LateFailureShows | apps/control-plane/src/remote.tsx:55-57 | A disciplined run of one mount after which nothing is pending and unmounting does not empty the container |
| MountProgress.NoDeadlock | apps/control-plane/src/remote.tsx:37-60 | In every reachable state the lowest unsettled call can take its next step |
| MountProgress.EveryRunCanSettle | apps/control-plane/src/remote.tsx:37-60 | From every reachable state all calls can settle without a new mount, unmount or cleanup, and with no rejection but those of calls that have already thrown |
| MountProgress.FiniteSteps | apps/control-plane/src/remote.tsx:30-61 | Without new mounts the calls take at most as many steps as are left to them, in any interleaving |
| MountSafety.NewestWins | apps/control-plane/src/remote.tsx:30-61 | With replacing mounts alone, none failing, the newest is shown in the end and all others registered were cleaned up |
| MountSafety.NoMountLost | apps/control-plane/src/runtime.tsx:88-99 | In every disciplined run each registered mount is held or was cleaned up |
| MountRuns.LostExactly | apps/control-plane/src/runtime.tsx:88-99 | In every run the registered mounts that are neither held nor cleaned up are exactly those whose record another registration overwrote |
| MountSafety.UntimelyUnmountLoses | apps/control-plane/src/remote.tsx:63-67 | An undisciplined run with two calls inside at once, after which a registered mount is lost |
| MountSafety.UnmountSafeIff | apps/control-plane/src/remote.tsx:63-67 | A pending mount can be unmounted without ever letting two calls inside if and only if no call is inside |
| MountEffects.UnmountDetaches | apps/control-plane/src/remote.tsx:63-96 | In every run, whatever is in progress, after `unmount` nothing is pending; if a mount was, every call is cancelled, nothing is registered and what was registered has been cleaned up, otherwise nothing changes |
| MountEffects.UnmountEmpties | apps/control-plane/src/remote.tsx:63-96 | After a disciplined run with no call inside, `unmount` leaves nothing pending or registered, every mount ever registered cleaned up, and the container empty if and only if the last write to it did not fail late |
| MountEffects.UnmountedForGood | apps/control-plane/src/remote.tsx:30-96 | That stays so whatever happens next, as long as `mount` is not called again |
| MountEffects.CleanupDetaches | apps/control-plane/src/remote.tsx:54-96 | In every run the cleanup a mount returned does what `unmount` does while that mount is the current one, and nothing otherwise |
| MountEffects.CleanupEmpties | apps/control-plane/src/remote.tsx:54-96 | In disciplined runs the current mount's cleanup leaves nothing pending or registered, all mounts cleaned up and the container empty, with the same exception |
| MountEffects.MountReplaces | apps/control-plane/src/remote.tsx:30-35 | In every run a new mount is pending at once and waits for the one it replaces, which is detached |
| MountSafety.StepKeepsInv | apps/control-plane/src/remote.tsx:30-96 | Each step between awaits, the returned cleanup at any time included, keeps the invariant of disciplined runs |
| MountRuns.StepAlways | apps/control-plane/src/remote.tsx:30-96 | Each step, `unmount` at any time included, keeps the invariant of all runs |
| MountProtocol.RemoteModule.StartsMount | apps/control-plane/src/remote.tsx:30-35 | Cancels the pending call, if any, and becomes the pending one |
| MountProtocol.RemoteModule.Cancel | apps/control-plane/src/remote.tsx:81-96 | Only the pending call is cancelled; its cleanup runs once, or the runtime is told to unmount |
| MountProtocol.RemoteModule.AfterRuntime | apps/control-plane/src/remote.tsx:43-46 | A superseded call stops; the pending one enters after unmounting what is registered |
| MountProtocol.RemoteModule.AfterMount | apps/control-plane/src/remote.tsx:46-53 | A call superseded while mounting cleans up after itself |
| MountProtocol.RemoteModule.Registers | apps/control-plane/src/runtime.tsx:40-88 | The container is the call's; so is the record, unless subscribing or rendering throws in between |
| MountProtocol.RemoteModule.OnError | apps/control-plane/src/remote.tsx:55-60 | A failed call cancels itself if it is still pending, and settles |
| MountProtocol.RemoteModule.UnmountRuntime | apps/control-plane/src/runtime.tsx:92-99 | The registered mount, if any, is cleaned up and forgotten |
| Slugs.SlugDefinitionsAgree | packages/manifest-schema/src/index.ts:3-7 | The scheduler's check and the schema's expression accept the same strings, although one reads bytes and the other UTF-16 units |
| Slugs.SplitIsSchema | crates/agent/src/scheduler.rs:266-286 | Splitting at dashes decides exactly the regular expression |
| Slugs.IsSlug | crates/agent/src/manifest.rs:558-573 | The single pass with its previous-dash flag accepts exactly the same byte strings |
| Slugs.SemverDefinitionsAgree | packages/manifest-schema/src/index.ts:9 | The agent's version check and the schema's expression accept the same strings |
| Slugs.SemverIsSchema | crates/agent/src/scheduler.rs:288-305 | Splitting at the first dash and at dots decides exactly the regular expression |
| Artifacts.AssertArtifactSetMatchesManifest | apps/worker/src/validator.ts:277-296 | Greedy find-and-splice accepts exactly equal multisets of (file name, digest, size), apart from the Federation count rule, and names the first artifact with too few objects |
| AuthorizationClock.AcceptedTimesGrow | crates/agent/src/db.rs:317-341 | Accepted times never decrease over any observations, refusals and restarts |
| AuthorizationClock.TickBounds | crates/agent/src/db.rs:317-341 | An observation is accepted if and only if it is in range and at most the skew bound behind the mark; the accepted time is between the observation and the skew bound after it; a refusal changes nothing |
| AuthorizationClock.MarkIsMaximum | crates/agent/src/db.rs:317-341 | The stored mark is the greatest accepted observation or the initial mark |
| AuthorizationClock.LeaseOnlyAges | crates/agent/src/authorization.rs:95-125 | Over any observations a lease goes from the future to usable to expired and never back, for every scope it is checked against |
| AuthorizationClock.AcceptedIff | crates/agent/src/authorization.rs:95-125 | A lease is accepted if and only if it is well formed, inside its lifetime up to the skew bound, and its device, application version, task, attempt and capabilities are those asked for; and when it is expired or from the future, exactly |
| AuthorizationClock.AcceptedIsCurrent | crates/agent/src/authorization.rs:95-125 | An accepted lease has not expired by the observed clock, and was issued at most twice the skew bound after it |
| AuthorizationClock.Clock.AuthorizationTime | crates/agent/src/db.rs:317-341 | The stored mark and the answer of one observation |

## Left out

* SQLite, its files and migrations: a transaction is one step that happens or does not; stored JSON columns, the clock's
  mark and revisions that cannot be read back are not modelled.
* SHA-256, Ed25519, base64, randomness, cron evaluation, time zones and letter casing are parameters.
* Strings with lone surrogates (a Dafny `char` is a scalar value), and JSON numbers that are not integers; the reader of JSON
  takes no insignificant whitespace and no upper-case hexadecimal digits.
- AgentJson.NormalizeSetArrays: returns the normalised tree instead of updating it in place; the arrays it drains, sorts and refills are local to each call, so no aliasing is lost.
- Crc32.ComputeCrc: a 32-bit word is a list of 32 bits, so JavaScript's signed intermediate values do not appear.
- ScheduleDelta.ApplyScheduleDelta: parsing the fields of the snapshot, the delta and the result, which may also refuse, is not modelled.
- RunAgent.Agent.PendingAuthorizedRemoteRuns: the clock's answers are inputs, one for each run, instead of readings of `AuthorizationClock` in between.
- ControlPlaneCycle.Cycle.RunControlPlaneCycle: which failures invalidate the registration is a choice; times are unbounded integers and one cycle has one.
- RunAgent.Agent.EnqueueRunReport: a report is its key (run, attempt, status); its error code and result text are not modelled.
- InstallAgent.Agent.InstallSigned: the checks before extraction, extraction itself and release validation are outcomes; a path is a name and a directory is one value.
- MountSafety.SettledRun: one container; `RuntimeRejects` stands for every failure to load, what a mount shows is its number, and a cleanup that throws is not modelled.
- AuthorizationClock.MarkIsMaximum: a stored mark outside the 64-bit range is not modelled.
* True races between the management thread and the cycle: every transaction is one step.
* The local task runner, web UI servers and leases of tasks: a task is its row.
* Error messages, notifications, HTTP, pipes, the key ring, services and command lines.
* The manifest's other rules, archive collection from disk and the worker's download and scan steps.
* React, styling and translation of the control plane.
