# Novena Hub: verified model of its durable state machines

Novena Hub carries customer intent to field Gateways through rows in a database: commands, settings,
credentials, releases, datapoint maps, setup runs, alerts and panel layouts. This project models those
machines in Dafny and proves what they keep over every run.

**How it is modelled**

- One database transaction that takes row locks is one step. A run is any sequence of steps, so every
  interleaving of workers, Gateways, administrators and crashes is a run of the command, Hub, configuration,
  escrow and release modules. Where the code reads and later writes without a lock, the two are separate steps with
  what was read in between: publishing, the expiry sweep, flows that write a Gateway's lifecycle, recording a live
  test, alert checks and acknowledgements, and the rows of overlapping setup folds.
- Some unlocked operations are still one step. In `MapLifecycle`: an edit, a template reset, a rollback, a clone and
  the start of a test (each writes the same whatever it read of the row, so only a source or template it copies could
  be older). In `SetupProofs`: a whole fold, beside its single statements. In `AlertWindow`: judging a window of
  samples. In `ControlPlane`: the annual expiry of an activation (`Lapse`, apps/devices/tasks.py:174-203) and the
  suspension after a verification mismatch (`ReportMismatch`, `mqtt_consumer.py`:611-636), which only suspend.
- Each step exists twice: as a function on values (`*Model`, `ControlPlane`, `MapLifecycle`, `AlertWindow`,
  `CommandLayout`, ...) and as methods that assign fields one at a time or loop over rows, as the source does
  (`*Store`, and the methods of `CsvImport` and `AlertWindow`). Every method's contract equates the state it
  leaves with the function. The lemmas (`*Proofs`, `ControlRuns`, ...) are about the functions and their runs.
- Beside the results over runs, each main operation has an exact statement (`DispatchProofs`, `SuspensionProofs`,
  `CommandOutcomes`, `ConfigReports`, `EscrowReports`, `MapRules`, `CommandLayoutRules`): when it is accepted and what
  it leaves, in terms of the rows, and that a refusal names a check that failed.
- The clock is an argument that steps read. SHA-256 over canonical JSON is an arbitrary function, injective
  where a lemma says so. The broker answers acknowledged, unknown or not sent, as it likes.
- Permissions, MFA, the readiness evidence behind an activation, and the templates, registers and policy rows
  behind a request enter as arguments of the step that reads them.

**What the proofs found** (the model follows the code; each point is a lemma below)

- `approve_command` has no status check. A command's status goes backwards, or leaves a final status, exactly
  when an accepted approval meets a command that has already left the queue (`StepProgressExactly`); a disaster
  reset followed by a late approval does it (`ResetThenApproveRequeues`). The one-to-one outbox row is what stops
  a second approval.
- A worker's recording transaction compares nothing with the current claim. Exactly a late "not sent" record
  reopens dispatch after another attempt may have been delivered (`StepSettledExactly`, `LateFailureReopens`);
  when workers record only under their own live lease, no attempt follows an ambiguous one.
- `docs/governed_remote_control_operations.md` says that a disaster reset cancels restored outbox work. The code
  leaves rows in retry. The epoch fences every state-changing command among them (`RecoveryStopsStateChanges`),
  but a diagnostic is published again although its command is already cancelled (`DiagnosticRetrySurvivesRecovery`).
- The transaction that records a configuration publication overwrites whatever status it finds
  (`LateRecordRevivesReplaced`, exact condition in `StepOrderExactly`).
- The unlocked expiry sweep can overwrite an acknowledgement it has not seen
  (`SweepCanLoseAcknowledgement`, exact condition in `StepKeepsAcknowledgedExactly`).
- `docs/local_mqtt_dynamic_security.md` says that a pending Gateway's serial cannot be reclaimed. The code lets its own
  team claim it again: the Gateway leaves the quarantine with a new secret, asking for the release again restores
  nothing (`ReclaimLeavesQuarantine`), and a worker past deprovisioning releases it all the same
  (`ReclaimStopsNoWorker`). Flows that read an operating Gateway without a lock can also write its lifecycle back after
  the request, or after finalisation (exact conditions in `StepLeavesQuarantineExactly`, `StepLeavesReleasedExactly`).
- A release worker that fails after another one finalised reopens the completed request
  (`LateFailureReopensRequest`, exact condition in `StepReopensExactly`); the Gateway stays released and shut down all
  the same.
- Finalising a release cancels the Gateway's open commands but not their outbox rows: a pending diagnostic is still
  published until it expires (`FinalizeLeavesOutbox`).
- Cooldowns of several limit sources are combined with the minimum, so one more source can admit a value that the
  first refuses (`ShorterCooldownAdmits`, exact condition in `CooldownExactly`).
- `trigger_alert` looks and creates without a lock, and `acknowledge_alert` saves a status it read before: overlapping
  checks, or a late acknowledgement, leave two unresolved alerts within the cooldown (`OverlappingChecksClash`,
  `StaleAcknowledgementClashes`, exact condition in `StepSpacedExactly`).
- A setup fold saves rows it read before: an overdue row can undo a confirmation, and no later fold restores it
  (`OverdueSaveUnconfirms`, `AttentionStays`, exact condition in `StepKeepsConfirmedExactly`). Equipment pages save
  rows the same way (`ValidationUnconfirms`), and equipment deployed again counts as confirmed from telemetry of before
  (`RedeployConfirmsFromOldTelemetry`).
- Recording a live test saves the whole map row, so signals saved meanwhile are lost (`LateRecordLosesEdits`); what is
  deployable was tested all the same.
- A panel that a payload leaves out may tie with a submitted one; normalising then swaps the two (`TiedPanelsSwap`,
  exact condition in `OrderKeptExactly`).
- The boolean data type is accepted for a control, but every true or false value is refused when it is encoded
  (`ValidatedExactly`).

## Model

The results over runs, exact conditions and failing inputs come first, then the methods for whole transactions, then
what these rest on.

| member | source | states |
|---|---|---|
| `CommandProofs.EventLogReplays` | apps/devices/remote_control.py:143-236 | In every interleaving without a disaster reset a command's events are numbered 1..n and replay, each leaving the status the one before reached, from requested to the command's current status |
| `CommandProofs.NoRetryAfterAmbiguity` | apps/devices/remote_control.py:841-906 | In every run where workers record only under their own live lease, no attempt is ever opened after one ended acknowledged or unknown |
| `CommandProofs.AttemptsNeverOverlap` | apps/devices/remote_control.py:803-824 | In every run where workers record only under their own live lease at most one attempt is live: of any two, the earlier had recorded or outlived its lease before the later was opened |
| `CommandProofs.StatusNeverRegresses` | apps/devices/remote_control.py:89-128 | Between any two moments of any run without an accepted approval of a command past the queue the rank does not fall and a final command stays final, late workers included |
| `CommandProofs.StepProgressExactly` | apps/devices/remote_control.py:89-128 | A transaction lowers the rank (capped at 100) or leaves the final statuses if and only if it is an accepted approval of a command past the queue |
| `CommandProofs.RunSound` | apps/devices/remote_control.py:752-906 | Under all interleavings attempts are numbered 1..attempt_count, attempt_count stays within the maximum, and a published, dead or cancelled outbox row belongs to a command past every waiting status |
| `CommandProofs.StepSettledExactly` | apps/devices/remote_control.py:841-906 | Once an attempt may have reached the broker the row stays unclaimable, except exactly when another worker records "not sent" with attempts left |
| `CommandProofs.DispatchNeedsApproval` | apps/devices/control_readiness.py:221-266 | A command that needs approval can be published only after someone other than its requester approved it with permission, MFA and a recent sign-in, in time, for the same device and current value as requested |
| `CommandProofs.WaitingIsRecoverable` | apps/devices/remote_control.py:742-789 | A queued or dispatching command becomes claimable at some instant and stays so; every claim from then on spends an attempt or ends the wait |
| `CommandProofs.RunChains` | apps/devices/remote_control.py:152-175 | Over every run the log stays one hash chain that never gets shorter |
| `CommandProofs.LastChecksumDeterminesLog` | apps/devices/remote_control.py:152-175 | With an injective checksum two chains with the same last checksum are the same events, length included |
| `CommandProofs.ResetKeepsLogExactly` | apps/devices/control_recovery.py:17-28 | The disaster reset, which writes no event, leaves the log consistent exactly when the command has left every waiting status |
| `CommandProofs.ResetThenApproveRequeues` | apps/devices/control_readiness.py:222-266 | A disaster reset followed by the approval of the invalidated request puts the cancelled command back into the queue |
| `CommandProofs.LateFailureReopens` | apps/devices/remote_control.py:654-731 | Without the lease rule a third attempt is opened after the second was acknowledged |
| `CommandOutcomes.NotSentExactly` | apps/devices/remote_control.py:654-731 | A failure before the broker accepted leaves the row claimable from the end of the retry delay on and not before, or dead without attempts left |
| `CommandOutcomes.AcknowledgedExactly` | apps/devices/remote_control.py:881-905 | An acknowledged publication ends the dispatch and moves the command to broker acknowledged unless it is further |
| `CommandOutcomes.UnknownExactly` | apps/devices/remote_control.py:842-876 | So does one of unknown outcome, as outcome unknown |
| `CommandOutcomes.OpenedExactly` | apps/devices/remote_control.py:803-824 | A claim that opens an attempt holds the row for the lease time and counts the attempt |
| `CommandOutcomes.RefusedExactly` | apps/devices/remote_control.py:627-645 | A refused claim relabels the command as expired or cancelled, whatever its status was, and cancels the row |
| `CommandOutcomes.ExhaustedExactly` | apps/devices/remote_control.py:753-789 | A claim that finds the attempts used up leaves the row dead and a waiting command failed |
| `CommandOutcomes.ResetExactly` | apps/devices/control_recovery.py:15-35 | What the disaster reset leaves of one command |
| `CommandOutcomes.ApprovalExactly` | apps/devices/control_readiness.py:222-266 | An approval is accepted if and only if every one of its checks holds, and then queues the command due at once |
| `CommandOutcomes.ReportMovesExactly` | apps/devices/remote_control.py:200-236 | A report moves the status exactly when it is reportable, the command not final and the report no step back |
| `ControlRuns.EpochFencing` | apps/devices/remote_control.py:800-824 | Over every run no epoch bump lies between the request of a state-changing command and the claim that opens one of its attempts |
| `ControlRuns.RecoveryStopsStateChanges` | apps/devices/control_recovery.py:15-48 | In every run from a Hub without commands, no attempt of a state-changing command requested before a recovery is opened after it |
| `ControlRuns.WriteNeedsActivationSinceBump` | apps/devices/control_governance.py:86-97 | A write request is admitted only if this exact device key was activated in the run and the team's epoch has not been bumped since |
| `ControlRuns.EveryCommandSound` | apps/devices/remote_control.py:326-906 | Over every run of the Hub each stored command has bounded attempts, is never stranded and has an unbroken hash chain; without a recovery its log replays to its status |
| `ControlRuns.DiagnosticRetrySurvivesRecovery` | apps/devices/control_recovery.py:15-48 | Right after a recovery a diagnostic is published again exactly when its row was a due retry with attempts left and it has not expired |
| `DispatchProofs.OpensExactly` | apps/devices/remote_control.py:520-624 | A claim publishes a command if and only if its row is due with attempts left and, at that instant, it is listed and not expired; a state-changing one has its team controlled under its epoch and a capable Gateway; a write has its device in place, the Gateway ready under its epoch and policy revision, and scope, definition, envelope, policy and activation in force and unexpired |
| `DispatchProofs.EveryAttemptTimely` | apps/devices/remote_control.py:524-525 | In every run from a Hub without commands each attempt of each command was started before the command expired |
| `DispatchProofs.RefusedClaimEnds` | apps/devices/remote_control.py:627-645 | A due row whose command is not dispatchable is cancelled without an attempt: the command expired if its time is over, and cancelled otherwise |
| `DispatchProofs.RefusalTellsWhy` | apps/devices/remote_control.py:520-624 | Each refusal code names a check that failed |
| `DispatchProofs.AdmissionExactly` | apps/devices/remote_control.py:353-444 | A request is admitted if and only if the Gateway is not being released, the user permitted, the clock ready where needed, a state change allowed by mode and capability, and for a device the register resolved; a write also needs its key enabled in the current epoch and granted terms |
| `DispatchProofs.DenialTellsWhy` | apps/devices/remote_control.py:353-444 | Each denial code names a check that failed |
| `DispatchProofs.RequestStatus` | apps/devices/remote_control.py:448-503 | A request is stored denied or awaiting approval with nothing to dispatch, or queued and due at once |
| `DispatchProofs.RequestBinds` | apps/devices/remote_control.py:446-481 | The stored command is bound to the Gateway's team, its current epoch and the granted revisions, and lives the requested 5 to 300 seconds |
| `DispatchProofs.CommandsNumbered` | apps/devices/remote_control.py:446-447 | In every run no two commands of one device have the same number |
| `DispatchProofs.StoresExactly` | apps/devices/remote_control.py:339-352 | A request stores a command exactly when its Gateway, team and device fit together and it names what its operation needs; otherwise nothing changes |
| `DispatchProofs.RemovedDeviceIsGone` | apps/devices/models.py:1379-1385 | After the removal of a device no request can name it and no write of it is published |
| `SuspensionProofs.StoppedUntilActivation` | apps/devices/control_readiness.py:275-283 | From an emergency stop of a whole team, a rollback or a recovery on, in every run until a key of the team is activated: no state-changing request of the team is admitted and no state-changing command of it is published |
| `SuspensionProofs.ControlledExactly` | apps/devices/control_readiness.py:205-206 | A team is controlled after a transaction if and only if it activates one of the team's keys, or the team was controlled and is not stopped |
| `SuspensionProofs.StopMode` | apps/devices/control_readiness.py:281-282 | The emergency stop and a recovery lock a team down, a rollback leaves it monitoring |
| `SuspensionProofs.DisableExactly` | apps/devices/control_readiness.py:284-297 | Directly after an emergency disable of any boundary no key of the team within it is enabled and no activation within it in force; everything outside it, other teams and the mode of a partial one are untouched |
| `SuspensionProofs.DisabledKeyStaysOff` | apps/devices/control_readiness.py:284-297 | In every run until that very key is activated again no write of a key within the boundary is admitted |
| `SuspensionProofs.EnabledExactly` | apps/devices/control_readiness.py:183-194 | A device key is enabled after a transaction if and only if that activates it, or it was enabled and is not switched off by a disable covering it, a rollback, a recovery, a mismatch, an expiry or the removal of its device |
| `SuspensionProofs.InForceExactly` | apps/devices/control_readiness.py:195-204 | The same for activations, which last one year |
| `SuspensionProofs.ActivationTakesEffect` | apps/devices/control_readiness.py:183-206 | An accepted activation enables its key in the current epoch, makes its team controlled, leaves other teams and keys alone, and is not accepted twice in one epoch |
| `ConfigProofs.DeliveryOrder` | apps/devices/gateway_config_delivery.py:108-332 | Runs that record no dispatch of a configuration settled meanwhile keep "revisions 1..n, only the highest in delivery, settled if and only if completed" |
| `ConfigProofs.StepOrderExactly` | apps/devices/gateway_config_delivery.py:166-267 | A transaction breaks "revisions 1..n, only the highest in delivery, settled if and only if completed" exactly when it records a dispatch of a configuration settled meanwhile |
| `ConfigProofs.WholeDispatchesStayOrderly` | apps/devices/gateway_config_delivery.py:166-267 | With each dispatch as one step every reachable state has that order |
| `ConfigProofs.ActiveRevisionsNeverFall` | apps/devices/gateway_config_delivery.py:292-331 | Of two acknowledgements that make a revision active the later activates the same or a higher one, in every run |
| `ConfigProofs.LateRecordRevivesReplaced` | apps/devices/gateway_config_delivery.py:250-267 | A revision queued between claim and record leaves the replaced one published |
| `ConfigReports.ReportStoredExactly` | apps/devices/gateway_config_delivery.py:285-331 | The latest configuration becomes active, failed or rolled back exactly when that was reported, or it was that already and "accepted" came late; it is accepted exactly on an "accepted" before any outcome or timeout |
| `ConfigReports.EveryStatusCaused` | apps/devices/gateway_config_delivery.py:109-332 | In every run each status other than queued comes from the step that causes it (a matching report for the newest revision, an overdue claim, a sent publication, a replacement) and has been kept since |
| `ConfigReports.RetryExactly` | apps/devices/gateway_config_delivery.py:335-343 | A retry is accepted exactly when the status is failed, rolled back or timed out, which in every run has its cause, and queues the same payload again |
| `ConfigReports.PublishesExactly` | apps/devices/gateway_config_delivery.py:169-229 | A claim goes on to publish if and only if the configuration is open, not accepted, not expired, its row due, and the Gateway live and not being released; it then holds the row for the lease |
| `ConfigReports.HeldBackExactly` | apps/devices/gateway_config_delivery.py:153-221 | A claim that does not publish times out an open overdue configuration, replaces one of a Gateway being released, makes one wait 30 seconds for an offline Gateway, and leaves any other status |
| `ConfigReports.QueueReplaces` | apps/devices/gateway_config_delivery.py:114-150 | A new revision is queued and due at once, every open one is superseded, settled ones are kept |
| `EscrowProofs.EscrowStaysSealed` | apps/devices/activation.py:48-361 | In every reachable state generations are 1..n, only the newest may be unresolved, and a secret is held exactly for an unresolved one, unlocked expiry writes included |
| `EscrowProofs.AcknowledgedIsFinal` | apps/devices/activation.py:272-311 | In every run in which the sweep does not write an expiry decided before the acknowledgement, acknowledged is never left |
| `EscrowProofs.StepKeepsAcknowledgedExactly` | apps/devices/activation.py:332-361 | Acknowledged is left exactly by an expiry that the sweep had decided before |
| `EscrowProofs.DecryptionMeetsSecret` | apps/devices/activation.py:83-156 | No provisioning or delivery ever decrypts an empty secret |
| `EscrowProofs.SweepCanLoseAcknowledgement` | apps/devices/activation.py:332-361 | An acknowledgement between the sweep's read and its write is lost |
| `EscrowReports.EveryStatusCaused` | apps/devices/activation.py:48-361 | In every run each status after provisioning comes from the step that causes it and has been kept since: acknowledged from a success reported for the live generation, delivered and retried from a sent delivery, superseded from a replacement or the release |
| `EscrowReports.DeliveredExactly` | apps/devices/activation.py:164-214 | A delivery is attempted exactly for the live generation in time, and is delivered, retried or failed by whether it was sent and is the first |
| `EscrowReports.ProvisionedExactly` | apps/devices/activation.py:83-156 | Provisioning is put off when the broker refuses, gives the full time when it accepts, and delivers at once to a reachable Gateway |
| `EscrowReports.AcknowledgedExactly` | apps/devices/activation.py:272-311 | An acknowledgement counts for the live generation it names: success is final and blanks the secret, failure keeps it |
| `EscrowReports.IssuedExactly` | apps/devices/activation.py:48-81 | A new generation holds its own secret; every unresolved one before it is replaced and blanked |
| `ReleaseProofs.ReleaseOrder` | apps/devices/gateway_release.py:85-235 | A Gateway becomes released for the first time only by one worker on one request: its exact reset receipt, then a claim that saw it, then the policy cleared with verified revocation, then deprovisioning; new claims and stale lifecycle writes included |
| `ReleaseProofs.ReleasedMeansShutDown` | apps/devices/gateway_release.py:85-158 | From finalisation on, in every run without a stale lifecycle write over it, each command of the Gateway is final and cannot be approved again, and no activation secret is held |
| `ReleaseProofs.StepLeavesQuarantineExactly` | apps/devices/services.py:104-201 | A transaction takes a Gateway out of the quarantine if and only if it is an admitted new claim of a pending Gateway by its own team, or an unlocked flow writes back an operating lifecycle it read before |
| `ReleaseProofs.QuarantineKept` | apps/devices/gateway_release.py:37-63 | Every run without these two keeps the quarantine, late workers included |
| `ReleaseProofs.StepLeavesReleasedExactly` | apps/devices/gateway_release.py:98-158 | Released is left by nothing but an unlocked flow that writes a lifecycle it read before finalisation: no claim, request or worker does |
| `ReleaseProofs.ReleasedIsFinal` | apps/devices/gateway_release.py:98-158 | Released is final in every run without a lifecycle written back from before finalisation, new claims included |
| `ReleaseProofs.ReclaimLeavesQuarantine` | apps/devices/services.py:152-199 | The failing input: the own team claims a pending Gateway anew, which issues a new secret, and a second release request changes nothing |
| `ReleaseProofs.ReclaimStopsNoWorker` | apps/devices/services.py:152-199 | After a new claim by its own team a worker past deprovisioning still finalises the Gateway and blanks the new secret |
| `ReleaseProofs.StepReleasesExactly` | apps/devices/gateway_release.py:98-158 | A transaction makes a Gateway released if and only if a deprovisioned worker finalises a request that is still open, or an unlocked flow writes back a lifecycle read as released |
| `ReleaseProofs.StepReopensExactly` | apps/devices/gateway_release.py:66-82 | A completed request is reopened if and only if a worker that still holds it fails |
| `ReleaseProofs.CompletedStaysCompleted` | apps/devices/gateway_release.py:66-158 | Every run in which no worker of the request fails keeps a completed request completed |
| `ReleaseProofs.StepCompletesExactly` | apps/devices/gateway_release.py:98-158 | A request becomes completed if and only if a deprovisioned worker of it finalises |
| `ReleaseProofs.LateFailureReopensRequest` | apps/devices/gateway_release.py:190-235 | The failing input as a run: worker 1 claims and its lease expires, worker 2 claims, clears, deprovisions and finalises, then worker 1 fails; the completed request is open again and the Gateway stays released |
| `ReleaseProofs.FinalizeLeavesOutbox` | apps/devices/gateway_release.py:85-95 | Cancelling for release leaves outbox rows alone: a claim that revalidation lets through opens an attempt afterwards exactly when it would have before |
| `ReleaseProofs.RequestedExactly` | apps/devices/gateway_release.py:37-63 | A release is requested if and only if none is open and the Gateway is not released |
| `ReleaseProofs.ClaimedExactly` | apps/devices/gateway_release.py:190-212 | A worker gets a request if and only if it is open and due, and then holds it for the lease time |
| `ReleaseProofs.FailedExactly` | apps/devices/gateway_release.py:66-82 | A failed request is due again after 2 to the power of its attempts in seconds, between 5 and the maximum, and needs attention from the third attempt on |
| `ReleaseProofs.FinalizedExactly` | apps/devices/gateway_release.py:98-158 | Finalisation cancels every open command and keeps every final one, leaves no command a device and no secret, and completes the request; on a completed one the worker only leaves |
| `ReleaseProofs.CommandStoredExactly` | apps/devices/remote_control.py:354-358 | A command requested while the release is pending or done is stored denied |
| `MapLifecycleProofs.DeployableMeansTested` | apps/devices/datapoint_maps.py:392-406 | Over any sequence of edits, resets, tests, confirmations, rollbacks, clones and connection changes, tests recorded from stale readings included, a non-empty confirmed register map has exactly the protocol, connection and signals of the last accepted live test; that test succeeded and reported every one of these signals exactly once, as usable, and no other; and the deployed map reads back as exactly these signals with their texts cleaned |
| `MapLifecycleProofs.DeployableExactly` | apps/devices/datapoint_maps.py:392-406 | Something is deployed if and only if the map is confirmed, holds signals, and was confirmed under the current protocol, connection and signals |
| `MapLifecycleProofs.TestedAndConfirmedDeploys` | apps/devices/datapoint_maps.py:479-581 | A test that reports every signal once as usable, made with the current settings, and a confirmation by the team make the map deployable |
| `MapLifecycleProofs.RecordedExactly` | apps/devices/datapoint_maps.py:510-534 | A recorded test awaits confirmation if and only if it succeeded, was sent for exactly the settings and signals read, and reported each signal once as usable |
| `MapLifecycleProofs.ConfirmedExactly` | apps/devices/datapoint_maps.py:537-581 | When a confirmation is accepted, repeated or refused, and what it leaves |
| `MapLifecycleProofs.OtherTeamsChangeNothing` | apps/devices/datapoint_maps.py:455-607 | No team changes another team's equipment or clones from it |
| `MapLifecycleProofs.ClonedExactly` | apps/devices/datapoint_maps.py:594-607 | A clone takes the confirmed signals of equipment with the same protocol, as a draft |
| `MapLifecycleProofs.StartedExactly` | apps/devices/deployment_setup.py:735-738 | Starting a test marks a map that holds signals as being tested, which is not deployable |
| `MapLifecycleProofs.ConfirmedHasRevision` | apps/devices/datapoint_maps.py:561-580 | A confirmed map's points and checksum are those of its latest revision, and revisions are numbered 1..n |
| `MapLifecycleProofs.RollbackRestores` | apps/devices/datapoint_maps.py:584-591 | After any run a rollback restores the revision's signals as a draft that is not deployable |
| `MapLifecycleProofs.SignalsKeptExactly` | apps/devices/datapoint_maps.py:479-534 | Apart from edits, exactly a test recorded from a reading older than the last edit changes the signals of a map |
| `MapLifecycleProofs.LateRecordLosesEdits` | apps/devices/datapoint_maps.py:479-534 | Whatever ran between the reading and the save of a recorded test, the save puts the signals back to the ones it read |
| `MapProofs.NormalizeRowsExactly` | apps/devices/datapoint_maps.py:81-194 | Normalising returns a list if and only if every row reads as its signal and the keys are new and distinct |
| `MapRules.WireDefaults` | apps/devices/datapoint_maps.py:102-141 | A row that says nothing else is read with code 3, the register count of its type, read-only, as a value or a status |
| `MapRules.WireExactly` | apps/devices/datapoint_maps.py:105-135 | Given whole numbers, the read code must be 1 to 4 and the count the one of the type |
| `MapRules.ReadCodeExactly` | apps/devices/datapoint_maps.py:306-316 | A register map's read code: its own, else its older one if that is a read code, else 1 for a boolean and 3 |
| `MapRules.OlderCodeName` | apps/devices/datapoint_maps.py:105-106 | The function code is read alike under its older name |
| `MapRules.SignalRefusalTellsWhy` | apps/devices/datapoint_maps.py:81-194 | A refused signal is refused for a reason that holds |
| `MapRules.ListRefusalTellsWhy` | apps/devices/datapoint_maps.py:81-95 | So is a refused list |
| `MapProofs.RegisterMapRoundTripExactly` | apps/devices/datapoint_maps.py:301-371 | Converting a normalised list to a register map and back returns the same list if and only if every text field is canonical, and a second trip changes nothing |
| `CsvImport.CsvRoundTrip` | apps/devices/datapoint_maps.py:197-298 | Printing a normalised list as CSV rows and importing them returns it with its texts cleaned, and the same list if and only if they are canonical, given its numbers read back |
| `CsvImport.CsvImportExactly` | apps/devices/datapoint_maps.py:251-298 | Row-by-row import succeeds if and only if normalising all rows at once does, with the same result |
| `CsvImport.ReportsExactly` | apps/devices/datapoint_maps.py:279-288 | A row is reported under its file row number exactly when it fails by itself or repeats a key taken before |
| `SetupProofs.SyncIdempotent` | apps/devices/deployment_setup.py:793-1083 | With unchanged evidence and clock, folding twice is folding once on run state, step, rows and timeline |
| `SetupProofs.ConfirmedStaysConfirmed` | apps/devices/deployment_setup.py:793-1083 | In every run without such a save by a fold or an equipment page, overlapping folds, page saves and events of other flows included, confirmed equipment stays confirmed |
| `SetupProofs.StepKeepsConfirmedExactly` | apps/devices/deployment_setup.py:885-1018 | Confirmed telemetry is lost, or given another first instant, exactly when a fold saves a row over it from a reading that was still to be judged, silent, or differently dated, or an equipment page saves the row in another state or from a differently dated reading |
| `SetupProofs.TimelineOnlyGrows` | apps/devices/deployment_setup.py:249-269 | In every run, overlapping folds included, the timeline only grows and stays numbered without gaps |
| `SetupProofs.OverdueSaveUnconfirms` | apps/devices/deployment_setup.py:1003-1018 | The failing input: a fold that read a silent row as overdue undoes the confirmation another fold made since |
| `SetupProofs.ValidationUnconfirms` | apps/devices/deployment_setup.py:720-734 | A validation started from a reading before the confirmation puts the confirmed row back to validating without its first telemetry |
| `SetupProofs.RedeployConfirmsFromOldTelemetry` | apps/onboarding/views.py:2080-2099 | Confirmed equipment that is deployed again is confirmed by the next fold with an active configuration, from telemetry sent before |
| `SetupProofs.RowStateExactly` | apps/devices/deployment_setup.py:872-1036 | The state every row has after a fold: a finished validation is judged by its answer and mode, applied or restored equipment by its telemetry, and else by the configuration |
| `SetupProofs.RunStateExactly` | apps/devices/deployment_setup.py:1048-1082 | The state of the run after a fold, from its rows, the configuration and the scan |
| `SetupProofs.RunPageExactly` | apps/devices/deployment_setup.py:837-1082 | And the page it shows |
| `SetupProofs.SyncLogsRows` | apps/devices/deployment_setup.py:885-963 | A judged row is logged as a reached connection, a success or a failure, a confirmed one as its first telemetry |
| `SetupProofs.SyncLogs` | apps/devices/deployment_setup.py:803-1046 | The configuration's status is logged under its own kind, and the preflight's outcome |
| `SetupProofs.SyncLogsScan` | apps/devices/deployment_setup.py:843-870 | The end of the active scan is logged as completed, cancelled or failed |
| `SetupProofs.SyncLogsTimeOut` | apps/devices/deployment_setup.py:1002-1018 | Equipment that times out is logged as such |
| `ControlLimits.CombinationExactly` | apps/devices/control_governance.py:63-83 | Any number of limit sources combined accept a value if and only if every one accepts it on minimum, maximum, allowed set and change; an empty or ill-typed combination counts as refusal |
| `ControlLimits.ValidatedExactly` | apps/devices/control_governance.py:147-207 | When a value is validated; a true or false value never is |
| `ControlLimits.EncodingIsLinear` | apps/devices/control_governance.py:202-204 | The encodings of two validated values differ by scale times the difference of the values |
| `ControlLimits.ZeroEncodesToOffset` | apps/devices/control_governance.py:202-204 | Zero is encoded as the offset |
| `ControlLimits.EncodingReadsBack` | apps/devices/control_governance.py:202-204 | Scale 1 and offset 0 send the value as it is; any other scale than zero can be read back |
| `ControlLimits.NormalizedDenotes` | apps/devices/control_governance.py:147-165 | A validated value denotes the requested number, whole for an integer type |
| `ControlLimits.CombinesExactly` | apps/devices/control_governance.py:63-83 | The limits combine if and only if all are numbers, some number lies within all of them, and some value is allowed by all |
| `ControlLimits.RefusalTellsWhy` | apps/devices/control_governance.py:147-207 | Each refusal of a value names a reason that holds |
| `ControlLimits.CooldownExactly` | apps/devices/control_governance.py:79-82 | The combined cooldown refuses exactly when some source sets one and every source that does would refuse |
| `ControlLimits.ShorterCooldownAdmits` | apps/devices/control_governance.py:183-200 | A source with a shorter cooldown admits what the longer one alone refuses |
| `AlertWindow.FiresExactly` | apps/alerts/services.py:35-83 | With a gap of at least two seconds a rule with a duration fires if and only if the window's samples meet the limit and every instant of the window is covered by a stored sample that meets it |
| `AlertWindow.FiringIsCovered` | apps/alerts/services.py:35-83 | When a rule with a duration fires, every instant from two seconds after the window start to the check has a stored sample, at most the offline gap older, that meets the limit |
| `AlertWindow.StepSpacedExactly` | apps/alerts/services.py:111-147 | A write leaves two unresolved alerts of a rule and device within the cooldown if and only if it is a create beside one added or reopened since its look, or a late acknowledgement that reopens a resolved one beside another |
| `AlertWindow.UnresolvedAlertsSpaced` | apps/alerts/services.py:111-147 | Every run without these two keeps the spacing, however many checks, resolutions and acknowledgements overlap |
| `AlertWindow.SerialAlertsSpaced` | apps/alerts/services.py:111-121 | If checks and acknowledgements run one at a time the spacing holds in every run |
| `AlertWindow.OverlappingChecksClash` | apps/alerts/services.py:111-121 | The failing input: two checks look before either creates and leave two alerts of the same instant |
| `AlertWindow.StaleAcknowledgementClashes` | apps/alerts/views.py:200-213 | An acknowledgement read before its alert was resolved reopens it beside the next one |
| `AlertWindow.LookExactly` | apps/alerts/services.py:111-121 | A look goes on to a create exactly when no unresolved alert lies within the cooldown |
| `AlertWindow.ConditionsAgree` | apps/alerts/services.py:94-108 | The six conditions agree with each other and with the order of numbers |
| `CommandLayoutProofs.NormalFormsAreFixed` | apps/dashboard/command_center.py:91-134 | Normalising returns a layout unchanged if and only if it is in that normal form |
| `CommandLayoutProofs.NormalizeIdempotent` | apps/dashboard/command_center.py:91-134 | Normalising twice is normalising once |
| `CommandLayoutProofs.AcceptedIsComplete` | apps/dashboard/command_center.py:205-260 | An accepted payload holds every panel once and in bounds, and every submitted panel as submitted |
| `CommandLayoutProofs.AcceptedSharesNoCell` | apps/dashboard/command_center.py:244-254 | No grid cell of an accepted payload lies under two visible available panels |
| `CommandLayoutProofs.AcceptedSurvivesNormalizing` | apps/dashboard/command_center.py:91-134 | Normalising an accepted payload later keeps every place, size and visibility; panels are ordered by mobile order, ties by the registry, and renumbered |
| `CommandLayoutProofs.OrderKeptExactly` | apps/dashboard/command_center.py:91-134 | Two panels of an accepted payload keep their order through normalising if and only if their mobile orders differ or they are listed as in the registry |
| `CommandLayoutProofs.TiedPanelsSwap` | apps/dashboard/command_center.py:255-260 | The failing input: a panel left out of the payload ties with a submitted one, and normalising swaps them |
| `CommandLayoutRules.AcceptedIfAndOnlyIf` | apps/dashboard/command_center.py:205-254 | A payload is accepted if and only if it has at most six well-formed entries, none twice, every available panel among them, with different mobile orders and, where visible, no shared grid cell |
| `CommandLayoutRules.RejectionTellsWhy` | apps/dashboard/command_center.py:205-254 | A rejection names what is wrong |
| `CommandLayoutRules.NormalizedPlaces` | apps/dashboard/command_center.py:91-134 | Every panel of a normalised layout is where the last entry stored for it puts it, or at its default place when there is none or it is not usable |
| `CommandLayoutRules.BoundsExactly` | apps/dashboard/command_center.py:12-90 | The grid and the sizes each panel may have |
| `CommandLayoutRules.DefaultsTile` | apps/dashboard/command_center.py:10-82 | The default panels tile the grid: every cell down to row 10 lies under exactly one |
| `CommandStore.CommandRow.ClaimForDispatch` | apps/devices/remote_control.py:741-824 | The whole claim transaction as a function of the old row, and whether the worker goes on to publish |
| `CommandStore.CommandRow.RecordOutcome` | apps/devices/remote_control.py:841-906 | The recording transaction of one attempt as a function of the old row and the broker's answer |
| `CommandStore.CommandRow.TransitionTo` | apps/devices/remote_control.py:200-236 | The idempotent, monotonic transition as a function of the old row, and whether it applied |
| `CommandStore.CommandRow.GrantApproval` | apps/devices/control_readiness.py:222-266 | The granted approval queues the command with a new outbox row; a refused one changes nothing |
| `CommandStore.CommandRow.ResetForRecovery` | apps/devices/control_recovery.py:24-35 | What the disaster reset does to one command, its outbox row and its approval |
| `ControlStore.ControlTables.Activate` | apps/devices/control_readiness.py:151-209 | The activated scope, activation and mode; a second activation in the same epoch changes nothing |
| `ControlStore.ControlTables.DisableNow` | apps/devices/control_readiness.py:275-297 | The new epoch, the locked mode for a whole-team disable, and the suspensions within the boundary |
| `ControlStore.ControlTables.RollBackPolicy` | apps/devices/control_recovery.py:51-68 | The new epoch in monitoring mode with everything of the team suspended |
| `ControlStore.ControlTables.LockAllTeams` | apps/devices/control_recovery.py:36-47 | The loop over all teams: each locked, its epoch raised once |
| `ConfigStore.ConfigTable.QueueRevision` | apps/devices/gateway_config_delivery.py:108-150 | Every open revision is superseded and the next one queued |
| `ConfigStore.ConfigTable.Claim` | apps/devices/gateway_config_delivery.py:169-229 | The claim transaction as a function of the old row, and whether it goes on to publish |
| `ConfigStore.ConfigTable.Record` | apps/devices/gateway_config_delivery.py:235-267 | Both recording transactions |
| `ConfigStore.ConfigTable.AcceptAck` | apps/devices/gateway_config_delivery.py:270-332 | The acknowledgement as a function of the old row; one that names another identity changes nothing |
| `ConfigStore.ConfigTable.RetryRevision` | apps/devices/gateway_config_delivery.py:335-343 | Only settings that need attention are queued again, as a new revision |
| `EscrowStore.ActivationTable.IssueNext` | apps/devices/activation.py:48-81 | Every unresolved generation is displaced and the next one issued |
| `EscrowStore.ActivationTable.ProvisionRow` | apps/devices/activation.py:83-156 | Provisioning, and delivery right after it when the Gateway is reachable |
| `EscrowStore.ActivationTable.DeliverRow` | apps/devices/activation.py:164-214 | Delivery of the current generation, failed or retried |
| `EscrowStore.ActivationTable.AcceptAck` | apps/devices/activation.py:272-311 | The acknowledgement, ignored for a generation that is not the current one |
| `EscrowStore.ActivationTable.SweepExpired` | apps/devices/activation.py:332-361 | The expiry sweep over all rows |
| `ReleaseStore.ReleaseDesk.AskForRelease` | apps/devices/gateway_release.py:37-63 | The quarantine and the request; an open request is returned unchanged |
| `ReleaseStore.ReleaseDesk.ClaimAgain` | apps/devices/services.py:104-201 | The new claim of an existing Gateway: its refusals, the operating lifecycle and the next activation |
| `ReleaseStore.ReleaseDesk.Acknowledge` | apps/devices/gateway_release.py:162-187 | The receipt of the active claim, recorded once |
| `ReleaseStore.ReleaseDesk.Claim` | apps/devices/gateway_release.py:190-212 | The leased claim and whether the worker saw the receipt |
| `ReleaseStore.ReleaseDesk.Retry` | apps/devices/gateway_release.py:66-82 | The failed worker's reschedule with bounded backoff |
| `ReleaseStore.ReleaseDesk.FinalizeRelease` | apps/devices/gateway_release.py:98-158 | Finalisation as a function of the old state, once per completed request |
| `MapStore.MappingRow.Save` | apps/devices/datapoint_maps.py:454-476 | A valid list becomes the draft; an invalid one changes nothing |
| `MapStore.MappingRow.RecordValidation` | apps/devices/datapoint_maps.py:479-534 | Awaiting confirmation only for an accepted test, otherwise needs attention without checksums |
| `MapStore.MappingRow.ConfirmMap` | apps/devices/datapoint_maps.py:537-581 | The confirmation and its two refusals; repeating it is safe |
| `CsvImport.FromCsv` | apps/devices/datapoint_maps.py:251-298 | The import loop with its accumulated errors, size and emptiness checks |
| `SetupStore.SetupRow.SyncRun` | apps/devices/deployment_setup.py:793-1083 | The whole fold as a function of the old run and the evidence |
| `AlertWindow.EvaluateCondition` | apps/alerts/services.py:35-83 | The evaluation with its inserted earlier point |
| `AlertWindow.AlertTable.Check` | apps/alerts/services.py:28-32 | A reading triggers or resolves |
| `CommandLayoutStore.NormalizeLayout` | apps/dashboard/command_center.py:91-134 | The loops that collect, repair, sort and renumber |
| `CommandLayoutStore.ValidatePayload` | apps/dashboard/command_center.py:205-260 | The whole validation with its errors in order |
| `CommandProofs.NewLogSound` | apps/devices/remote_control.py:485-492 | A newly stored command already has a numbered log that replays to its status, whatever the policy decision |
| `CommandProofs.StepKeepsLog` | apps/devices/remote_control.py:627-906 | Each single transaction keeps the log sound |
| `CommandProofs.ReplayLinks` | apps/devices/remote_control.py:143-175 | Read event by event: the first starts from requested, every other starts where the previous one ended |
| `CommandProofs.StepExtends` | apps/devices/remote_control.py:143-175 | The log is append-only: a step leaves it alone or adds exactly one event, and the request's own data never change |
| `CommandProofs.NewFileChains` | apps/devices/remote_control.py:485-492 | The first event of a stored command starts the checksum chain |
| `CommandProofs.FinalStatusChange` | apps/devices/remote_control.py:627-645 | A final status changes only by a refused claim, or by an accepted approval of a command past the queue |
| `CommandProofs.NewFileSound` | apps/devices/remote_control.py:448-503 | A stored command starts with no attempts, and waits only with an outbox row or for approval |
| `CommandProofs.DisciplinedRunSettled` | apps/devices/remote_control.py:742-906 | If workers record only under their own live lease, in every run a row stays unclaimable once an attempt may have reached the broker |
| `CommandProofs.ClosedRowOpensNothing` | apps/devices/remote_control.py:742-824 | No step opens an attempt on an unclaimable row or overwrites how another attempt ended |
| `CommandProofs.ApprovalKeptOverRun` | apps/devices/control_readiness.py:212-218 | Over every run an approval keeps what it is bound to and when it ends, and the request keeps its data |
| `CommandProofs.RetryDelayDoubles` | apps/devices/remote_control.py:648-651 | The retry delay starts at the base and doubles up to the maximum |
| `CommandOutcomes.RankFollowsStages` | apps/devices/remote_control.py:89-117 | The status order: the stages of a command, each with its statuses |
| `CommandOutcomes.RankOfEndings` | apps/devices/remote_control.py:89-128 | Failed endings stand at 100, reconciled ones above; which statuses are final |
| `ControlRuns.CommandRunWithin` | apps/devices/remote_control.py:200-236 | In every run of the Hub each stored command goes through a run of its own, with a reset step only if the Hub was recovered |
| `ControlRuns.CommandsEnterByRequest` | apps/devices/remote_control.py:454-492 | A command enters the Hub only by a request, as the policy decision stores it |
| `ControlRuns.EpochsNeverFall` | apps/devices/control_recovery.py:44-47 | A team's epoch never falls over a run |
| `ControlRuns.BumpExactly` | apps/devices/control_readiness.py:280-283 | Emergency disable, policy rollback and recovery raise the epoch by one; every other transaction leaves it |
| `ControlRuns.OpenNeedsCurrentEpoch` | apps/devices/remote_control.py:528-534 | An attempt of a state-changing command is opened only in controlled mode and under the epoch the command was requested in |
| `ControlRuns.ResetLeavesRetryRows` | apps/devices/control_recovery.py:29-31 | After a disaster reset a row can still be claimed if and only if it was in retry |
| `ControlRuns.ScopeStep` | apps/devices/control_readiness.py:183-194 | Among all transactions only an accepted activation of a key enables its scope, at the current epoch |
| `ControlRuns.EnabledSinceActivation` | apps/devices/control_readiness.py:151-209 | A scope that is enabled was activated earlier in the run and has not changed since |
| `ControlRuns.EveryEpochReached` | apps/devices/remote_control.py:479 | In every run a stored command carries an epoch its team has reached |
| `ConfigProofs.RevisionsKept` | apps/devices/gateway_config_delivery.py:114-141 | Revisions stay exactly 1..n over every run, late records included |
| `ConfigReports.StrangersIgnored` | apps/devices/gateway_config_delivery.py:271-298 | An acknowledgement that names another identity or status changes nothing |
| `ConfigReports.ReplacedStaysReplaced` | apps/devices/gateway_config_delivery.py:285-293 | One for a replaced revision only marks it superseded |
| `ConfigReports.RecordedExactly` | apps/devices/gateway_config_delivery.py:235-267 | A sent publication is published and due again after the backoff, a failed one keeps its status |
| `ConfigReports.BackoffExactly` | apps/devices/gateway_config_delivery.py:239-256 | The backoff doubles with the attempts, between its floor and 256 seconds |
| `ConfigReports.DispatchesCounted` | apps/devices/gateway_config_delivery.py:166-267 | Claims that publish open one dispatch, records and crashes close one |
| `EscrowProofs.OneUnresolved` | apps/devices/activation.py:70-81 | At most one activation is unresolved and it is the newest generation |
| `EscrowProofs.SecretNeverRewritten` | apps/devices/activation.py:48-58 | Over every run a generation's secret is the one it was issued with or gone |
| `EscrowReports.DecryptsExactly` | apps/devices/activation.py:83-156 | A secret is decrypted exactly for the live generation in time |
| `EscrowReports.SweepExactly` | apps/devices/activation.py:332-361 | The sweep expires exactly the unresolved, unacknowledged rows whose time is over, each decision once |
| `EscrowReports.ExpiredExactly` | apps/devices/activation.py:314-329 | Expiring one row keeps an acknowledged one and restores one that carries an acknowledgement |
| `EscrowReports.RepeatedExactly` | apps/devices/activation.py:285-300 | A repeated acknowledgement changes nothing or restores the status |
| `ReleaseProofs.ReceiptBefore` | apps/devices/gateway_release.py:162-187 | A recorded edge reset of a request comes from a receipt earlier in the run that reports the reset as complete, for this open request and the Gateway's claim, seen by a consumer that read the Gateway as pending |
| `ReleaseProofs.PhaseBefore` | apps/devices/gateway_release.py:190-235 | A worker is in a phase of a request only by the step that leads there from the phase before, and has stayed in it since |
| `ReleaseProofs.StepGivesReceipt` | apps/devices/gateway_release.py:162-187 | A transaction records the receipt of a request if and only if it is that exact receipt; the request is then due at once |
| `ReleaseProofs.WrittenBackExactly` | apps/devices/config_generator.py:290-291 | A flow without the lock writes back exactly the lifecycle it read, once |
| `MapLifecycleProofs.PassReportsEachKeyOnce` | apps/devices/datapoint_maps.py:510-517 | A passing test reports every mapped key exactly once as usable and non-blocking, and no other key |
| `MapLifecycleProofs.SavedExactly` | apps/devices/datapoint_maps.py:455-476 | Saving stores the normalised list as a draft that is not deployable, or changes nothing |
| `MapLifecycleProofs.ResetExactly` | apps/devices/datapoint_maps.py:433-451 | A template reset stores the template's signals as a draft |
| `MapLifecycleProofs.FixedTemplateDeploys` | apps/devices/datapoint_maps.py:393-397 | Equipment with a fixed template is deployed with the template's registers |
| `MapLifecycleProofs.NormalizeAgain` | apps/devices/datapoint_maps.py:584-591 | Normalising a normalised list again returns it, exactly when its texts are canonical |
| `MapProofs.NormalizedIsNormal` | apps/devices/datapoint_maps.py:81-194 | Every normalised list has 1 to 20 signals with distinct clean keys, and each is in range with the register count of its type, a non-zero multiplier, ordered limits and bounded texts |
| `MapProofs.RetextExactly` | apps/devices/datapoint_maps.py:171-193 | A round trip leaves a signal alone exactly when its texts are canonical, and makes it so |
| `MapProofs.RegisterReads` | apps/devices/datapoint_maps.py:301-371 | The register-map entry of a normalised signal is read back as that signal |
| `MapProofs.CsvReads` | apps/devices/datapoint_maps.py:197-278 | The CSV row of a normalised signal is read back as that signal if its numbers read back |
| `MapRules.TypeDefaults` | apps/devices/datapoint_maps.py:102 | A row without a data type is uint16 |
| `MapRules.WriteDefaults` | apps/devices/datapoint_maps.py:126-136 | A writable signal without a code is written with 5, 6 or 16 by its type |
| `MapRules.WriteCodesExactly` | apps/devices/datapoint_maps.py:126-136 | A given write code must be 5, 6, 15 or 16 |
| `MapRules.ScalingDefaults` | apps/devices/datapoint_maps.py:142-158 | Without numbers a signal is unscaled and has no invalid values |
| `MapRules.LimitsDefaults` | apps/devices/datapoint_maps.py:162-169 | Without bounds it has no limits |
| `MapRules.TextDefaults` | apps/devices/datapoint_maps.py:171-193 | Without texts it has its key as title, no unit, no alert and no energy direction |
| `MapRules.FalsyExactly` | apps/devices/datapoint_maps.py:69-78 | Which raw values count as not given |
| `MapRules.NumbersReadExactly` | apps/devices/datapoint_maps.py:59-78 | How numbers, and true and false, are read as whole and real numbers |
| `MapRules.OlderWriteCodeExactly` | apps/devices/datapoint_maps.py:314-316 | A register map's write code: its own, else its older one if that is a write code |
| `MapRules.OlderCountName` | apps/devices/datapoint_maps.py:114 | The register count is read alike under its older name |
| `MapRules.OlderScaleName` | apps/devices/datapoint_maps.py:142 | So is the scale |
| `MapRules.OlderCodesName` | apps/devices/datapoint_maps.py:146 | So are the invalid values |
| `MapRules.OlderLimitNames` | apps/devices/datapoint_maps.py:162-169 | So are the safety limits |
| `MapRules.WritableMeansReadWrite` | apps/devices/datapoint_maps.py:123 | A signal marked writable is read-write unless it says otherwise |
| `MapRules.WireRefusalTellsWhy` | apps/devices/datapoint_maps.py:102-141 | Why the wire part of a signal is refused |
| `MapRules.ScalingRefusalTellsWhy` | apps/devices/datapoint_maps.py:142-158 | Why its scaling is |
| `MapRules.LimitsExactly` | apps/devices/datapoint_maps.py:162-169 | Limits are accepted if and only if each is a number or missing and no minimum lies above its maximum |
| `MapProofs.RegisterMapRoundTrip` | apps/devices/datapoint_maps.py:301-371 | Converting any normalised list to a register map and back returns it with its texts cleaned |
| `TextRules.CleanKeyStable` | apps/devices/datapoint_maps.py:93-95 | Cleaning a valid cleaned key again does not change it |
| `TextRules.CleanKeyShape` | apps/devices/datapoint_maps.py:93 | A cleaned key has only key characters and no underscore at either end |
| `TextRules.ValidKeyExactly` | apps/devices/datapoint_maps.py:18 | A valid key is a small letter followed by up to 99 small letters, digits and underscores |
| `TextRules.TitledExactly` | apps/devices/datapoint_maps.py:171-176 | A key as a title: underscores become blanks, the first letter of each word is raised, the others lowered |
| `TextRules.JoinSplits` | apps/devices/datapoint_maps.py:147-148 | Joining codes with commas, then splitting, stripping and dropping blanks returns the codes |
| `TextRules.CasesExactly` | apps/devices/datapoint_maps.py:93-174 | The two cases of each letter |
| `TextRules.LettersExactly` | apps/devices/datapoint_maps.py:93-174 | There are no other letters, and every other character has only itself |
| `TextRules.SpaceExactly` | apps/devices/datapoint_maps.py:93 | The blanks that strip removes |
| `TextRules.CutExactly` | apps/devices/datapoint_maps.py:174 | A text is cut to its first characters only if it is longer |
| `SetupProofs.SyncKeepsConfirmed` | apps/devices/deployment_setup.py:872-1046 | A whole fold never takes equipment out of confirmed telemetry; the timeline only grows and stays numbered without gaps |
| `SetupProofs.AttentionStays` | apps/devices/deployment_setup.py:793-1083 | Equipment that needs attention is never confirmed by a later fold |
| `SetupProofs.SavedAtOnce` | apps/devices/deployment_setup.py:885-1018 | Read and saved with nothing in between, a row is what the loops of a whole fold make of it |
| `ControlLimits.MoreSourcesNeverAdmit` | apps/devices/control_governance.py:63-83 | Adding sources never admits a new value |
| `ControlLimits.TokenExactly` | apps/devices/control_governance.py:66-75 | True and false are the same allowed values as 1 and 0 |
| `ControlLimits.LimitRefusalTellsWhy` | apps/devices/control_governance.py:167-182 | A refusal by the limits names a bound that some source sets and the value breaks |
| `AlertWindow.ReadingDecides` | apps/alerts/services.py:28-32 | A firing reading leaves a recent unresolved alert, any other leaves none |
| `AlertWindow.FiredIsLookThenCreate` | apps/alerts/services.py:111-121 | A whole check is its look directly followed by its create |
| `AlertWindow.SampleMeetsExactly` | apps/alerts/services.py:86-91 | A sample counts by its number, or by 1 or 0 for a true or false one |
| `AlertWindow.InstantRuleFires` | apps/alerts/services.py:35-40 | A rule without a duration fires at once |
| `AlertWindow.AnsweredExactly` | apps/alerts/views.py:206-211 | A resolution resolves its row; an acknowledgement takes one that was read as active |
| `CommandLayoutProofs.NormalizeIsNormal` | apps/dashboard/command_center.py:91-134 | Every normalised layout has each panel once, within bounds, with mobile orders 0..n-1 |
| `CommandLayoutProofs.OverlapMeansSharedCell` | apps/dashboard/command_center.py:247-252 | The rectangle test says exactly whether two panels share a grid cell |
| `CommandLayoutProofs.SortStable` | apps/dashboard/command_center.py:131 | Sorting keeps panels of the same mobile order as they were listed |
| `CsvImport.NormalizeDatapoints` | apps/devices/datapoint_maps.py:81-194 | The normalising loop with its set of seen keys |
| `CsvImport.DatapointsToRegisterMap` | apps/devices/datapoint_maps.py:343-371 | The loop that fills the register map in order |
| `AlertWindow.AllHold` | apps/alerts/services.py:78-83 | The final check over all points and gaps |
| `AlertWindow.AlertTable.Trigger` | apps/alerts/services.py:111-121 | One alert is added unless an unresolved one lies within the cooldown |
| `AlertWindow.AlertTable.ResolveOpen` | apps/alerts/services.py:135-141 | Every unresolved alert is resolved |
| `CommandStore.OutboxRow.constructor` | apps/devices/remote_control.py:501 | A fresh outbox row is pending, due at once, with no attempts |
| `CommandStore.OutboxRow.IsClaimable` | apps/devices/remote_control.py:745-750 | True exactly for a due row that is pending, in retry, or claimed under an expired lease |
| `CommandStore.OutboxRow.ExhaustLeases` | apps/devices/remote_control.py:755-758 | The dead-lettered row, keeping an earlier error text |
| `CommandStore.OutboxRow.Publish` | apps/devices/remote_control.py:884-886 | The acknowledged row; nothing else of it changes |
| `CommandStore.OutboxRow.PublishInDoubt` | apps/devices/remote_control.py:851-853 | The row of an unknown outcome is published, not retried |
| `CommandStore.OutboxRow.Reschedule` | apps/devices/remote_control.py:665-705 | The row scheduled for retry, without claim and lease |
| `CommandStore.OutboxRow.Bury` | apps/devices/remote_control.py:665-671 | The row whose last attempt failed |
| `CommandStore.OutboxRow.Lease` | apps/devices/remote_control.py:803-806 | The claimed row: lease end and one more attempt |
| `CommandStore.OutboxRow.Cancel` | apps/devices/remote_control.py:630-632 | The row of a refused claim |
| `CommandStore.CommandRow.AppendEvent` | apps/devices/remote_control.py:143-175 | Appends the next numbered event, chained to the previous checksum |
| `CommandStore.CommandRow.CancelClaim` | apps/devices/remote_control.py:627-645 | A refused claim: expired or cancelled, whatever the status was |
| `CommandStore.CommandRow.ExhaustClaim` | apps/devices/remote_control.py:753-789 | A claim that finds the attempts used up |
| `CommandStore.CommandRow.OpenAttempt` | apps/devices/remote_control.py:803-824 | A claim that leases the row and opens the next attempt |
| `CommandStore.CommandRow.RecordAck` | apps/devices/remote_control.py:881-905 | The acknowledged recording transaction |
| `CommandStore.CommandRow.RecordDoubt` | apps/devices/remote_control.py:842-876 | The unknown-outcome recording transaction |
| `CommandStore.CommandRow.RecordPreAckFailure` | apps/devices/remote_control.py:654-731 | The failure transaction: retry with bounded backoff, or dead letter |
| `EscrowStore.ActivationTable.ExpireRow` | apps/devices/activation.py:314-329 | Expiry of one row; an acknowledged one is kept |
| `ReleaseStore.ReleaseDesk.CancelOpenCommands` | apps/devices/gateway_release.py:85-95 | The loop over open commands cancels exactly those |
| `ReleaseStore.ReleaseDesk.ForgetDevices` | apps/devices/gateway_release.py:126 | Deleting the devices leaves every command without one |
| `ReleaseStore.ReleaseDesk.BlankSecrets` | apps/devices/gateway_release.py:107-111 | Every activation loses its secret and is superseded unless acknowledged |
| `MapStore.MappingRow.constructor` | apps/devices/datapoint_maps.py:420-429 | A new map is a draft of the starter signals |
| `MapStore.MappingRow.Redraft` | apps/devices/datapoint_maps.py:432-451 | The points change and every trace of a test goes; revisions stay |
| `MapStore.MappingRow.Successful` | apps/devices/datapoint_maps.py:510-517 | The loop decides exactly the source's test of the reported signals |
| `MapStore.MappingRow.AddRevision` | apps/devices/datapoint_maps.py:561-580 | The next revision, unless the latest one is the same |
| `SetupStore.SetupRow.AppendEvent` | apps/devices/deployment_setup.py:249-269 | The next numbered setup event |
| `SetupStore.SetupRow.Preflight` | apps/devices/deployment_setup.py:796-822 | The preflight evidence, logged once |
| `SetupStore.SetupRow.Discovery` | apps/devices/deployment_setup.py:824-870 | A finished report of the active scan ends discovery |
| `SetupStore.SetupRow.Restore` | apps/devices/deployment_setup.py:872-883 | An active configuration restores queued, failed and rolled-back equipment |
| `SetupStore.SetupRow.FoldRow` | apps/devices/deployment_setup.py:885-963 | One row: a finished validation or first telemetry |
| `SetupStore.SetupRow.FoldRows` | apps/devices/deployment_setup.py:885-963 | The loop over all rows |
| `SetupStore.SetupRow.TimeOutRows` | apps/devices/deployment_setup.py:1002-1018 | The loop over silent equipment after the deadline |
| `SetupStore.SetupRow.Configuration` | apps/devices/deployment_setup.py:965-1046 | What the configuration's status does to the run and its rows |
| `SetupStore.SetupRow.Finish` | apps/devices/deployment_setup.py:1048-1082 | Completion, completion with attention, or failure |
| `CommandLayoutStore.Collect` | apps/dashboard/command_center.py:212-236 | The loop that checks and collects the submitted panels |
| `CommandLayoutStore.FindOverlap` | apps/dashboard/command_center.py:244-254 | The pairwise loop finds an overlap of visible available panels exactly when there is one |

## Left out

- Django plumbing: ORM queries, admin, forms, views, URLs, templates, Celery wiring and settings. Row locks are the atomicity of a step; uniqueness constraints are guards of the step that would violate them.
- MQTT, Redis, HTTP, e-mail, WhatsApp and model calls, Ed25519, Fernet: a publication only has an outcome. Signatures, key identifiers, envelopes, message texts and operator copy are not part of the rows.
- Register resolution (`resolve_device_params`), role lookup, choosing the latest governance rows and the readiness assessment: their verdict is an argument of the request or activation. `ControlLimits` models the limits behind that verdict on its own.
- `create_gateway_policy_bundle`, `open_commissioning_session`, `complete_commissioning_session`: they only produce rows that a later step reads.
- A command's events and attempts are sequences of values inside the command's row object; the per-device command sequence number is a counter of the Hub, kept when devices are removed.
- `gateway_identity_changed`: dispatch always locks the command's own Gateway and team, so this refusal cannot occur.
- The order in which `dispatch_due_outboxes`, `dispatch_due_gateway_config_outboxes` and `dispatch_due_gateway_releases` pick due rows: a run may claim them in any order.
- Skipping locked rows: a worker that finds the row locked does nothing, which is a run without its step.
- The retry half of `expire_and_retry_gateway_activations`, `retry_activation_for_gateway` and `reissue_activation_for_gateway`: they call the modelled delivery and issue steps.
- `validate_gateway_config_payload` and `ensure_gateway_configurable`: a queued payload is one that passed them.
- What else `_finalize_release` clears (inventory, logs, settings rows, certificates, tokens): only commands, the devices of commands and activation secrets are followed.
- CSV text: quoting, headers, extra cells and read errors. CSV is modelled as rows of named cells.
- Printing and parsing numbers, and Unicode: a signal's own numbers are assumed to read back, and strip, lower and title case act on ASCII. Values whose conversion raises something other than a validation error (an infinite integer, an unhashable code) count as a validation error.
- Equipment pages (choosing a template, starting or confirming a validation, deploying, removing equipment): what they save over a row is followed, not when they may be used; rows they add or delete are not.
- The rest of a claim for a team (plan limits, site, name, a serial that is not yet registered): only a claim of the existing Gateway is followed.
- Limits and control values are real numbers: rounding to binary floating point beyond about 15 significant digits, infinities and NaN are not modelled.
- `guided_setup_validation` metadata, who tested or confirmed and when, and per-signal health texts of a datapoint map.
- `get_or_create_setup_run`, `create_or_update_candidate_item`, progress views, redaction and support bundles of the setup run, and its dashboards: only what the fold reads and writes is modelled. The rows' validation results are kept as far as the fold branches on them.
- `device_freshness_thresholds`: the offline gap is an argument.
- Personal and team layouts and their revisions: only the layout value is modelled.
- Legacy device commands, content blocks, template ranking and sharing, team maps, solution profiles, dashboards and the simulators: no comparable guarantee in the code.
