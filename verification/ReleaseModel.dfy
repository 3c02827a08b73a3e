/** Fail-closed release of one Gateway (apps/devices/gateway_release.py): the quarantine,
    the reset receipt, the leased revocation workers, and finalisation over the Gateway's
    commands and activation secrets; and what else writes the Gateway's lifecycle: a new claim
    by its own team (apps/devices/services.py) and the flows that read it without a lock. */
module ReleaseModel {

  import opened Common
  import Command = CommandModel
  import EscrowModel

  datatype Lifecycle = Operating | ReleasePending | Released

  predicate Quarantined(l: Lifecycle) {
    l.ReleasePending? || l.Released?
  }

  datatype ReleaseStatus = ReleaseQueued | Revoking | ReleaseRetry | NeedsAttention | ReleaseCompleted

  datatype Release = Release(
    request: nat, status: ReleaseStatus, attemptCount: nat, nextAttemptAt: nat, leaseExpiresAt: Option<nat>,
    edgeResetAt: Option<nat>)

  /** Where a worker is between its claim and its last transaction. sawReset is the receipt as
      the worker read it when it claimed. */
  datatype Phase = Claimed(sawReset: bool) | PolicyCleared | Deprovisioned

  datatype Worker = Worker(release: nat, phase: Phase)

  datatype Timing = Timing(lease: nat, retryMax: nat, verified: bool)

  /** readers holds the lifecycle that a flow without the row lock has read: the consumer of
      Gateway messages, a discovery report, the settings push, the edit form. */
  datatype Gateway = Gateway(
    team: nat, lifecycle: Lifecycle, claimId: string, releases: seq<Release>, workers: map<nat, Worker>,
    readers: map<nat, Lifecycle>, commands: map<Command.CommandId, Command.CommandFile>, escrow: EscrowModel.Escrow)

  // ------------------------------------------------------------- transactions

  predicate SomeOpen(releases: seq<Release>) {
    exists i :: 0 <= i < |releases| && !releases[i].status.ReleaseCompleted?
  }

  /** request_gateway_release: an open request is returned as it is. */
  function RequestRelease(g: Gateway, request: nat, now: nat): Gateway {
    if SomeOpen(g.releases) then g
    else if g.lifecycle.Released? then g
    else g.(lifecycle := ReleasePending, releases := g.releases + [Release(request, ReleaseQueued, 0, now, None, None)])
  }

  /** claim_gateway_for_team with this Gateway's sticker. valid stands for the sticker code, a
      known serial and an inventory row that is not retired or another team's. */
  datatype Claim = Claim(team: nat, valid: bool, request: nat, password: string, ttl: nat)

  /** A released Gateway is not found any more: the claim then creates another one. */
  predicate ClaimAdmitted(g: Gateway, c: Claim) {
    c.valid && c.team == g.team && !g.lifecycle.Released?
  }

  function Reclaim(g: Gateway, c: Claim, now: nat): Gateway {
    if !ClaimAdmitted(g, c) then g
    else
      var issued := EscrowModel.Issue(g.escrow.activations, c.request, c.password, c.ttl, now);
      g.(lifecycle := Operating, escrow := g.escrow.(activations := issued))
  }

  datatype Receipt = Receipt(resetComplete: bool, request: nat, claimId: string)

  /** The exact reset receipt of the active claim for release i. The release row is locked; the
      Gateway is the one consumer u has read before. */
  predicate ReceiptAccepted(g: Gateway, u: nat, i: nat, r: Receipt) {
    && r.resetComplete
    && i < |g.releases| && g.releases[i].request == r.request && !g.releases[i].status.ReleaseCompleted?
    && u in g.readers && g.readers[u].ReleasePending?
    && r.claimId == g.claimId
  }

  function AcceptReceipt(g: Gateway, u: nat, i: nat, r: Receipt, now: nat): Gateway {
    if !ReceiptAccepted(g, u, i, r) || g.releases[i].edgeResetAt.Some? then g
    else g.(releases := g.releases[i := g.releases[i].(edgeResetAt := Some(now), status := ReleaseRetry,
                                                      nextAttemptAt := now, leaseExpiresAt := None)])
  }

  predicate ReleaseClaimable(r: Release, now: nat) {
    && (|| r.status.ReleaseQueued? || r.status.ReleaseRetry? || r.status.NeedsAttention?
        || (r.status.Revoking? && r.leaseExpiresAt.Some? && r.leaseExpiresAt.value <= now))
    && r.nextAttemptAt <= now
  }

  /** The claim transaction of dispatch_gateway_release by worker w on release i. */
  function ClaimRelease(t: Timing, g: Gateway, w: nat, i: nat, now: nat): Gateway {
    if i >= |g.releases| || !ReleaseClaimable(g.releases[i], now) || w in g.workers then g
    else
      var r := g.releases[i];
      g.(releases := g.releases[i := r.(status := Revoking, leaseExpiresAt := Some(now + t.lease),
                                        attemptCount := r.attemptCount + 1)],
         workers := g.workers[w := Worker(i, Claimed(r.edgeResetAt.Some?))])
  }

  /** The retained policy is cleared, only by a worker that saw the receipt and only when
      verified credential revocation is configured. */
  function ClearPolicy(t: Timing, g: Gateway, w: nat): Gateway {
    if w in g.workers && g.workers[w].phase == Claimed(true) && t.verified
    then g.(workers := g.workers[w := g.workers[w].(phase := PolicyCleared)]) else g
  }

  function Deprovision(g: Gateway, w: nat): Gateway {
    if w in g.workers && g.workers[w].phase.PolicyCleared?
    then g.(workers := g.workers[w := g.workers[w].(phase := Deprovisioned)]) else g
  }

  function RetryDelay(t: Timing, attempts: nat): nat {
    Min(t.retryMax, Max(5, Pow2(Min(attempts, 8))))
  }

  /** _retry_release by a worker that waits for the receipt or met a failure. It does not
      look at the status it overwrites. */
  function RetryRelease(t: Timing, g: Gateway, w: nat, now: nat): Gateway {
    if w !in g.workers || g.workers[w].release >= |g.releases| then g
    else
      var i := g.workers[w].release;
      var r := g.releases[i];
      g.(workers := g.workers - {w},
         releases := g.releases[i := r.(status := if r.attemptCount >= 3 then NeedsAttention else ReleaseRetry,
                                        nextAttemptAt := now + RetryDelay(t, r.attemptCount),
                                        leaseExpiresAt := None)])
  }

  function CancelForRelease(cfg: Command.Settings, f: Command.CommandFile): Command.CommandFile {
    if Command.Terminal(f.status) then f
    else Command.Transition(cfg, f, Command.Cancelled, Command.Lifecycle("gateway_release_cancelled"),
                            Command.Report("Gateway release requested"),
                            Command.Failure(Command.GatewayReleased, "The Gateway was released."))
  }

  /** What finalisation does to one command: cancelled if still open, its device deleted. */
  function CloseCommand(cfg: Command.Settings, f: Command.CommandFile): Command.CommandFile {
    CancelForRelease(cfg, f).(device := None)
  }

  /** _finalize_release, reached only after clearing and deprovisioning succeeded. It does not
      look at the lifecycle it overwrites. */
  function Finalize(cfg: Command.Settings, g: Gateway, w: nat): Gateway {
    if w !in g.workers || !g.workers[w].phase.Deprovisioned? || g.workers[w].release >= |g.releases| then g
    else
      var i := g.workers[w].release;
      var r := g.releases[i];
      if r.status.ReleaseCompleted? then g.(workers := g.workers - {w})
      else
        g.(lifecycle := Released,
           workers := g.workers - {w},
           commands := map id | id in g.commands :: CloseCommand(cfg, g.commands[id]),
           escrow := g.escrow.(activations := EscrowModel.RevokeAll(g.escrow.activations)),
           releases := g.releases[i := r.(status := ReleaseCompleted, leaseExpiresAt := None)])
  }

  /** A flow without the row lock writes the lifecycle it derived from its earlier read: an
      operating one if it read that, else the very value it read. */
  function WriteBack(g: Gateway, u: nat): Gateway {
    if u in g.readers then g.(lifecycle := g.readers[u], readers := g.readers - {u}) else g
  }

  // ---------------------------------------------------------- every transaction

  /** denial is what the request's other checks decide when the Gateway is not quarantined. */
  datatype NewCommand = NewCommand(
    intent: Command.Intent, device: Option<Command.DeviceId>, denial: Option<Command.Denial>,
    approvalRequired: bool, currentValue: Option<string>)

  datatype ReleaseStep =
    | AskRelease(request: nat, askedAt: nat)
    | ClaimForTeam(claim: Claim, claimedForAt: nat)
    | ReadLifecycle(reader: nat)
    | WriteLifecycle(reader: nat)
    | ReceiveReceipt(reader: nat, release: nat, receipt: Receipt, receivedAt: nat)
    | WorkerClaims(worker: nat, release: nat, claimedAt: nat)
    | WorkerClears(worker: nat)
    | WorkerDeprovisions(worker: nat)
    | WorkerRetries(worker: nat, retriedAt: nat)
    | WorkerFinalizes(worker: nat)
    | StoreCommand(id: Command.CommandId, command: NewCommand, storedAt: nat)
    | OnCommand(id: Command.CommandId, step: Command.FileStep)
    | OnEscrow(escrowStep: EscrowModel.EscrowStep)

  /** The release request quarantines new commands before any other check. */
  function DenialFor(cfg: Command.Settings, g: Gateway, c: NewCommand): Option<Command.Denial> {
    if Quarantined(g.lifecycle)
    then Some(Command.Denial(Command.GatewayQuarantined, cfg.explain(Command.GatewayQuarantined)))
    else c.denial
  }

  function Step(cfg: Command.Settings, t: Timing, g: Gateway, s: ReleaseStep): Gateway {
    match s
    case AskRelease(request, now) => RequestRelease(g, request, now)
    case ClaimForTeam(c, now) => Reclaim(g, c, now)
    case ReadLifecycle(u) => g.(readers := g.readers[u := g.lifecycle])
    case WriteLifecycle(u) => WriteBack(g, u)
    case ReceiveReceipt(u, i, r, now) => AcceptReceipt(g, u, i, r, now)
    case WorkerClaims(w, i, now) => ClaimRelease(t, g, w, i, now)
    case WorkerClears(w) => ClearPolicy(t, g, w)
    case WorkerDeprovisions(w) => Deprovision(g, w)
    case WorkerRetries(w, now) => RetryRelease(t, g, w, now)
    case WorkerFinalizes(w) => Finalize(cfg, g, w)
    case StoreCommand(id, c, now) =>
      if id in g.commands || (c.approvalRequired && c.device.None?) then g
      else g.(commands := g.commands[id := Command.NewFile(cfg, c.intent, c.device, DenialFor(cfg, g, c),
                                                           c.approvalRequired, c.currentValue, now)])
    case OnCommand(id, step) =>
      if id !in g.commands then g
      else g.(commands := g.commands[id := Command.Apply(cfg, g.commands[id], step)])
    case OnEscrow(step) =>
      if step.RevokeActivations? || (step.IssueActivation? && Quarantined(g.lifecycle)) then g
      else g.(escrow := EscrowModel.Step(g.escrow, step))
  }

  function Run(cfg: Command.Settings, t: Timing, g: Gateway, steps: seq<ReleaseStep>): Gateway {
    if steps == [] then g else Step(cfg, t, Run(cfg, t, g, Front(steps)), Last(steps))
  }
}
