/** Ordering and finality of a Gateway's release over every run, with late and crashed
    workers. */
module ReleaseProofs {

  import opened Common
  import Command = CommandModel
  import CommandProofs
  import EscrowModel
  import EscrowProofs
  import opened ReleaseModel

  // --------------------------------------------------------------- quarantine

  /** A new claim by the Gateway's own team while its release is pending. */
  predicate ReclaimsPending(g: Gateway, s: ReleaseStep) {
    s.ClaimForTeam? && ClaimAdmitted(g, s.claim) && g.lifecycle.ReleasePending?
  }

  /** A flow that read an operating Gateway writes its lifecycle after the release was requested. */
  predicate OverwritesQuarantine(g: Gateway, s: ReleaseStep) {
    s.WriteLifecycle? && s.reader in g.readers && !Quarantined(g.readers[s.reader])
  }

  /** A step leaves the quarantine if and only if it is such a claim or such a late write. */
  lemma StepLeavesQuarantineExactly(cfg: Command.Settings, t: Timing, g: Gateway, s: ReleaseStep)
    requires Quarantined(g.lifecycle)
    ensures !Quarantined(Step(cfg, t, g, s).lifecycle) <==> ReclaimsPending(g, s) || OverwritesQuarantine(g, s)
  {
    hide Command.Apply, Command.NewFile, CloseCommand, EscrowModel.Step, EscrowModel.Issue;
  }

  /** Runs without them keep the quarantine, whatever the workers, the Gateway and its commands do. */
  lemma {:induction false} QuarantineKept(cfg: Command.Settings, t: Timing, g: Gateway, steps: seq<ReleaseStep>)
    requires Quarantined(g.lifecycle)
    requires forall k :: 0 <= k < |steps| ==>
               !ReclaimsPending(At(cfg, t, g, steps, k), steps[k])
               && !OverwritesQuarantine(At(cfg, t, g, steps, k), steps[k])
    ensures Quarantined(Run(cfg, t, g, steps).lifecycle)
  {
    hide Step;
    if steps != [] {
      var front := Front(steps);
      assert steps[..|front|] == front;
      forall k | 0 <= k < |front| ensures At(cfg, t, g, front, k) == At(cfg, t, g, steps, k) {
        assert front[..k] == steps[..k];
      }
      QuarantineKept(cfg, t, g, front);
      StepLeavesQuarantineExactly(cfg, t, Run(cfg, t, g, front), Last(steps));
    }
  }

  /** A flow that read the Gateway before its finalisation writes the lifecycle after it. */
  predicate OverwritesRelease(g: Gateway, s: ReleaseStep) {
    s.WriteLifecycle? && s.reader in g.readers && g.lifecycle.Released? && !g.readers[s.reader].Released?
  }

  /** Released is left by nothing else: no claim, no request, no worker. */
  lemma StepLeavesReleasedExactly(cfg: Command.Settings, t: Timing, g: Gateway, s: ReleaseStep)
    requires g.lifecycle.Released?
    ensures !Step(cfg, t, g, s).lifecycle.Released? <==> OverwritesRelease(g, s)
  {
    hide Command.Apply, Command.NewFile, CloseCommand, EscrowModel.Step;
  }

  /** No step of the run writes a lifecycle read before finalisation after it. */
  ghost predicate NoLateWrite(cfg: Command.Settings, t: Timing, g: Gateway, steps: seq<ReleaseStep>) {
    forall k :: 0 <= k < |steps| ==> !OverwritesRelease(At(cfg, t, g, steps, k), steps[k])
  }

  lemma NoLateWriteFront(cfg: Command.Settings, t: Timing, g: Gateway, steps: seq<ReleaseStep>)
    requires steps != [] && NoLateWrite(cfg, t, g, steps)
    ensures NoLateWrite(cfg, t, g, Front(steps)) && !OverwritesRelease(Run(cfg, t, g, Front(steps)), Last(steps))
  {
    hide Run, OverwritesRelease;
    var front := Front(steps);
    assert steps[..|front|] == front;
    forall k | 0 <= k < |front| ensures At(cfg, t, g, front, k) == At(cfg, t, g, steps, k) {
      assert front[..k] == steps[..k];
    }
  }

  /** Released is final in every run without such a write, new claims included. */
  lemma {:induction false} ReleasedIsFinal(cfg: Command.Settings, t: Timing, g: Gateway, steps: seq<ReleaseStep>)
    requires g.lifecycle.Released? && NoLateWrite(cfg, t, g, steps)
    ensures Run(cfg, t, g, steps).lifecycle.Released?
  {
    hide Step, NoLateWrite, OverwritesRelease;
    if steps != [] {
      NoLateWriteFront(cfg, t, g, steps);
      ReleasedIsFinal(cfg, t, g, Front(steps));
      StepLeavesReleasedExactly(cfg, t, Run(cfg, t, g, Front(steps)), Last(steps));
    }
  }

  /** The quarantine is not fail-closed: with the sticker code its own team takes a Gateway out of
      it. The claim issues a new secret, and asking for the release again restores nothing,
      because the open request is returned unchanged. */
  lemma ReclaimLeavesQuarantine(cfg: Command.Settings, t: Timing, g: Gateway, c: Claim, request: nat, again: nat, now: nat)
    requires g.lifecycle.Operating? && !SomeOpen(g.releases) && c.valid && c.team == g.team
    ensures
      var pending := Step(cfg, t, g, AskRelease(request, now));
      var reclaimed := Step(cfg, t, pending, ClaimForTeam(c, now));
      && pending.lifecycle.ReleasePending? && reclaimed.lifecycle.Operating?
      && |reclaimed.escrow.activations| == |g.escrow.activations| + 1
      && Last(reclaimed.escrow.activations).escrow == Some(c.password)
      && Step(cfg, t, reclaimed, AskRelease(again, now)) == reclaimed
  {
    EscrowProofs.DisplaceAllAt(g.escrow.activations);
    var pending := RequestRelease(g, request, now);
    assert !pending.releases[|g.releases|].status.ReleaseCompleted?;
  }

  /** And a worker past the receipt finalises the Gateway although its team has claimed it anew. */
  lemma ReclaimStopsNoWorker(cfg: Command.Settings, t: Timing, g: Gateway, c: Claim, w: nat, now: nat)
    requires ClaimAdmitted(g, c) && w in g.workers && g.workers[w].phase.Deprovisioned?
    requires g.workers[w].release < |g.releases| && !g.releases[g.workers[w].release].status.ReleaseCompleted?
    ensures var reclaimed := Step(cfg, t, g, ClaimForTeam(c, now));
            var finalised := Step(cfg, t, reclaimed, WorkerFinalizes(w));
            && reclaimed.lifecycle.Operating? && finalised.lifecycle.Released?
            && Last(finalised.escrow.activations).escrow.None?
  {
    hide CloseCommand;
    var reclaimed := Reclaim(g, c, now);
    EscrowProofs.RevokeAllAt(reclaimed.escrow.activations);
  }

  // ----------------------------------------------------------- order of events

  /** Position k of the run is a transaction in which this holds of the state before it. */
  function At(cfg: Command.Settings, t: Timing, g: Gateway, steps: seq<ReleaseStep>, k: nat): Gateway
    requires k <= |steps|
  {
    Run(cfg, t, g, steps[..k])
  }

  lemma AtNext(cfg: Command.Settings, t: Timing, g: Gateway, steps: seq<ReleaseStep>, k: nat)
    requires k < |steps|
    ensures At(cfg, t, g, steps, k + 1) == Step(cfg, t, At(cfg, t, g, steps, k), steps[k])
  {
    assert Front(steps[..k + 1]) == steps[..k];
  }

  predicate HasReceipt(g: Gateway, i: nat) {
    i < |g.releases| && g.releases[i].edgeResetAt.Some?
  }

  /** The Gateway reports its reset as complete, for exactly this open request and the claim it was
      made under, and the consumer has read the Gateway as pending. */
  predicate ExactReceipt(g: Gateway, s: ReleaseStep, i: nat) {
    && s.ReceiveReceipt? && s.release == i && i < |g.releases|
    && s.receipt.resetComplete && s.receipt.request == g.releases[i].request && s.receipt.claimId == g.claimId
    && g.releases[i].status != ReleaseCompleted
    && s.reader in g.readers && g.readers[s.reader] == ReleasePending
  }

  /** A step records the receipt of release i if and only if it is its exact receipt; the request is
      then due at once. */
  lemma StepGivesReceipt(cfg: Command.Settings, t: Timing, g: Gateway, s: ReleaseStep, i: nat)
    requires !HasReceipt(g, i)
    ensures HasReceipt(Step(cfg, t, g, s), i) <==> ExactReceipt(g, s, i)
    ensures ExactReceipt(g, s, i) ==>
              var r := Step(cfg, t, g, s).releases[i];
              && r.status == ReleaseRetry && r.nextAttemptAt == s.receivedAt && r.edgeResetAt == Some(s.receivedAt)
              && r.leaseExpiresAt == None
  {
    hide Command.Apply, Command.NewFile, CloseCommand, EscrowModel.Step, ReleaseClaimable, RetryDelay;
  }

  /** A recorded reset was recorded by an accepted receipt earlier in the run. */
  lemma {:induction false} ReceiptBefore(
    cfg: Command.Settings, t: Timing, g: Gateway, steps: seq<ReleaseStep>, n: nat, i: nat) returns (k: nat)
    requires n <= |steps| && !HasReceipt(g, i) && HasReceipt(At(cfg, t, g, steps, n), i)
    ensures k < n && ExactReceipt(At(cfg, t, g, steps, k), steps[k], i)
  {
    hide Step, ExactReceipt, HasReceipt;
    assert steps[..0] == [];
    AtNext(cfg, t, g, steps, n - 1);
    if !HasReceipt(At(cfg, t, g, steps, n - 1), i) {
      StepGivesReceipt(cfg, t, At(cfg, t, g, steps, n - 1), steps[n - 1], i);
    }
    if HasReceipt(At(cfg, t, g, steps, n - 1), i) {
      k := ReceiptBefore(cfg, t, g, steps, n - 1, i);
    } else {
      k := n - 1;
    }
  }

  predicate InPhase(g: Gateway, w: nat, i: nat, phase: Phase) {
    w in g.workers && g.workers[w] == Worker(i, phase)
  }

  /** The step that puts worker w into this phase of release i. */
  predicate Enters(s: ReleaseStep, w: nat, i: nat, phase: Phase) {
    match phase
    case Claimed(_) => s.WorkerClaims? && s.worker == w && s.release == i
    case PolicyCleared => s == WorkerClears(w)
    case Deprovisioned => s == WorkerDeprovisions(w)
  }

  /** The phase worker w must be in before that step. */
  predicate Entered(t: Timing, g: Gateway, w: nat, i: nat, phase: Phase) {
    match phase
    case Claimed(saw) => w !in g.workers && saw == HasReceipt(g, i)
    case PolicyCleared => InPhase(g, w, i, Claimed(true)) && t.verified
    case Deprovisioned => InPhase(g, w, i, PolicyCleared)
  }

  lemma StepEnters(cfg: Command.Settings, t: Timing, g: Gateway, s: ReleaseStep, w: nat, i: nat, phase: Phase)
    ensures !InPhase(g, w, i, phase) && InPhase(Step(cfg, t, g, s), w, i, phase) ==>
              Enters(s, w, i, phase) && Entered(t, g, w, i, phase)
  {
    hide Command.Apply, Command.NewFile, CloseCommand, EscrowModel.Step, ReceiptAccepted, ReleaseClaimable, RetryDelay;
  }

  /** A worker in a phase entered it by the step that leads there. */
  lemma {:induction false} PhaseBefore(
    cfg: Command.Settings, t: Timing, g: Gateway, steps: seq<ReleaseStep>, n: nat, w: nat, i: nat, phase: Phase)
    returns (k: nat)
    requires n <= |steps| && g.workers == map[] && InPhase(At(cfg, t, g, steps, n), w, i, phase)
    ensures k < n && Enters(steps[k], w, i, phase) && Entered(t, At(cfg, t, g, steps, k), w, i, phase)
    ensures forall j :: k < j <= n ==> InPhase(At(cfg, t, g, steps, j), w, i, phase)
  {
    hide Step, Enters, Entered;
    assert steps[..0] == [];
    AtNext(cfg, t, g, steps, n - 1);
    StepEnters(cfg, t, At(cfg, t, g, steps, n - 1), steps[n - 1], w, i, phase);
    if InPhase(At(cfg, t, g, steps, n - 1), w, i, phase) {
      k := PhaseBefore(cfg, t, g, steps, n - 1, w, i, phase);
    } else {
      k := n - 1;
    }
  }

  /** What must have happened, in this order, when worker w releases the Gateway at step n. */
  datatype Milestones = Milestones(worker: nat, release: nat, receipt: nat, claim: nat, clear: nat, deprovision: nat)

  ghost predicate ReleasedInOrder(
    cfg: Command.Settings, t: Timing, g: Gateway, steps: seq<ReleaseStep>, n: nat, m: Milestones)
    requires n < |steps|
  {
    && m.receipt < m.claim < m.clear < m.deprovision < n
    && ExactReceipt(At(cfg, t, g, steps, m.receipt), steps[m.receipt], m.release)
    && steps[m.claim].WorkerClaims? && steps[m.claim].worker == m.worker && steps[m.claim].release == m.release
    && HasReceipt(At(cfg, t, g, steps, m.claim), m.release)
    && steps[m.clear] == WorkerClears(m.worker) && t.verified
    && steps[m.deprovision] == WorkerDeprovisions(m.worker)
    && steps[n] == WorkerFinalizes(m.worker)
  }

  /** A deprovisioned worker finalises a request that is still open. */
  predicate FinalizesOpen(g: Gateway, s: ReleaseStep) {
    && s.WorkerFinalizes? && s.worker in g.workers && g.workers[s.worker].phase.Deprovisioned?
    && g.workers[s.worker].release < |g.releases|
    && !g.releases[g.workers[s.worker].release].status.ReleaseCompleted?
  }

  /** A step makes a Gateway released if and only if it finalises so, or writes back a lifecycle
      read as released. */
  lemma StepReleasesExactly(cfg: Command.Settings, t: Timing, g: Gateway, s: ReleaseStep)
    requires !g.lifecycle.Released?
    ensures Step(cfg, t, g, s).lifecycle.Released?
            <==> FinalizesOpen(g, s) || (s.WriteLifecycle? && s.reader in g.readers && g.readers[s.reader].Released?)
  {
    hide Command.Apply, Command.NewFile, CloseCommand, EscrowModel.Step;
  }

  /** A lifecycle a flow holds was the Gateway's at an earlier moment of the run. */
  lemma {:induction false} ReaderSaw(
    cfg: Command.Settings, t: Timing, g: Gateway, steps: seq<ReleaseStep>, n: nat, u: nat) returns (k: nat)
    requires n <= |steps| && g.readers == map[] && u in At(cfg, t, g, steps, n).readers
    ensures k < n && At(cfg, t, g, steps, k).lifecycle == At(cfg, t, g, steps, n).readers[u]
  {
    hide Step;
    assert steps[..0] == [];
    var h := At(cfg, t, g, steps, n - 1);
    AtNext(cfg, t, g, steps, n - 1);
    StepReads(cfg, t, h, steps[n - 1], u);
    if u in h.readers && At(cfg, t, g, steps, n).readers[u] == h.readers[u] {
      k := ReaderSaw(cfg, t, g, steps, n - 1, u);
    } else {
      k := n - 1;
    }
  }

  lemma StepReads(cfg: Command.Settings, t: Timing, g: Gateway, s: ReleaseStep, u: nat)
    ensures u in Step(cfg, t, g, s).readers ==>
              || Step(cfg, t, g, s).readers[u] == g.lifecycle
              || (u in g.readers && Step(cfg, t, g, s).readers[u] == g.readers[u])
  {
    hide Command.Apply, Command.NewFile, CloseCommand, EscrowModel.Step, ReceiptAccepted, ReleaseClaimable;
  }

  /** Release ordering: a Gateway that has not been released before becomes released only by a
      worker that claimed after the exact reset receipt of that very request was accepted, then
      cleared the policy, then deprovisioned; new claims and late lifecycle writes included. */
  lemma ReleaseOrder(cfg: Command.Settings, t: Timing, g: Gateway, steps: seq<ReleaseStep>, n: nat)
    returns (m: Milestones)
    requires n < |steps| && g.workers == map[] && g.readers == map[] && forall i :: !HasReceipt(g, i)
    requires forall k :: 0 <= k <= n ==> !At(cfg, t, g, steps, k).lifecycle.Released?
    requires At(cfg, t, g, steps, n + 1).lifecycle.Released?
    ensures ReleasedInOrder(cfg, t, g, steps, n, m)
  {
    hide Step, At, ExactReceipt;
    var h := At(cfg, t, g, steps, n);
    AtNext(cfg, t, g, steps, n);
    StepReleasesExactly(cfg, t, h, steps[n]);
    if steps[n].WriteLifecycle? {
      var k := ReaderSaw(cfg, t, g, steps, n, steps[n].reader);
      assert false;
    }
    var w := steps[n].worker;
    var i := h.workers[w].release;
    var deprovision := PhaseBefore(cfg, t, g, steps, n, w, i, Deprovisioned);
    var clear := PhaseBefore(cfg, t, g, steps, deprovision, w, i, PolicyCleared);
    var claim := PhaseBefore(cfg, t, g, steps, clear, w, i, Claimed(true));
    var receipt := ReceiptBefore(cfg, t, g, steps, claim, i);
    m := Milestones(w, i, receipt, claim, clear, deprovision);
  }

  // --------------------------------------------------------------- finality

  /** An approval is bound to the device the command was requested for. */
  ghost predicate ApprovalsBound(g: Gateway) {
    forall id :: id in g.commands && g.commands[id].approval.Some? ==> g.commands[id].approval.value.binding.device.Some?
  }

  lemma StepKeepsApprovalsBound(cfg: Command.Settings, t: Timing, g: Gateway, s: ReleaseStep)
    requires ApprovalsBound(g)
    ensures ApprovalsBound(Step(cfg, t, g, s))
  {
    hide Command.Apply, Command.NewFile, CloseCommand, EscrowModel.Step;
    match s
    case OnCommand(id, step) =>
      if id in g.commands {
        CommandProofs.ApprovalBindingKept(cfg, g.commands[id], step);
      }
    case WorkerFinalizes(w) =>
      forall id | id in g.commands ensures CloseCommand(cfg, g.commands[id]).approval == g.commands[id].approval {
        CloseCommandShuts(cfg, g.commands[id]);
      }
    case StoreCommand(id, c, now) => NewApprovalBound(cfg, c, DenialFor(cfg, g, c), now);
    case _ => assert Step(cfg, t, g, s).commands == g.commands;
  }

  lemma NewApprovalBound(cfg: Command.Settings, c: NewCommand, denial: Option<Command.Denial>, now: nat)
    ensures var f := Command.NewFile(cfg, c.intent, c.device, denial, c.approvalRequired, c.currentValue, now);
            f.approval.Some? && (c.approvalRequired ==> c.device.Some?) ==> f.approval.value.binding.device.Some?
  {
    hide Command.NextEvent;
  }

  /** Nothing of the Gateway is open any more: its commands are final and cannot be approved,
      and no activation secret is held. */
  ghost predicate ShutDown(g: Gateway) {
    && (forall id :: id in g.commands ==>
          && Command.Terminal(g.commands[id].status)
          && (g.commands[id].approval.Some? ==>
                g.commands[id].device.None? && g.commands[id].approval.value.binding.device.Some?))
    && (forall i :: 0 <= i < |g.escrow.activations| ==>
          g.escrow.activations[i].escrow.None? && !EscrowModel.Unresolved(g.escrow.activations[i].status))
  }

  lemma FinalizeShutsDown(cfg: Command.Settings, g: Gateway, w: nat)
    requires ApprovalsBound(g) && !g.lifecycle.Released? && Finalize(cfg, g, w).lifecycle.Released?
    ensures ShutDown(Finalize(cfg, g, w))
  {
    EscrowProofs.RevokeAllAt(g.escrow.activations);
    forall id | id in g.commands
      ensures Command.Terminal(CloseCommand(cfg, g.commands[id]).status)
      ensures CloseCommand(cfg, g.commands[id]).approval == g.commands[id].approval
      ensures CloseCommand(cfg, g.commands[id]).device.None?
    {
      CloseCommandShuts(cfg, g.commands[id]);
    }
  }

  lemma CloseCommandShuts(cfg: Command.Settings, f: Command.CommandFile)
    ensures var h := CloseCommand(cfg, f);
            Command.Terminal(h.status) && h.approval == f.approval && h.device.None?
  {
  }

  lemma CommandStaysShut(cfg: Command.Settings, f: Command.CommandFile, step: Command.FileStep)
    requires Command.Terminal(f.status)
    requires f.approval.Some? ==> f.device.None? && f.approval.value.binding.device.Some?
    ensures var h := Command.Apply(cfg, f, step);
            && Command.Terminal(h.status)
            && (h.approval.Some? ==> h.device.None? && h.approval.value.binding.device.Some?)
  {
    CommandProofs.StepProgressExactly(cfg, f, step);
    CommandProofs.ApprovalBindingKept(cfg, f, step);
    if f.device.None? {
      DeviceNeverReturns(cfg, f, step);
    }
  }

  lemma DeviceNeverReturns(cfg: Command.Settings, f: Command.CommandFile, step: Command.FileStep)
    requires f.device.None?
    ensures Command.Apply(cfg, f, step).device.None?
  {
  }

  lemma EscrowStaysShut(e: EscrowModel.Escrow, s: EscrowModel.EscrowStep)
    requires !s.IssueActivation?
    requires forall i :: 0 <= i < |e.activations| ==>
               e.activations[i].escrow.None? && !EscrowModel.Unresolved(e.activations[i].status)
    ensures var rows := EscrowModel.Step(e, s).activations;
            forall i :: 0 <= i < |rows| ==> rows[i].escrow.None? && !EscrowModel.Unresolved(rows[i].status)
  {
    EscrowProofs.RevokeAllAt(e.activations);
  }

  lemma DeniedIsShut(cfg: Command.Settings, g: Gateway, c: NewCommand, now: nat)
    requires Quarantined(g.lifecycle)
    ensures var f := Command.NewFile(cfg, c.intent, c.device, DenialFor(cfg, g, c), c.approvalRequired,
                                     c.currentValue, now);
            Command.Terminal(f.status) && f.approval.None?
  {
  }

  lemma StepKeepsShutDown(cfg: Command.Settings, t: Timing, g: Gateway, s: ReleaseStep)
    requires g.lifecycle.Released? && ShutDown(g)
    ensures ShutDown(Step(cfg, t, g, s))
  {
    hide Command.Apply, Command.NewFile, EscrowModel.Step, CloseCommand, DenialFor, Finalize;
    match s
    case OnCommand(id, step) =>
      if id in g.commands {
        CommandStaysShut(cfg, g.commands[id], step);
      }
    case OnEscrow(step) =>
      if !step.IssueActivation? {
        EscrowStaysShut(g.escrow, step);
      }
    case WorkerFinalizes(w) => RefinalizeKeepsShutDown(cfg, g, w);
    case StoreCommand(id, c, now) => DeniedIsShut(cfg, g, c, now);
    case _ =>
      assert Step(cfg, t, g, s).commands == g.commands && Step(cfg, t, g, s).escrow == g.escrow;
  }

  /** A late failure can reopen a completed request, which is then finalised once more. */
  lemma RefinalizeKeepsShutDown(cfg: Command.Settings, g: Gateway, w: nat)
    requires g.lifecycle.Released? && ShutDown(g)
    ensures ShutDown(Finalize(cfg, g, w))
  {
    EscrowProofs.RevokeAllAt(g.escrow.activations);
    forall id | id in g.commands
      ensures Command.Terminal(CloseCommand(cfg, g.commands[id]).status)
      ensures CloseCommand(cfg, g.commands[id]).approval == g.commands[id].approval
      ensures CloseCommand(cfg, g.commands[id]).device.None?
    {
      CloseCommandShuts(cfg, g.commands[id]);
    }
  }

  /** What a flow has read as released is released still. */
  ghost predicate ReadersCurrent(g: Gateway) {
    forall u :: u in g.readers && g.readers[u].Released? ==> g.lifecycle.Released?
  }

  lemma StepKeepsReadersCurrent(cfg: Command.Settings, t: Timing, g: Gateway, s: ReleaseStep)
    requires ReadersCurrent(g) && !OverwritesRelease(g, s)
    ensures ReadersCurrent(Step(cfg, t, g, s))
  {
    hide Step;
    if g.lifecycle.Released? {
      StepLeavesReleasedExactly(cfg, t, g, s);
    } else {
      forall u | u in Step(cfg, t, g, s).readers ensures !Step(cfg, t, g, s).readers[u].Released? {
        StepReads(cfg, t, g, s, u);
      }
    }
  }

  lemma StepReleases(cfg: Command.Settings, t: Timing, g: Gateway, s: ReleaseStep)
    requires ApprovalsBound(g) && ReadersCurrent(g)
    requires !g.lifecycle.Released? && Step(cfg, t, g, s).lifecycle.Released?
    ensures ShutDown(Step(cfg, t, g, s))
  {
    hide ShutDown, ApprovalsBound, Finalize;
    StepReleasesExactly(cfg, t, g, s);
    FinalizeShutsDown(cfg, g, s.worker);
  }

  /** From finalisation on, whatever still runs: every command of the Gateway is final, none
      can be approved back into the queue, and every activation secret is gone. */
  lemma {:induction false} ReleasedMeansShutDown(
    cfg: Command.Settings, t: Timing, g: Gateway, steps: seq<ReleaseStep>)
    requires ApprovalsBound(g) && ReadersCurrent(g) && !g.lifecycle.Released? && NoLateWrite(cfg, t, g, steps)
    ensures ApprovalsBound(Run(cfg, t, g, steps)) && ReadersCurrent(Run(cfg, t, g, steps))
    ensures Run(cfg, t, g, steps).lifecycle.Released? ==> ShutDown(Run(cfg, t, g, steps))
  {
    hide Step, ShutDown, ApprovalsBound, ReadersCurrent, NoLateWrite, OverwritesRelease;
    if steps != [] {
      NoLateWriteFront(cfg, t, g, steps);
      ReleasedMeansShutDown(cfg, t, g, Front(steps));
      var h := Run(cfg, t, g, Front(steps));
      StepKeepsApprovalsBound(cfg, t, h, Last(steps));
      StepKeepsReadersCurrent(cfg, t, h, Last(steps));
      if h.lifecycle.Released? {
        StepKeepsShutDown(cfg, t, h, Last(steps));
      } else if Run(cfg, t, g, steps).lifecycle.Released? {
        StepReleases(cfg, t, h, Last(steps));
      }
    }
  }

  /** Finalisation does not look at the outbox rows of the commands it cancels: a claim that
      revalidation lets through opens an attempt after it exactly when it would have before. */
  lemma FinalizeLeavesOutbox(
    cfg: Command.Settings, g: Gateway, w: nat, id: Command.CommandId, denial: Option<Command.Denial>, now: nat)
    requires id in g.commands
    ensures id in Finalize(cfg, g, w).commands
    ensures Command.Opens(cfg, Finalize(cfg, g, w).commands[id], denial, now)
            <==> Command.Opens(cfg, g.commands[id], denial, now)
  {
    hide Command.Append, Command.Claimable, Command.TransitionAllowed;
    CloseKeepsOutbox(cfg, g.commands[id]);
  }

  lemma CloseKeepsOutbox(cfg: Command.Settings, f: Command.CommandFile)
    ensures CloseCommand(cfg, f).outbox == f.outbox
  {
  }

  // ------------------------------------------------------- claims and retries

  /** A request may be claimed: open and waiting, or held under a lease that is over, and due. */
  predicate RequestDue(r: Release, now: nat) {
    && r.nextAttemptAt <= now
    && (r.status in {ReleaseQueued, ReleaseRetry, NeedsAttention}
        || (r.status == Revoking && r.leaseExpiresAt != None && r.leaseExpiresAt.value <= now))
  }

  /** A worker gets a request if and only if the request is due; it holds it for the lease time, and
      knows whether the receipt had come. */
  lemma ClaimedExactly(cfg: Command.Settings, t: Timing, g: Gateway, w: nat, i: nat, now: nat)
    requires w !in g.workers
    ensures var after := Step(cfg, t, g, WorkerClaims(w, i, now));
            && (w in after.workers <==> i < |g.releases| && RequestDue(g.releases[i], now))
            && (w in after.workers ==>
                  && after.workers[w] == Worker(i, Claimed(g.releases[i].edgeResetAt.Some?))
                  && after.releases[i].status == Revoking
                  && after.releases[i].attemptCount == g.releases[i].attemptCount + 1
                  && forall later: nat ::
                       RequestDue(after.releases[i], later)
                       <==> now + t.lease <= later && g.releases[i].nextAttemptAt <= later)
            && after.lifecycle == g.lifecycle
  {
    hide Command.Apply, Command.NewFile, CloseCommand, EscrowModel.Step;
  }

  /** A worker that fails leaves the request due again after a wait of 2 to the power of its attempts,
      at least 5 and at most the maximum of seconds; from the third attempt on it needs attention. */
  lemma FailedExactly(cfg: Command.Settings, t: Timing, g: Gateway, w: nat, now: nat)
    requires w in g.workers && g.workers[w].release < |g.releases| && 5 <= t.retryMax
    ensures var i := g.workers[w].release;
            var r := g.releases[i];
            var after := Step(cfg, t, g, WorkerRetries(w, now));
            var wait := after.releases[i].nextAttemptAt - now;
            && after.releases[i].status == (if r.attemptCount >= 3 then NeedsAttention else ReleaseRetry)
            && (forall later: nat :: RequestDue(after.releases[i], later) <==> now + wait <= later)
            && wait == Min(t.retryMax, if r.attemptCount <= 2 then 5 else if r.attemptCount <= 8 then Pow2(r.attemptCount) else 256)
            && after.releases[i].edgeResetAt == r.edgeResetAt && w !in after.workers && after.lifecycle == g.lifecycle
  {
    hide Command.Apply, Command.NewFile, CloseCommand, EscrowModel.Step;
    PowersOfTwo();
    if 3 <= g.releases[g.workers[w].release].attemptCount <= 8 {
      Pow2Above(g.releases[g.workers[w].release].attemptCount);
    }
  }

  lemma PowersOfTwo()
    ensures Pow2(0) == 1 && Pow2(1) == 2 && Pow2(2) == 4 && Pow2(3) == 8 && Pow2(8) == 256
  {
    assert Pow2(4) == 16 && Pow2(5) == 32 && Pow2(6) == 64;
  }

  lemma {:induction false} Pow2Above(n: nat)
    requires 3 <= n
    ensures Pow2(n) >= 8
  {
    if n > 3 {
      Pow2Above(n - 1);
    } else {
      PowersOfTwo();
    }
  }

  /** A release is requested if and only if none is open and the Gateway is not released; then the
      Gateway is pending and the new request due at once. */
  lemma RequestedExactly(cfg: Command.Settings, t: Timing, g: Gateway, request: nat, now: nat)
    ensures
      var after := Step(cfg, t, g, AskRelease(request, now));
      var wanted := g.lifecycle != Released && forall i :: 0 <= i < |g.releases| ==> g.releases[i].status == ReleaseCompleted;
      if !wanted then after == g
      else
        && after.lifecycle == ReleasePending && |after.releases| == |g.releases| + 1
        && Last(after.releases).request == request && RequestDue(Last(after.releases), now)
        && Last(after.releases).edgeResetAt.None? && Last(after.releases).attemptCount == 0
        && after.releases[..|g.releases|] == g.releases && after.commands == g.commands && after.escrow == g.escrow
  {
    hide Command.Apply, Command.NewFile, CloseCommand, EscrowModel.Step;
  }

  /** A deprovisioned worker of an open request releases the Gateway: every open command is cancelled
      and every final one kept, no command has a device any more, every secret is gone, and the request
      is completed. For a completed one it only leaves. */
  lemma FinalizedExactly(cfg: Command.Settings, t: Timing, g: Gateway, w: nat)
    requires w in g.workers && g.workers[w] == Worker(g.workers[w].release, Deprovisioned)
    requires g.workers[w].release < |g.releases|
    ensures
      var i := g.workers[w].release;
      var after := Step(cfg, t, g, WorkerFinalizes(w));
      && w !in after.workers
      && if g.releases[i].status == ReleaseCompleted then after == g.(workers := after.workers)
         else
           && after.lifecycle == Released && after.releases[i].status == ReleaseCompleted
           && after.releases[i].leaseExpiresAt == None && after.releases[i].edgeResetAt == g.releases[i].edgeResetAt
           && after.commands.Keys == g.commands.Keys
           && (forall id :: id in g.commands ==>
                 && after.commands[id].device == None
                 && after.commands[id].status == (if Command.Terminal(g.commands[id].status) then g.commands[id].status
                                                  else Command.Cancelled)
                 && after.commands[id].outbox == g.commands[id].outbox)
           && |after.escrow.activations| == |g.escrow.activations|
           && forall k :: 0 <= k < |g.escrow.activations| ==>
                && after.escrow.activations[k].escrow == None
                && after.escrow.activations[k].status
                   == if g.escrow.activations[k].status == EscrowModel.ActAcknowledged
                      then EscrowModel.ActAcknowledged else EscrowModel.ActSuperseded
  {
    hide CloseCommand, Command.Apply, Command.NewFile, EscrowModel.Step;
    EscrowProofs.RevokeAllAt(g.escrow.activations);
    forall id | id in g.commands
      ensures var h := CloseCommand(cfg, g.commands[id]);
              && h.device == None && h.outbox == g.commands[id].outbox
              && h.status == if Command.Terminal(g.commands[id].status) then g.commands[id].status else Command.Cancelled
    {
      ClosedExactly(cfg, g.commands[id]);
    }
  }

  lemma ClosedExactly(cfg: Command.Settings, f: Command.CommandFile)
    ensures var h := CloseCommand(cfg, f);
            && h.device == None && h.outbox == f.outbox
            && h.status == if Command.Terminal(f.status) then f.status else Command.Cancelled
    ensures !Command.Terminal(f.status) ==>
              CloseCommand(cfg, f).errorCode == Command.GatewayReleased && |CloseCommand(cfg, f).events| == |f.events| + 1
  {
  }

  /** A command requested while the release is pending or done is stored denied; otherwise its other
      checks decide. A command that asks for approval names a device. */
  lemma CommandStoredExactly(cfg: Command.Settings, t: Timing, g: Gateway, id: Command.CommandId, c: NewCommand, now: nat)
    ensures
      var after := Step(cfg, t, g, StoreCommand(id, c, now));
      if id in g.commands || (c.approvalRequired && c.device == None) then after == g
      else
        && id in after.commands
        && (g.lifecycle != Operating ==>
              after.commands[id].status == Command.PolicyDenied && after.commands[id].errorCode == Command.GatewayQuarantined
              && after.commands[id].outbox == None)
        && (g.lifecycle == Operating ==>
              (after.commands[id].status == Command.PolicyDenied <==> c.denial.Some?))
  {
    hide Command.NextEvent;
  }

  /** A flow without the lock writes back exactly what it read, once. */
  lemma WrittenBackExactly(cfg: Command.Settings, t: Timing, g: Gateway, u: nat)
    ensures var read := Step(cfg, t, g, ReadLifecycle(u));
            read == g.(readers := read.readers) && u in read.readers && read.readers[u] == g.lifecycle
    ensures var after := Step(cfg, t, g, WriteLifecycle(u));
            && u !in after.readers
            && (if u in g.readers then after == g.(lifecycle := g.readers[u], readers := after.readers) else after == g)
  {
  }

  // ------------------------------------------------------- completed requests

  predicate Completed(g: Gateway, i: nat) {
    i < |g.releases| && g.releases[i].status.ReleaseCompleted?
  }

  /** A worker of the request fails: _retry_release does not look at the status it overwrites. */
  predicate Fails(g: Gateway, s: ReleaseStep, i: nat) {
    s.WorkerRetries? && s.worker in g.workers && g.workers[s.worker].release == i
  }

  /** A completed request is reopened by exactly a worker that still held it and fails. */
  lemma StepReopensExactly(cfg: Command.Settings, t: Timing, g: Gateway, s: ReleaseStep, i: nat)
    requires Completed(g, i)
    ensures !Completed(Step(cfg, t, g, s), i) <==> Fails(g, s, i)
  {
    hide Command.Apply, Command.NewFile, CloseCommand, EscrowModel.Step, RetryDelay;
  }

  /** And completed by exactly a finalising worker. */
  lemma StepCompletesExactly(cfg: Command.Settings, t: Timing, g: Gateway, s: ReleaseStep, i: nat)
    requires !Completed(g, i)
    ensures Completed(Step(cfg, t, g, s), i) <==> FinalizesOpen(g, s) && g.workers[s.worker].release == i
  {
    hide Command.Apply, Command.NewFile, CloseCommand, EscrowModel.Step, RetryDelay;
  }

  /** No worker of the request fails during the run. */
  ghost predicate NoneFails(cfg: Command.Settings, t: Timing, g: Gateway, steps: seq<ReleaseStep>, i: nat) {
    forall k :: 0 <= k < |steps| ==> !Fails(At(cfg, t, g, steps, k), steps[k], i)
  }

  /** Every run without such a failure keeps a completed request completed. */
  lemma {:induction false} CompletedStaysCompleted(
    cfg: Command.Settings, t: Timing, g: Gateway, steps: seq<ReleaseStep>, i: nat)
    requires Completed(g, i) && NoneFails(cfg, t, g, steps, i)
    ensures Completed(Run(cfg, t, g, steps), i)
  {
    hide Step, Completed, Fails;
    if steps != [] {
      var front := Front(steps);
      assert steps[..|front|] == front;
      forall k | 0 <= k < |front| ensures At(cfg, t, g, front, k) == At(cfg, t, g, steps, k) {
        assert front[..k] == steps[..k];
      }
      CompletedStaysCompleted(cfg, t, g, front, i);
      StepReopensExactly(cfg, t, Run(cfg, t, g, front), Last(steps), i);
    }
  }

  lemma RunSnoc(cfg: Command.Settings, t: Timing, g: Gateway, steps: seq<ReleaseStep>, s: ReleaseStep)
    ensures Run(cfg, t, g, steps + [s]) == Step(cfg, t, Run(cfg, t, g, steps), s)
  {
    assert Front(steps + [s]) == steps;
  }

  /** A request and its exact receipt. */
  function Received(claimId: string, request: nat, now: nat): seq<ReleaseStep> {
    [AskRelease(request, now)] + [ReadLifecycle(1)] + [ReceiveReceipt(1, 0, Receipt(true, request, claimId), now)]
  }

  lemma ReceivedHolds(cfg: Command.Settings, t: Timing, g: Gateway, request: nat, now: nat)
    requires g.lifecycle.Operating? && g.releases == [] && g.workers == map[]
    ensures var h := Run(cfg, t, g, Received(g.claimId, request, now));
            && h.lifecycle.ReleasePending? && h.workers == map[]
            && h.releases == [Release(request, ReleaseRetry, 0, now, None, Some(now))]
  {
    hide CloseCommand, Command.Apply, Command.NewFile, EscrowModel.Step, Reclaim, ClaimRelease, RetryRelease;
    hide WriteBack, DenialFor, ClearPolicy, Deprovision, Finalize;
    var ask := [AskRelease(request, now)];
    assert ask == [] + [AskRelease(request, now)];
    RunSnoc(cfg, t, g, [], AskRelease(request, now));
    RunSnoc(cfg, t, g, ask, ReadLifecycle(1));
    RunSnoc(cfg, t, g, ask + [ReadLifecycle(1)], ReceiveReceipt(1, 0, Receipt(true, request, g.claimId), now));
  }

  /** Two workers hold one request: the second claims it when the lease of the first has expired. */
  function TwoClaims(t: Timing, now: nat): seq<ReleaseStep> {
    [WorkerClaims(1, 0, now)] + [WorkerClaims(2, 0, now + t.lease)]
  }

  lemma TwoClaimsHold(cfg: Command.Settings, t: Timing, h: Gateway, request: nat, now: nat)
    requires h.workers == map[] && h.releases == [Release(request, ReleaseRetry, 0, now, None, Some(now))]
    ensures var after := Run(cfg, t, h, TwoClaims(t, now));
            && after.workers == map[1 := Worker(0, Claimed(true)), 2 := Worker(0, Claimed(true))]
            && |after.releases| == 1 && !after.releases[0].status.ReleaseCompleted?
            && after.lifecycle == h.lifecycle
  {
    assert [WorkerClaims(1, 0, now)] == [] + [WorkerClaims(1, 0, now)];
    RunSnoc(cfg, t, h, [], WorkerClaims(1, 0, now));
    RunSnoc(cfg, t, h, [WorkerClaims(1, 0, now)], WorkerClaims(2, 0, now + t.lease));
  }

  /** How worker 2 goes on to release the Gateway. */
  const SECOND_FINISHES: seq<ReleaseStep> := [WorkerClears(2)] + [WorkerDeprovisions(2)] + [WorkerFinalizes(2)]

  lemma SecondFinishes(cfg: Command.Settings, t: Timing, h: Gateway)
    requires h.workers == map[1 := Worker(0, Claimed(true)), 2 := Worker(0, Claimed(true))] && t.verified
    requires |h.releases| == 1 && !h.releases[0].status.ReleaseCompleted?
    ensures var after := Run(cfg, t, h, SECOND_FINISHES);
            && after.lifecycle.Released? && Completed(after, 0) && 1 in after.workers && after.workers[1].release == 0
  {
    hide CloseCommand, Command.Apply, Command.NewFile, EscrowModel.Step, RequestRelease, Reclaim, AcceptReceipt;
    hide ClaimRelease, RetryRelease, WriteBack, DenialFor;
    assert [WorkerClears(2)] == [] + [WorkerClears(2)];
    RunSnoc(cfg, t, h, [], WorkerClears(2));
    RunSnoc(cfg, t, h, [WorkerClears(2)], WorkerDeprovisions(2));
    RunSnoc(cfg, t, h, [WorkerClears(2)] + [WorkerDeprovisions(2)], WorkerFinalizes(2));
  }

  /** After the receipt worker 1 claims the request and its lease expires; worker 2 claims it and
      releases the Gateway; then worker 1 fails. The completed request is open again, so a further
      worker can claim it; the Gateway stays released. */
  lemma LateFailureReopensRequest(cfg: Command.Settings, t: Timing, g: Gateway, request: nat, now: nat)
    requires g.lifecycle.Operating? && g.releases == [] && g.workers == map[] && t.verified
    ensures
      var steps := Received(g.claimId, request, now) + TwoClaims(t, now) + SECOND_FINISHES;
      var released := Run(cfg, t, g, steps);
      var failed := Run(cfg, t, g, steps + [WorkerRetries(1, now + t.lease)]);
      released.lifecycle.Released? && Completed(released, 0) && failed.lifecycle.Released? && !Completed(failed, 0)
  {
    hide Step, TwoClaims, Received;
    var received := Received(g.claimId, request, now);
    var steps := received + TwoClaims(t, now) + SECOND_FINISHES;
    ReceivedHolds(cfg, t, g, request, now);
    RunAppend(cfg, t, g, received, TwoClaims(t, now));
    TwoClaimsHold(cfg, t, Run(cfg, t, g, received), request, now);
    RunAppend(cfg, t, g, received + TwoClaims(t, now), SECOND_FINISHES);
    SecondFinishes(cfg, t, Run(cfg, t, g, received + TwoClaims(t, now)));
    RunSnoc(cfg, t, g, steps, WorkerRetries(1, now + t.lease));
    StepReopensExactly(cfg, t, Run(cfg, t, g, steps), WorkerRetries(1, now + t.lease), 0);
    StepLeavesReleasedExactly(cfg, t, Run(cfg, t, g, steps), WorkerRetries(1, now + t.lease));
  }

  lemma {:induction false} RunAppend(
    cfg: Command.Settings, t: Timing, g: Gateway, before: seq<ReleaseStep>, after: seq<ReleaseStep>)
    ensures Run(cfg, t, g, before + after) == Run(cfg, t, Run(cfg, t, g, before), after)
  {
    hide Step;
    if after == [] {
      assert before + after == before;
    } else {
      assert Front(before + after) == before + Front(after);
      RunAppend(cfg, t, g, before, Front(after));
    }
  }
}
