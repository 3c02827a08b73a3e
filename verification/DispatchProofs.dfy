/** When a request is admitted and when a claim publishes, in terms of the Hub's rows: one flat
    condition each, equivalent to the chains of checks of the source. */
module DispatchProofs {

  import opened Common
  import opened CommandModel
  import opened CommandProofs
  import opened ControlPlane
  import opened ControlRuns

  // ---------------------------------------------------------- claims that publish

  /** The rows that govern one device key: its scope enabled in the command's epoch, the template
      definition, envelope and policy of the revisions it was requested under, its activation. */
  ghost predicate Governed(h: Hub, i: Intent, id: DeviceId) {
    var ak := ActivationKey(id, i.key, i.epoch);
    && (exists site :: ScopeKey(i.team, site, i.gateway, id, i.key) in h.plane.scopes
                       && h.plane.scopes[ScopeKey(i.team, site, i.gateway, id, i.key)] == Scope(Enabled, i.epoch))
    && id in h.devices && h.devices[id].template.Some?
    && Definition(h.devices[id].template.value, i.key, i.templateRevision) in h.governance.definitions
    && (exists until :: Envelope(i.team, id, i.key, i.commissioningRevision, until) in h.governance.envelopes)
    && Policy(i.team, i.gateway, id, i.key, i.policyRevision, i.policyChecksum) in h.governance.policies
    && ak in h.plane.activations && h.plane.activations[ak].team == i.team
    && h.plane.activations[ak].status == ActivationActive
  }

  ghost predicate UnexpiredEnvelope(h: Hub, i: Intent, id: DeviceId) {
    exists until: Option<nat> ::
      Envelope(i.team, id, i.key, i.commissioningRevision, until) in h.governance.envelopes
      && (until.Some? ==> h.now < until.value)
  }

  /** Everything the Hub must hold for a write of one device key at the moment of its dispatch. */
  ghost predicate WriteInForce(h: Hub, f: CommandFile)
    requires f.intent.gateway in h.gateways
  {
    var i := f.intent;
    var g := h.gateways[i.gateway];
    && i.key != ""
    && f.device.Some? && f.device.value in h.devices
    && h.devices[f.device.value].gateway == Some(i.gateway) && h.devices[f.device.value].team == i.team
    && g.policyLoaded && g.epoch == i.epoch && g.policyRevision == i.policyRevision
    && g.clockReady && g.journalReady && g.storageHealthy
    && Governed(h, i, f.device.value) && UnexpiredEnvelope(h, i, f.device.value)
    && h.now < h.plane.activations[ActivationKey(f.device.value, i.key, i.epoch)].expiresAt
  }

  /** What any command needs at its dispatch. */
  ghost predicate Dispatchable(h: Hub, f: CommandFile) {
    var i := f.intent;
    && i.team in h.plane.teams && i.gateway in h.gateways
    && !i.operation.Unlisted? && h.now < i.expiresAt
    && (StateChanging(i.operation) ==>
          h.plane.teams[i.team] == Team(Controlled, i.epoch) && h.gateways[i.gateway].capable)
    && (i.operation.WriteDevice? ==> WriteInForce(h, f))
  }

  /** The outbox row may be claimed: due, and not held under a live lease. */
  predicate RowDue(f: CommandFile, now: nat) {
    && f.outbox.Some? && f.outbox.value.nextAttemptAt <= now
    && match f.outbox.value.status
       case PendingDispatch | RetryScheduled => true
       case ClaimedByWorker => f.outbox.value.leaseExpiresAt.Some? && f.outbox.value.leaseExpiresAt.value <= now
       case _ => false
  }

  lemma ScopeExactly(h: Hub, f: CommandFile, id: DeviceId)
    ensures ScopeInForce(h, f, id) <==>
            exists site :: ScopeKey(f.intent.team, site, f.intent.gateway, id, f.intent.key) in h.plane.scopes
                           && h.plane.scopes[ScopeKey(f.intent.team, site, f.intent.gateway, id, f.intent.key)]
                              == Scope(Enabled, f.intent.epoch)
  {
    if ScopeInForce(h, f, id) {
      var sk :| && sk in h.plane.scopes && sk.team == f.intent.team && sk.gateway == f.intent.gateway
                && sk.device == id && sk.key == f.intent.key && h.plane.scopes[sk] == Scope(Enabled, f.intent.epoch);
      assert sk == ScopeKey(f.intent.team, sk.site, f.intent.gateway, id, f.intent.key);
    }
  }

  lemma EnvelopeExactly(h: Hub, f: CommandFile, id: DeviceId)
    ensures EnvelopeInForce(h, f, id, true) <==> UnexpiredEnvelope(h, f.intent, id)
    ensures EnvelopeInForce(h, f, id, false) <==>
            exists until :: Envelope(f.intent.team, id, f.intent.key, f.intent.commissioningRevision, until)
                            in h.governance.envelopes
  {
    forall e | e in h.governance.envelopes && e.team == f.intent.team && e.device == id
               && e.key == f.intent.key && e.revision == f.intent.commissioningRevision
      ensures e == Envelope(f.intent.team, id, f.intent.key, f.intent.commissioningRevision, e.expiresAt)
    {
    }
  }

  lemma GovernedExactly(h: Hub, f: CommandFile, id: DeviceId)
    requires id in h.devices
    ensures RecordsInForce(h, f, id) <==> Governed(h, f.intent, id)
  {
    hide ScopeInForce, EnvelopeInForce;
    ScopeExactly(h, f, id);
    EnvelopeExactly(h, f, id);
  }

  lemma GovernedActivation(h: Hub, i: Intent, id: DeviceId)
    ensures Governed(h, i, id) ==> ActivationKey(id, i.key, i.epoch) in h.plane.activations
  {
  }

  /** The chain of checks passes if and only if the flat condition holds. */
  lemma RevalidationExactly(h: Hub, f: CommandFile)
    requires f.intent.team in h.plane.teams && f.intent.gateway in h.gateways
    ensures Revalidation(h, f).None? <==> Dispatchable(h, f)
  {
    hide RecordsInForce, Governed, EnvelopeInForce, UnexpiredEnvelope;
    if f.device.Some? && f.device.value in h.devices {
      GovernedExactly(h, f, f.device.value);
      GovernedActivation(h, f.intent, f.device.value);
      EnvelopeExactly(h, f, f.device.value);
    }
  }

  /** A claim opens an attempt, that is, the command is published, if and only if its row is due
      with attempts left and the command is dispatchable at that instant. */
  lemma OpensExactly(cfg: Settings, h: Hub, id: CommandId)
    ensures OpensAttempt(cfg, h, id) <==>
            && id in h.commands && RowDue(h.commands[id], h.now)
            && h.commands[id].outbox.value.attemptCount < cfg.maxAttempts && Dispatchable(h, h.commands[id])
  {
    hide Revalidation, Dispatchable, Claim;
    if id in h.commands {
      var f := h.commands[id];
      if f.intent.team in h.plane.teams && f.intent.gateway in h.gateways {
        RevalidationExactly(h, f);
        ClaimOpensExactly(cfg, f, ClaimStep(cfg, h, f).denial, h.now);
        ClaimOnHub(cfg, h, id);
      } else {
        NotDispatchable(h, f);
      }
    }
  }

  lemma NotDispatchable(h: Hub, f: CommandFile)
    requires f.intent.team !in h.plane.teams || f.intent.gateway !in h.gateways
    ensures !Dispatchable(h, f)
  {
  }

  /** Nothing is published after it expired, whatever the operation. */
  lemma NothingExpiredOpens(cfg: Settings, h: Hub, id: CommandId)
    requires OpensAttempt(cfg, h, id)
    ensures h.now < h.commands[id].intent.expiresAt
  {
    OpensExactly(cfg, h, id);
  }

  // --------------------------------------------------------- attempts over runs

  predicate AttemptsTimely(f: CommandFile) {
    forall k :: 0 <= k < |f.attempts| ==> f.attempts[k].startedAt < f.intent.expiresAt
  }

  /** Attempts are kept, and only a claim that opens one adds one, started at its instant. */
  lemma AttemptsGrow(cfg: Settings, f: CommandFile, step: FileStep)
    ensures var g := CommandModel.Apply(cfg, f, step);
            && |f.attempts| <= |g.attempts|
            && (forall k :: 0 <= k < |f.attempts| ==> g.attempts[k].startedAt == f.attempts[k].startedAt)
            && (|g.attempts| > |f.attempts| ==>
                  && step.DispatchClaim? && Opens(cfg, f, step.denial, step.claimedAt)
                  && |g.attempts| == |f.attempts| + 1 && Last(g.attempts).startedAt == step.claimedAt)
  {
    hide NextEvent, TransitionAllowed, ApprovalAccepted, Record, Claim, Opens;
    match step
    case DispatchClaim(denial, now) =>
      if Opens(cfg, f, denial, now) {
        OpenedDenial(cfg, f, denial, now);
        ClaimOpens(cfg, f, now);
      } else {
        ClosingClaimEnds(cfg, f, denial, now);
      }
    case WorkerRecord(n, outcome, now) => RecordCloses(cfg, f, n, outcome, now);
    case _ => assert CommandModel.Apply(cfg, f, step).attempts == f.attempts;
  }

  lemma OpenedDenial(cfg: Settings, f: CommandFile, denial: Option<Denial>, now: nat)
    requires Opens(cfg, f, denial, now)
    ensures denial == None
  {
  }

  lemma StepKeepsTimely(cfg: Settings, h: Hub, a: Action, id: CommandId)
    requires id in Do(cfg, h, a).commands
    requires id in h.commands ==> AttemptsTimely(h.commands[id])
    ensures AttemptsTimely(Do(cfg, h, a).commands[id])
  {
    hide Do, CommandModel.Apply, StoredCommand, StepOn, OpensAttempt, Opens;
    if id in h.commands {
      DoOnCommand(cfg, h, a, id);
      var step := StepOn(cfg, h, a, id);
      if step.Some? {
        var f := h.commands[id];
        AttemptsGrow(cfg, f, step.value);
        StepExtends(cfg, f, step.value);
        if |CommandModel.Apply(cfg, f, step.value).attempts| > |f.attempts| {
          ClaimStepOnly(cfg, h, a, id);
          OpeningStep(cfg, h, id);
          NothingExpiredOpens(cfg, h, id);
        }
      }
    } else {
      CommandsEnterByRequest(cfg, h, a, id);
      NewCommandUntried(cfg, h, a.request);
    }
  }

  lemma ClaimStepOnly(cfg: Settings, h: Hub, a: Action, id: CommandId)
    requires id in h.commands && StepOn(cfg, h, a, id).Some? && StepOn(cfg, h, a, id).value.DispatchClaim?
    ensures a == ClaimOutbox(id) && StepOn(cfg, h, a, id).value.claimedAt == h.now
  {
    hide Revalidation;
  }

  lemma OpeningStep(cfg: Settings, h: Hub, id: CommandId)
    requires id in h.commands && StepOn(cfg, h, ClaimOutbox(id), id).Some?
    requires |CommandModel.Apply(cfg, h.commands[id], StepOn(cfg, h, ClaimOutbox(id), id).value).attempts|
             > |h.commands[id].attempts|
    ensures OpensAttempt(cfg, h, id)
  {
    hide Do, CommandModel.Apply, StepOn;
    DoOnCommand(cfg, h, ClaimOutbox(id), id);
  }

  lemma NewCommandUntried(cfg: Settings, h: Hub, r: Request)
    requires WellTargeted(h, r)
    ensures StoredCommand(cfg, h, r).attempts == []
  {
    hide RequestDenial, TermsOf, ValueOf, NextEvent;
  }

  /** Over every run of a Hub that starts without commands, each attempt of each command was
      started before the command expired. */
  lemma {:induction false} EveryAttemptTimely(cfg: Settings, start: Hub, actions: seq<Action>, id: CommandId)
    requires start.commands == map[] && id in Play(cfg, start, actions).commands
    ensures AttemptsTimely(Play(cfg, start, actions).commands[id])
  {
    hide Do, AttemptsTimely;
    var h := Play(cfg, start, Front(actions));
    if id in h.commands {
      EveryAttemptTimely(cfg, start, Front(actions), id);
    }
    StepKeepsTimely(cfg, h, Last(actions), id);
  }

  // ------------------------------------------------------------ refused claims

  /** A due row whose command is not dispatchable is cancelled: the command expired if its time
      is over, and is cancelled otherwise; nothing is published. */
  lemma RefusedClaimEnds(cfg: Settings, h: Hub, id: CommandId)
    requires id in h.commands && RowDue(h.commands[id], h.now)
    requires h.commands[id].outbox.value.attemptCount < cfg.maxAttempts
    requires h.commands[id].intent.team in h.plane.teams && h.commands[id].intent.gateway in h.gateways
    requires !Dispatchable(h, h.commands[id])
    ensures var f := h.commands[id];
            id in Do(cfg, h, ClaimOutbox(id)).commands
            && var g := Do(cfg, h, ClaimOutbox(id)).commands[id];
               && g.attempts == f.attempts && g.outbox.Some? && g.outbox.value.status == OutboxCancelled
               && g.status == (if !f.intent.operation.Unlisted? && f.intent.expiresAt <= h.now then Expired else Cancelled)
  {
    hide Revalidation, Dispatchable, NextEvent;
    var f := h.commands[id];
    RevalidationExactly(h, f);
    ClaimOnHub(cfg, h, id);
    ExpiryComesFirst(h, f);
  }

  lemma ExpiryComesFirst(h: Hub, f: CommandFile)
    requires f.intent.team in h.plane.teams && f.intent.gateway in h.gateways
    ensures Revalidation(h, f) == Some(CommandExpired)
            <==> !f.intent.operation.Unlisted? && f.intent.expiresAt <= h.now
  {
  }

  /** A refusal names a check that failed. */
  ghost predicate RefusalHolds(h: Hub, f: CommandFile, code: Code)
    requires f.intent.team in h.plane.teams && f.intent.gateway in h.gateways
  {
    var i := f.intent;
    var g := h.gateways[i.gateway];
    match code
    case UnsupportedOperation => i.operation.Unlisted?
    case CommandExpired => i.expiresAt <= h.now
    case RemoteControlRevoked => StateChanging(i.operation) && h.plane.teams[i.team].mode != Controlled
    case ControlEpochChanged => StateChanging(i.operation) && h.plane.teams[i.team].epoch != i.epoch
    case CapabilityMissing => StateChanging(i.operation) && !g.capable
    case DeviceIdentityChanged =>
      i.operation.WriteDevice? && (f.device.None? || f.device.value !in h.devices
                                   || h.devices[f.device.value].gateway != Some(i.gateway)
                                   || h.devices[f.device.value].team != i.team)
    case CanonicalTargetInvalid => i.operation.WriteDevice? && i.key == ""
    case GatewayReadinessStale =>
      i.operation.WriteDevice? && !(g.policyLoaded && g.epoch == i.epoch && g.policyRevision == i.policyRevision
                                    && g.clockReady && g.journalReady && g.storageHealthy)
    case GovernanceChanged =>
      i.operation.WriteDevice? && f.device.Some? && f.device.value in h.devices
      && !Governed(h, i, f.device.value)
    case CommissioningExpired =>
      i.operation.WriteDevice? && f.device.Some? && !UnexpiredEnvelope(h, i, f.device.value)
    case ActivationExpired =>
      i.operation.WriteDevice? && f.device.Some?
      && var ak := ActivationKey(f.device.value, i.key, i.epoch);
         ak in h.plane.activations && h.plane.activations[ak].expiresAt <= h.now
    case _ => false
  }

  lemma RefusalTellsWhy(h: Hub, f: CommandFile)
    requires f.intent.team in h.plane.teams && f.intent.gateway in h.gateways && Revalidation(h, f).Some?
    ensures RefusalHolds(h, f, Revalidation(h, f).value)
  {
    hide RecordsInForce, Governed, EnvelopeInForce, UnexpiredEnvelope;
    if f.device.Some? && f.device.value in h.devices {
      GovernedExactly(h, f, f.device.value);
      GovernedActivation(h, f.intent, f.device.value);
      EnvelopeExactly(h, f, f.device.value);
    }
  }

  // ------------------------------------------------------------ admitted requests

  /** What a request needs to be stored queued or awaiting approval. */
  predicate Admissible(h: Hub, r: Request)
    requires WellTargeted(h, r)
  {
    var g := h.gateways[r.gateway];
    && !g.quarantined
    && (r.source.UserSource? ==> r.permitted)
    && (NeedsClock(r.operation) ==> g.clockReady)
    && (StateChanging(r.operation) ==> h.plane.teams[g.team].mode == Controlled && g.capable)
    && (DeviceRequired(r.operation) ==> r.resolution.None?)
    && (r.operation.WriteDevice? ==> r.terms.Granted? && KeyEnabled(h, r))
  }

  /** The scope of the exact device key is enabled in the team's current epoch. */
  predicate KeyEnabled(h: Hub, r: Request)
    requires WellTargeted(h, r) && r.device.Some?
  {
    var team := h.gateways[r.gateway].team;
    var sk := ScopeKey(team, h.devices[r.device.value].site, r.gateway, r.device.value, r.key);
    sk in h.plane.scopes && h.plane.scopes[sk].mode == Enabled && h.plane.scopes[sk].epoch == h.plane.teams[team].epoch
  }

  lemma AdmissionExactly(h: Hub, r: Request)
    requires WellTargeted(h, r)
    ensures RequestDenial(h, r).None? <==> Admissible(h, r)
  {
  }

  /** A denial names a check that failed, unless it passes on the code of the register
      resolution or of the governance rows. */
  lemma DenialTellsWhy(h: Hub, r: Request)
    requires WellTargeted(h, r) && RequestDenial(h, r).Some?
    ensures var g := h.gateways[r.gateway];
            var code := RequestDenial(h, r).value;
            || (DeviceRequired(r.operation) && r.resolution == Some(code))
            || (r.operation.WriteDevice? && r.terms == Withheld(code))
            || match code
               case GatewayQuarantined => g.quarantined
               case PermissionDenied => r.source.UserSource? && !r.permitted
               case GatewayClockNotReady => NeedsClock(r.operation) && !g.clockReady
               case MonitoringOnly => StateChanging(r.operation) && h.plane.teams[g.team].mode != Controlled
               case CapabilityMissing => StateChanging(r.operation) && !g.capable
               case ActivationMissing => r.operation.WriteDevice? && !KeyEnabled(h, r)
               case _ => false
  {
  }

  predicate AsksApproval(r: Request) {
    r.operation.WriteDevice? && r.terms.Granted? && r.terms.approvalRequired
  }

  lemma StoredByRequest(cfg: Settings, h: Hub, r: Request)
    requires WellTargeted(h, r)
    ensures var asked := Do(cfg, h, RequestCommand(r));
            && r.id in asked.commands && asked.commands[r.id] == StoredCommand(cfg, h, r) && asked.plane == h.plane
  {
    hide StoredCommand, NextSequence, WellTargeted;
  }

  /** What a new command looks like for any policy decision. */
  lemma NewFileShape(
    cfg: Settings, intent: Intent, device: Option<DeviceId>, denial: Option<Denial>, approvalRequired: bool,
    currentValue: Option<string>, now: nat)
    ensures
      var f := NewFile(cfg, intent, device, denial, approvalRequired, currentValue, now);
      && f.intent == intent && f.device == device && f.attempts == []
      && f.status == (if denial.Some? then PolicyDenied else if approvalRequired then AwaitingApproval else Queued)
      && (f.outbox.Some? <==> f.status == Queued) && (f.approval.Some? <==> f.status == AwaitingApproval)
      && (f.outbox.Some? ==> RowDue(f, now) && f.outbox.value.attemptCount == 0)
      && (f.approval.Some? ==> f.approval.value.status == ApprovalPending
                               && f.approval.value.expiresAt <= intent.expiresAt
                               && f.approval.value.expiresAt <= now + 900)
      && (denial.Some? ==> f.errorCode == denial.value.code) && f.transport == RequestAccepted && |f.events| == 1
  {
    hide NextEvent;
  }

  /** A request is stored denied with nothing to dispatch, awaiting approval with nothing to
      dispatch yet, or queued and due at once. */
  lemma RequestStatus(cfg: Settings, h: Hub, r: Request)
    requires WellTargeted(h, r)
    ensures
      var asked := Do(cfg, h, RequestCommand(r));
      && r.id in asked.commands
      && var f := asked.commands[r.id];
         && f.attempts == []
         && f.status == (if !Admissible(h, r) then PolicyDenied else if AsksApproval(r) then AwaitingApproval else Queued)
         && (f.outbox.Some? <==> f.status == Queued) && (f.approval.Some? <==> f.status == AwaitingApproval)
         && (f.outbox.Some? ==> RowDue(f, h.now) && f.outbox.value.attemptCount == 0)
         && (f.approval.Some? ==> f.approval.value.status == ApprovalPending
                                  && f.approval.value.expiresAt <= f.intent.expiresAt
                                  && f.approval.value.expiresAt <= h.now + 900)
         && (!Admissible(h, r) ==> Some(f.errorCode) == RequestDenial(h, r))
  {
    hide Do, RequestDenial, NewFile, ValueOf, IntentOf, WellTargeted, TermsOf, Admissible, RowDue;
    StoredByRequest(cfg, h, r);
    AdmissionExactly(h, r);
    if Admissible(h, r) {
      TermsInForce(h, r);
    }
    TermsGranted(h, r);
    var denial := RequestDenial(h, r);
    NewFileShape(cfg, IntentOf(h, r), r.device,
                 if denial.Some? then Some(Denial(denial.value, cfg.explain(denial.value))) else None,
                 TermsOf(h, r).approvalRequired, ValueOf(h, r.device, r.key), h.now);
  }

  /** It is bound to the Gateway's team, the team's current epoch, the next number of its device and,
      for a write with an effective envelope, the granted revisions; it lives for the requested 5 to
      300 seconds. */
  lemma RequestBinds(cfg: Settings, h: Hub, r: Request)
    requires WellTargeted(h, r)
    ensures
      var asked := Do(cfg, h, RequestCommand(r));
      && r.id in asked.commands && asked.commands[r.id].device == r.device
      && var i := asked.commands[r.id].intent;
         var team := h.gateways[r.gateway].team;
         && i.id == r.id && i.team == team && i.gateway == r.gateway && i.requester == r.requester
         && i.operation == r.operation && i.key == r.key && i.value == r.value
         && i.epoch == h.plane.teams[team].epoch
         && h.now + 5 <= i.expiresAt <= h.now + 300 && (5 <= r.ttl <= 300 ==> i.expiresAt == h.now + r.ttl)
         && i.sequence == (if r.device.Some? && r.device.value in h.sequences then h.sequences[r.device.value] + 1 else 1)
         && var effective := r.operation.WriteDevice? && r.resolution.None? && r.terms.Granted?
                             && h.plane.teams[team].mode == Controlled && KeyEnabled(h, r);
            if effective then
              && i.templateRevision == r.terms.templateRevision
              && i.commissioningRevision == r.terms.commissioningRevision
              && i.policyRevision == r.terms.policyRevision && i.policyChecksum == r.terms.policyChecksum
            else
              i.templateRevision == 0 && i.commissioningRevision == 0 && i.policyRevision == 0 && i.policyChecksum == ""
  {
    hide Do, RequestDenial, NewFile, ValueOf, KeyEnabled, KeyActivated;
    StoredByRequest(cfg, h, r);
    TermsGranted(h, r);
    EnabledMeansActivated(h, r);
    var denial := RequestDenial(h, r);
    NewFileShape(cfg, IntentOf(h, r), r.device,
                 if denial.Some? then Some(Denial(denial.value, cfg.explain(denial.value))) else None,
                 TermsOf(h, r).approvalRequired, ValueOf(h, r.device, r.key), h.now);
  }

  lemma EnabledMeansActivated(h: Hub, r: Request)
    requires WellTargeted(h, r)
    ensures r.device.Some? ==> (KeyEnabled(h, r) <==> KeyActivated(h, ScopeOf(h, r.device.value, r.gateway, r.key)))
  {
  }

  /** A request stores a command if and only if its number is new, its operation listed, its Gateway
      and team known, and its device, where it names one or needs one, that Gateway's and team's; a
      write also names its key. Otherwise nothing changes. */
  lemma StoresExactly(cfg: Settings, h: Hub, r: Request)
    ensures
      var targeted :=
        && r.id !in h.commands && !r.operation.Unlisted?
        && r.gateway in h.gateways && h.gateways[r.gateway].team in h.plane.teams
        && (r.operation in {ReadDevice, WriteDevice} ==> r.device.Some?)
        && (r.operation == WriteDevice ==> r.key != "")
        && (r.device.Some? ==>
              r.device.value in h.devices && h.devices[r.device.value].gateway == Some(r.gateway)
              && h.devices[r.device.value].team == h.gateways[r.gateway].team);
      if targeted then r.id in Do(cfg, h, RequestCommand(r)).commands else Do(cfg, h, RequestCommand(r)) == h
  {
    hide StoredCommand, NextSequence;
  }

  lemma TermsGranted(h: Hub, r: Request)
    requires WellTargeted(h, r)
    ensures TermsOf(h, r).Granted?
  {
  }

  lemma TermsInForce(h: Hub, r: Request)
    requires WellTargeted(h, r) && Admissible(h, r)
    ensures TermsOf(h, r) == if r.operation.WriteDevice? then r.terms else Granted(0, 0, 0, "", false)
  {
  }

  /** Removing a device leaves no row of it, so no request can name it and no write of it is
      published. */
  lemma RemovedDeviceIsGone(cfg: Settings, h: Hub, d: DeviceId)
    ensures var after := Do(cfg, h, RemoveDevice(d));
            && (forall r :: WellTargeted(after, r) ==> r.device != Some(d))
            && (forall id :: id in after.commands ==> after.commands[id].device != Some(d))
            && (forall id :: id in h.commands && h.commands[id].intent.operation.WriteDevice?
                             && h.commands[id].device == Some(d) ==>
                               !OpensAttempt(cfg, after, id))
  {
    hide Do, WellTargeted, OpensAttempt, CommandModel.Apply;
    var after := Do(cfg, h, RemoveDevice(d));
    RemovalRows(cfg, h, d);
    forall r | WellTargeted(after, r) ensures r.device != Some(d) {
      TargetsStoredDevice(after, r);
    }
    forall id | id in h.commands && h.commands[id].intent.operation.WriteDevice? && h.commands[id].device == Some(d)
      ensures !OpensAttempt(cfg, after, id)
    {
      CommandKept(cfg, h, RemoveDevice(d), id);
      OpensExactly(cfg, after, id);
    }
  }

  lemma RemovalRows(cfg: Settings, h: Hub, d: DeviceId)
    ensures d !in Do(cfg, h, RemoveDevice(d)).devices
    ensures forall id :: id in Do(cfg, h, RemoveDevice(d)).commands ==>
                           Do(cfg, h, RemoveDevice(d)).commands[id].device != Some(d)
  {
    hide NextEvent;
  }

  lemma TargetsStoredDevice(h: Hub, r: Request)
    requires WellTargeted(h, r)
    ensures r.device.Some? ==> r.device.value in h.devices
  {
  }

  // --------------------------------------------------- the numbers of a device's commands

  /** The commands of one device carry different numbers, none above the last one given out. */
  ghost predicate Sequenced(h: Hub) {
    && (forall id :: id in h.commands && h.commands[id].device.Some? ==>
          && h.commands[id].device.value in h.sequences
          && h.commands[id].intent.sequence <= h.sequences[h.commands[id].device.value])
    && (forall a, b :: a in h.commands && b in h.commands && a != b
                       && h.commands[a].device.Some? && h.commands[a].device == h.commands[b].device ==>
                         h.commands[a].intent.sequence != h.commands[b].intent.sequence)
  }

  lemma StepKeepsDevice(cfg: Settings, f: CommandFile, step: FileStep)
    ensures CommandModel.Apply(cfg, f, step).device in {f.device, None}
  {
    hide NextEvent;
  }

  lemma CommandKept(cfg: Settings, h: Hub, a: Action, id: CommandId)
    requires id in h.commands
    ensures id in Do(cfg, h, a).commands
    ensures Do(cfg, h, a).commands[id].intent == h.commands[id].intent
    ensures Do(cfg, h, a).commands[id].device in {h.commands[id].device, None}
  {
    hide Do, CommandModel.Apply, StepOn;
    DoOnCommand(cfg, h, a, id);
    var step := StepOn(cfg, h, a, id);
    if step.Some? {
      StepExtends(cfg, h.commands[id], step.value);
      StepKeepsDevice(cfg, h.commands[id], step.value);
    }
  }

  lemma SequencesMove(cfg: Settings, h: Hub, a: Action)
    ensures Do(cfg, h, a).sequences
            == if a.RequestCommand? && WellTargeted(h, a.request) && a.request.device.Some?
               then h.sequences[a.request.device.value := NextSequence(h, a.request.device)] else h.sequences
  {
    hide StoredCommand, WellTargeted, NextSequence, ClaimStep, CommandModel.Apply;
  }

  /** A stored command after a transaction: the same one, or the one just requested. */
  lemma CommandAfter(cfg: Settings, h: Hub, a: Action, id: CommandId)
    requires id in Do(cfg, h, a).commands
    ensures var f := Do(cfg, h, a).commands[id];
            if id in h.commands then f.intent == h.commands[id].intent && f.device in {h.commands[id].device, None}
            else a.RequestCommand? && a.request.id == id && WellTargeted(h, a.request) && f.device == a.request.device
                 && f.intent.sequence == NextSequence(h, a.request.device)
  {
    hide Do, StoredCommand, CommandModel.Apply, WellTargeted, NextSequence;
    if id in h.commands {
      CommandKept(cfg, h, a, id);
    } else {
      CommandsEnterByRequest(cfg, h, a, id);
      RequestNumber(cfg, h, a.request);
    }
  }

  /** One command may be added, with the next number of its device; the others keep theirs. */
  lemma SequencedWith(h: Hub, g: Hub, added: CommandId, device: Option<DeviceId>)
    requires Sequenced(h)
    requires forall id :: id in g.commands && id in h.commands ==>
               g.commands[id].intent == h.commands[id].intent && g.commands[id].device in {h.commands[id].device, None}
    requires forall id :: id in g.commands && id !in h.commands ==>
               id == added && g.commands[id].device == device && g.commands[id].intent.sequence == NextSequence(h, device)
    requires g.sequences == (if device.Some? then h.sequences[device.value := NextSequence(h, device)] else h.sequences)
    ensures Sequenced(g)
  {
  }

  lemma StepKeepsSequenced(cfg: Settings, h: Hub, a: Action)
    requires Sequenced(h)
    ensures Sequenced(Do(cfg, h, a))
  {
    hide Do, StoredCommand, WellTargeted, Sequenced, NextSequence;
    var g := Do(cfg, h, a);
    SequencesMove(cfg, h, a);
    forall id | id in g.commands
      ensures id in h.commands ==> g.commands[id].intent == h.commands[id].intent
                                   && g.commands[id].device in {h.commands[id].device, None}
      ensures id !in h.commands ==> a.RequestCommand? && a.request.id == id && WellTargeted(h, a.request)
                                    && g.commands[id].device == a.request.device
                                    && g.commands[id].intent.sequence == NextSequence(h, a.request.device)
    {
      CommandAfter(cfg, h, a, id);
    }
    if a.RequestCommand? && WellTargeted(h, a.request) {
      SequencedWith(h, g, a.request.id, a.request.device);
    } else {
      SequencedWith(h, g, 0, None);
    }
  }

  lemma RequestNumber(cfg: Settings, h: Hub, r: Request)
    requires WellTargeted(h, r)
    ensures StoredCommand(cfg, h, r).device == r.device
    ensures StoredCommand(cfg, h, r).intent.sequence == NextSequence(h, r.device)
  {
    hide RequestDenial, NextEvent, ValueOf, NextSequence, WellTargeted, TermsOf;
  }

  /** Over every run of a Hub that starts without commands, no two commands of one device have
      the same number. */
  lemma {:induction false} CommandsNumbered(cfg: Settings, start: Hub, actions: seq<Action>)
    requires start.commands == map[]
    ensures Sequenced(Play(cfg, start, actions))
  {
    hide Do, Sequenced;
    if actions == [] {
      NoneSequenced(start);
    } else {
      CommandsNumbered(cfg, start, Front(actions));
      StepKeepsSequenced(cfg, Play(cfg, start, Front(actions)), Last(actions));
    }
  }

  lemma NoneSequenced(h: Hub)
    requires h.commands == map[]
    ensures Sequenced(h)
  {
  }
}
