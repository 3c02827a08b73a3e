/** One governed remote command and everything stored beside it: its status, its
    outbox row, its transport attempts, its approval and its hash-chained event
    log. Each function below is the effect of one database transaction of
    apps/devices/remote_control.py (or of the approval and recovery modules) on
    that one command. */
module CommandModel {

  import opened Common

  // --------------------------------------------------------------- catalogue

  datatype Operation =
    | Ping | GetStatus | GetDevices | GetConfigStatus
    | NetworkPreflight | HardwarePreflight | PrivilegePreflight
    | ScanDevices | DeploymentPreflight | DeploymentDiscover | DeploymentValidate
    | ReadDevice | WriteDevice
    | RestartConnector | RestartAll | SetLogLevel | Reboot | UpdateFirmware
    | Unlisted(name: string)

  /** COMMAND_CATALOG's state_changing column. */
  predicate StateChanging(op: Operation) {
    || op.WriteDevice? || op.RestartConnector? || op.RestartAll? || op.SetLogLevel?
    || op.Reboot? || op.UpdateFirmware?
  }

  predicate DeviceRequired(op: Operation) {
    op.ReadDevice? || op.WriteDevice?
  }

  /** Operations refused while the Gateway clock is not synchronised. */
  predicate NeedsClock(op: Operation) {
    op.ScanDevices? || op.DeploymentPreflight? || op.DeploymentDiscover? || op.DeploymentValidate?
  }

  // ---------------------------------------------------------------- statuses

  datatype Status =
    | Requested | AwaitingApproval | Approved | Queued | Dispatching
    | PublishAccepted | OutcomeUnknown | BrokerAcknowledged
    | GatewayReceived | Executing | FieldProtocolAccepted | ActionInitiated
    | VerificationPending | Verified | ActionCompleted
    | PolicyDenied | Rejected | Failed | Expired | TimedOut | Cancelled
    | ReconciledVerified | ReconciledNotApplied | ReconciledUnresolved

  function Rank(s: Status): nat {
    match s
    case Requested => 0
    case AwaitingApproval => 1
    case Approved => 2
    case Queued => 3
    case Dispatching => 4
    case PublishAccepted | OutcomeUnknown => 5
    case BrokerAcknowledged => 6
    case GatewayReceived => 7
    case Executing => 8
    case FieldProtocolAccepted | ActionInitiated => 9
    case VerificationPending => 10
    case Verified | ActionCompleted => 11
    case PolicyDenied | Rejected | Failed | Expired | TimedOut | Cancelled => 100
    case ReconciledVerified | ReconciledNotApplied | ReconciledUnresolved => 110
  }

  /** The partial order of STATUS_ORDER with every ending at 100 or above counted alike. */
  function Progress(s: Status): nat {
    if Rank(s) > 100 then 100 else Rank(s)
  }

  predicate Terminal(s: Status) {
    || s.PolicyDenied? || s.Rejected? || s.Failed? || s.Expired? || s.TimedOut? || s.Cancelled?
    || s.Verified? || s.ActionCompleted?
    || s.ReconciledVerified? || s.ReconciledNotApplied? || s.ReconciledUnresolved?
  }

  /** Statuses in which a command still waits for its first publication. */
  predicate Waiting(s: Status) {
    Rank(s) <= Rank(Dispatching)
  }

  /** The targets callers of transition_command use: Gateway lifecycle stages, response
      timeouts and failures, journal reconciliation and release cancellation. */
  predicate Reportable(s: Status) {
    || s.GatewayReceived? || s.Executing? || s.FieldProtocolAccepted? || s.ActionInitiated?
    || s.Verified? || s.ActionCompleted? || s.Rejected? || s.Failed? || s.OutcomeUnknown? || s.Cancelled?
    || s.ReconciledVerified? || s.ReconciledNotApplied? || s.ReconciledUnresolved?
  }

  // -------------------------------------------------------------------- rows

  type CommandId = nat
  type TeamId = nat
  type GatewayId = nat
  type DeviceId = nat
  type UserId = nat
  type Digest = string

  /** error_code: every code the modelled transactions decide; OtherCode is any code that the
      checks behind a request's resolution and terms return. */
  datatype Code =
    | NoCode
    | UnsupportedOperation | GatewayQuarantined | PermissionDenied | GatewayClockNotReady | MonitoringOnly
    | CapabilityMissing | ActivationMissing
    | CommandExpired | RemoteControlRevoked | ControlEpochChanged
    | DeviceIdentityChanged | CanonicalTargetInvalid | GatewayReadinessStale | GovernanceChanged
    | CommissioningExpired | ActivationExpired
    | DispatchAttemptsExhausted | PublishAttemptsExhausted | PublishFailedBeforeAck | BrokerAckUnknown
    | DisasterRecoveryReset | GatewayReleased
    | OtherCode(name: string)

  const LEASES_EXHAUSTED := "Expired worker leases exhausted dispatch attempts."

  datatype EventKind =
    | PolicyDecisionDenied | ApprovalRequested | CommandQueued | CommandApproved
    | DispatchClaimed | DispatchCancelled | OutboxDeadLettered | OutboxRetryScheduled
    | AckRecorded | AckUnknownRecorded
    | Lifecycle(stage: string)

  datatype Evidence =
    | Blank
    | ForOperation(operation: Operation)
    | Denied(code: Code)
    | Refused(code: Code, message: string)
    | Claimed(attempt: nat)
    | DeadLettered(attempt: nat, error: string)
    | Rescheduled(attempt: nat, nextAttemptAt: nat, error: string)
    | Publication(requestId: nat)
    | Report(text: string)

  /** What the checksum of one event covers. A blank status is None. */
  datatype EventPayload = EventPayload(
    command: CommandId, sequence: nat, kind: EventKind, fromStatus: Option<Status>, toStatus: Option<Status>,
    actor: Option<UserId>, evidence: Evidence, previous: Digest)

  datatype Event = Event(
    sequence: nat, kind: EventKind, fromStatus: Option<Status>, toStatus: Option<Status>,
    actor: Option<UserId>, evidence: Evidence, checksum: Digest)

  datatype OutboxStatus =
    PendingDispatch | ClaimedByWorker | Published | RetryScheduled | DeadLetter | OutboxCancelled

  datatype Outbox = Outbox(
    status: OutboxStatus, attemptCount: nat, nextAttemptAt: nat, claimedAt: Option<nat>,
    leaseExpiresAt: Option<nat>, publishedAt: Option<nat>, deadLetteredAt: Option<nat>, lastError: string)

  /** transport_status */
  datatype Transport =
    | RequestAccepted | TransportDispatching | TransportAcknowledged | TransportUnknown
    | TransportRetry | TransportDead | TransportCancelled

  datatype AttemptState = Started | FailedBeforeAck | AckUnknown | AckReceived

  datatype Attempt = Attempt(
    number: nat, state: AttemptState, startedAt: nat, completedAt: Option<nat>,
    requestId: Option<nat>, error: string)

  /** The part of a command that no transaction rewrites after it is requested. */
  datatype Intent = Intent(
    id: CommandId, team: TeamId, gateway: GatewayId, requester: Option<UserId>,
    operation: Operation, key: string, value: string,
    epoch: nat, templateRevision: nat, commissioningRevision: nat, policyRevision: nat,
    policyChecksum: string, sequence: nat, expiresAt: nat)

  /** The context an approval is bound to; the source stores its checksum. */
  datatype Binding = Binding(intent: Intent, device: Option<DeviceId>, currentValue: Option<string>)

  datatype ApprovalStatus = ApprovalPending | ApprovalGranted | ApprovalInvalidated

  datatype Approval = Approval(status: ApprovalStatus, binding: Binding, expiresAt: nat, approver: Option<UserId>)

  datatype CommandFile = CommandFile(
    intent: Intent, device: Option<DeviceId>,
    status: Status, transport: Transport, execution: string, errorCode: Code, errorMessage: string,
    brokerAcknowledgedAt: Option<nat>,
    approval: Option<Approval>, outbox: Option<Outbox>, attempts: seq<Attempt>, events: seq<Event>)

  /** Deployment settings; digest stands for SHA-256 over the canonical JSON of a
      payload, explain for the operator text that goes with a denial code. */
  datatype Settings = Settings(
    maxAttempts: nat, leaseSeconds: nat, retryBase: nat, retryMax: nat,
    digest: EventPayload -> Digest, explain: Code -> string)

  datatype Denial = Denial(code: Code, message: string)

  // --------------------------------------------------------------- event log

  function NextEvent(
    cfg: Settings, command: CommandId, events: seq<Event>, kind: EventKind,
    fromStatus: Option<Status>, toStatus: Option<Status>, actor: Option<UserId>, evidence: Evidence): Event
  {
    var sequence := if events == [] then 1 else Last(events).sequence + 1;
    var previous := if events == [] then "" else Last(events).checksum;
    var payload := EventPayload(command, sequence, kind, fromStatus, toStatus, actor, evidence, previous);
    Event(sequence, kind, fromStatus, toStatus, actor, evidence, cfg.digest(payload))
  }

  function Append(
    cfg: Settings, f: CommandFile, kind: EventKind,
    fromStatus: Option<Status>, toStatus: Option<Status>, actor: Option<UserId>, evidence: Evidence): CommandFile
  {
    f.(events := f.events + [NextEvent(cfg, f.intent.id, f.events, kind, fromStatus, toStatus, actor, evidence)])
  }

  /** An event recording a move of the command's status to the one it now has. */
  function Logged(
    cfg: Settings, f: CommandFile, previous: Status, kind: EventKind, actor: Option<UserId>, evidence: Evidence)
    : CommandFile
  {
    Append(cfg, f, kind, Some(previous), Some(f.status), actor, evidence)
  }

  // ----------------------------------------------------- lifecycle transition

  /** The column updates the callers of transition_command pass along. */
  datatype Updates = NoUpdates | Stage(execution: string) | Failure(errorCode: Code, errorMessage: string)

  function WithUpdates(f: CommandFile, u: Updates): CommandFile {
    match u
    case NoUpdates => f
    case Stage(execution) => f.(execution := execution)
    case Failure(code, message) => f.(errorCode := code, errorMessage := message)
  }

  predicate TransitionAllowed(from: Status, to: Status) {
    from != to && !Terminal(from) && Rank(from) <= Rank(to)
  }

  function Transition(
    cfg: Settings, f: CommandFile, to: Status, kind: EventKind, evidence: Evidence, u: Updates): CommandFile
  {
    if f.status == to then WithUpdates(f, u)
    else if !TransitionAllowed(f.status, to) then f
    else Logged(cfg, WithUpdates(f.(status := to), u), f.status, kind, None, evidence)
  }

  // ------------------------------------------------------- request, approval

  function NewOutbox(now: nat): Outbox {
    Outbox(PendingDispatch, 0, now, None, None, None, None, "")
  }

  /** The command row a request creates. */
  function Created(
    intent: Intent, device: Option<DeviceId>, denial: Option<Denial>, approvalRequired: bool): CommandFile
  {
    CommandFile(
      intent, device,
      if denial.Some? then PolicyDenied else if approvalRequired then AwaitingApproval else Queued,
      RequestAccepted, "not_started",
      if denial.Some? then denial.value.code else NoCode, if denial.Some? then denial.value.message else "",
      None, None, None, [], [])
  }

  /** The command row and first event a request commits, whatever the policy decision. */
  function NewFile(
    cfg: Settings, intent: Intent, device: Option<DeviceId>, denial: Option<Denial>, approvalRequired: bool,
    currentValue: Option<string>, now: nat): CommandFile
  {
    var kind := if denial.Some? then PolicyDecisionDenied
                else if approvalRequired then ApprovalRequested else CommandQueued;
    var created := Created(intent, device, denial, approvalRequired);
    var logged := Logged(cfg, created, Requested, kind, intent.requester,
                         if denial.Some? then Denied(denial.value.code) else ForOperation(intent.operation));
    if denial.Some? then logged
    else if approvalRequired then
      logged.(approval := Some(Approval(ApprovalPending, Binding(intent, device, currentValue),
                                        Min(intent.expiresAt, now + 900), None)))
    else logged.(outbox := Some(NewOutbox(now)))
  }

  datatype ApprovalContext = ApprovalContext(
    approver: UserId, permitted: bool, mfa: bool, recentAuthAt: Option<nat>, currentValue: Option<string>)

  /** Every check approve_command makes, and the one-to-one constraint between a command
      and its outbox. There is no check of the command's status. */
  predicate ApprovalAccepted(f: CommandFile, c: ApprovalContext, now: nat) {
    && f.approval.Some?
    && f.outbox.None?
    && f.intent.requester != Some(c.approver)
    && c.permitted
    && now < f.approval.value.expiresAt
    && now < f.intent.expiresAt
    && c.mfa
    && c.recentAuthAt.Some? && now <= c.recentAuthAt.value + 300
    && Binding(f.intent, f.device, c.currentValue) == f.approval.value.binding
  }

  function Approve(cfg: Settings, f: CommandFile, c: ApprovalContext, now: nat): CommandFile {
    if !ApprovalAccepted(f, c, now) then f
    else
      var granted := f.approval.value.(status := ApprovalGranted, approver := Some(c.approver));
      var queued := f.(approval := Some(granted), status := Queued, outbox := Some(NewOutbox(now)));
      Logged(cfg, queued, f.status, CommandApproved, Some(c.approver), Blank)
  }

  // ---------------------------------------------------------- outbox dispatch

  predicate Claimable(o: Outbox, now: nat) {
    && (|| o.status == PendingDispatch
        || o.status == RetryScheduled
        || (o.status == ClaimedByWorker && o.leaseExpiresAt.Some? && o.leaseExpiresAt.value <= now))
    && o.nextAttemptAt <= now
  }

  /** The command once its outbox row is dead: it fails if it was still waiting. */
  function WithDeadLetter(f: CommandFile, dead: Outbox, code: Code): CommandFile {
    f.(outbox := Some(dead), status := if Waiting(f.status) then Failed else f.status,
       transport := TransportDead, errorCode := code, errorMessage := dead.lastError)
  }

  /** Leased attempts used up: the row is dead-lettered before anything is published. */
  function Exhaust(cfg: Settings, f: CommandFile, now: nat): CommandFile
    requires f.outbox.Some?
  {
    var o := f.outbox.value;
    var error := if o.lastError == "" then LEASES_EXHAUSTED else o.lastError;
    var dead := o.(status := DeadLetter, deadLetteredAt := Some(now), leaseExpiresAt := None, lastError := error);
    Logged(cfg, WithDeadLetter(f, dead, DispatchAttemptsExhausted), f.status, OutboxDeadLettered, None,
           DeadLettered(o.attemptCount, "expired_worker_lease"))
  }

  /** Revalidation refused the claim: the command is relabelled whatever its status was. */
  function Refuse(cfg: Settings, f: CommandFile, d: Denial): CommandFile
    requires f.outbox.Some?
  {
    var target := if d.code == CommandExpired then Expired else Cancelled;
    var g := f.(outbox := Some(f.outbox.value.(status := OutboxCancelled, lastError := d.message,
                                               leaseExpiresAt := None)),
                status := target, transport := TransportCancelled, errorCode := d.code, errorMessage := d.message);
    Logged(cfg, g, f.status, DispatchCancelled, None, Refused(d.code, d.message))
  }

  /** A worker takes the row under a lease and opens the next transport attempt. */
  function Open(cfg: Settings, f: CommandFile, now: nat): CommandFile
    requires f.outbox.Some?
  {
    var o := f.outbox.value;
    var n := o.attemptCount + 1;
    var leased := f.(outbox := Some(o.(status := ClaimedByWorker, claimedAt := Some(now),
                                       leaseExpiresAt := Some(now + cfg.leaseSeconds), attemptCount := n)));
    var moved := if Rank(f.status) < Rank(Dispatching)
                 then Logged(cfg, leased.(status := Dispatching), f.status, DispatchClaimed, None, Claimed(n))
                 else leased;
    moved.(transport := TransportDispatching, attempts := f.attempts + [Attempt(n, Started, now, None, None, "")])
  }

  /** The claim transaction of dispatch_outbox. */
  function Claim(cfg: Settings, f: CommandFile, denial: Option<Denial>, now: nat): CommandFile {
    if f.outbox.None? || !Claimable(f.outbox.value, now) then f
    else if f.outbox.value.attemptCount >= cfg.maxAttempts then Exhaust(cfg, f, now)
    else if denial.Some? then Refuse(cfg, f, denial.value)
    else Open(cfg, f, now)
  }

  predicate Opens(cfg: Settings, f: CommandFile, denial: Option<Denial>, now: nat) {
    && f.outbox.Some? && Claimable(f.outbox.value, now)
    && f.outbox.value.attemptCount < cfg.maxAttempts && denial.None?
  }

  datatype Outcome = Acknowledged(ackRequestId: nat) | Unknown(unknownRequestId: nat, doubt: string)
                   | NotSent(reason: string)

  /** The worker of attempt n has published and not yet recorded; it records once. */
  predicate InFlight(f: CommandFile, n: nat) {
    && f.outbox.Some? && 1 <= n <= |f.attempts| && f.attempts[n - 1].state == Started
  }

  /** The attempts once the n-th has recorded how it ended. */
  function Closed(
    attempts: seq<Attempt>, n: nat, state: AttemptState, requestId: Option<nat>, error: string, now: nat): seq<Attempt>
    requires 1 <= n <= |attempts|
  {
    attempts[n - 1 := attempts[n - 1].(state := state, requestId := requestId, error := error,
                                       completedAt := Some(now))]
  }

  function RecordAcknowledged(cfg: Settings, f: CommandFile, n: nat, requestId: nat, now: nat): CommandFile
    requires InFlight(f, n)
  {
    var g := f.(outbox := Some(f.outbox.value.(status := Published, publishedAt := Some(now),
                                               leaseExpiresAt := None)),
                status := if Rank(f.status) < Rank(BrokerAcknowledged) then BrokerAcknowledged else f.status,
                transport := TransportAcknowledged, brokerAcknowledgedAt := Some(now),
                attempts := Closed(f.attempts, n, AckReceived, Some(requestId), f.attempts[n - 1].error, now));
    Logged(cfg, g, f.status, AckRecorded, None, Publication(requestId))
  }

  function RecordUnknown(cfg: Settings, f: CommandFile, n: nat, requestId: nat, error: string, now: nat)
    : CommandFile
    requires InFlight(f, n)
  {
    var g := f.(outbox := Some(f.outbox.value.(status := Published, lastError := error, leaseExpiresAt := None)),
                status := if Rank(f.status) <= Rank(OutcomeUnknown) then OutcomeUnknown else f.status,
                transport := TransportUnknown, errorCode := BrokerAckUnknown, errorMessage := error,
                attempts := Closed(f.attempts, n, AckUnknown, Some(requestId), error, now));
    Logged(cfg, g, f.status, AckUnknownRecorded, None, Publication(requestId))
  }

  function RetryDelay(cfg: Settings, attemptCount: nat): nat {
    Min(cfg.retryMax, cfg.retryBase * Pow2(Max(0, attemptCount - 1)))
  }

  function RecordFailure(cfg: Settings, f: CommandFile, n: nat, error: string, now: nat): CommandFile
    requires InFlight(f, n)
  {
    var o := f.outbox.value;
    var closed := f.(attempts := Closed(f.attempts, n, FailedBeforeAck, f.attempts[n - 1].requestId, error, now));
    if o.attemptCount >= cfg.maxAttempts then
      var dead := o.(status := DeadLetter, lastError := error, claimedAt := None, leaseExpiresAt := None,
                     deadLetteredAt := Some(now));
      Logged(cfg, WithDeadLetter(closed, dead, PublishAttemptsExhausted), f.status, OutboxDeadLettered, None,
             DeadLettered(o.attemptCount, error))
    else
      var next := now + RetryDelay(cfg, o.attemptCount);
      var retry := o.(status := RetryScheduled, lastError := error, claimedAt := None, leaseExpiresAt := None,
                      nextAttemptAt := next);
      Logged(cfg, closed.(outbox := Some(retry), transport := TransportRetry,
                          errorCode := PublishFailedBeforeAck, errorMessage := error),
             f.status, OutboxRetryScheduled, None, Rescheduled(o.attemptCount, next, error))
  }

  /** The recording transaction of the worker of attempt n. It compares nothing with
      the current claim, so a late worker may record over a newer one. */
  function Record(cfg: Settings, f: CommandFile, n: nat, outcome: Outcome, now: nat): CommandFile {
    if !InFlight(f, n) then f
    else match outcome
      case Acknowledged(id) => RecordAcknowledged(cfg, f, n, id, now)
      case Unknown(id, doubt) => RecordUnknown(cfg, f, n, id, doubt, now)
      case NotSent(reason) => RecordFailure(cfg, f, n, reason, now)
  }

  // ----------------------------------------------------------------- recovery

  /** What the Hub-wide disaster reset does to one command: bulk updates, no event. */
  function Reset(f: CommandFile, reason: string): CommandFile {
    var stopped := if Waiting(f.status)
                   then f.(status := Cancelled, errorCode := DisasterRecoveryReset, errorMessage := reason)
                   else f;
    stopped.(
    outbox := if f.outbox.Some? && f.outbox.value.status in {PendingDispatch, ClaimedByWorker}
    then Some(f.outbox.value.(status := OutboxCancelled, lastError := reason)) else f.outbox,
    approval := if f.approval.Some? && f.approval.value.status == ApprovalPending
    then Some(f.approval.value.(status := ApprovalInvalidated)) else f.approval)
  }

  // ------------------------------------------------- one command, interleaved

  /** Every transaction that touches a stored command, with what its surroundings decide
      (clock, revalidation verdict, publish outcome) left open. */
  datatype FileStep =
    | LifecycleReport(to: Status, kind: EventKind, evidence: Evidence, updates: Updates)
    | Annotation(note: EventKind, text: string)
    | ApprovalDecision(context: ApprovalContext, approvedAt: nat)
    | DispatchClaim(denial: Option<Denial>, claimedAt: nat)
    | WorkerRecord(attempt: nat, outcome: Outcome, recordedAt: nat)
    | DisasterReset(reason: string)
    | DeviceRemoval

  function Apply(cfg: Settings, f: CommandFile, step: FileStep): CommandFile {
    match step
    case LifecycleReport(to, kind, evidence, u) => if Reportable(to) then Transition(cfg, f, to, kind, evidence, u) else f
    case Annotation(note, text) => Append(cfg, f, note, None, None, None, Report(text))
    case ApprovalDecision(context, now) => Approve(cfg, f, context, now)
    case DispatchClaim(denial, now) => Claim(cfg, f, denial, now)
    case WorkerRecord(n, outcome, now) => Record(cfg, f, n, outcome, now)
    case DisasterReset(reason) => Reset(f, reason)
    case DeviceRemoval => f.(device := None)
  }

  function Run(cfg: Settings, f: CommandFile, steps: seq<FileStep>): CommandFile {
    if steps == [] then f else Apply(cfg, Run(cfg, f, Front(steps)), Last(steps))
  }
}
