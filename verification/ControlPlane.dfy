/** The Hub around the commands: team modes and epochs, activated device keys, Gateway
    readiness, and every transaction that changes them or dispatches through them. */
module ControlPlane {

  import opened Common
  import opened CommandModel

  // ------------------------------------------------ teams, scopes, activations

  datatype Mode = MonitoringOnlyMode | Controlled | LockedDown

  datatype Team = Team(mode: Mode, epoch: nat)

  type SiteId = nat

  datatype ScopeKey = ScopeKey(team: TeamId, site: SiteId, gateway: GatewayId, device: DeviceId, key: string)

  datatype ScopeMode = Enabled | Suspended

  datatype Scope = Scope(mode: ScopeMode, epoch: nat)

  datatype ActivationKey = ActivationKey(device: DeviceId, key: string, epoch: nat)

  datatype ActivationStatus = ActivationActive | ActivationSuspended | ActivationLapsed

  datatype Activation = Activation(team: TeamId, status: ActivationStatus, expiresAt: nat)

  datatype Device = Device(team: TeamId, site: SiteId, gateway: Option<GatewayId>, template: Option<nat>)

  datatype Plane = Plane(
    teams: map<TeamId, Team>, scopes: map<ScopeKey, Scope>, activations: map<ActivationKey, Activation>)

  const ACTIVATION_SECONDS: nat := 365 * 86400

  function Suspend(s: Scope): Scope {
    s.(mode := Suspended)
  }

  function SuspendActivation(a: Activation): Activation {
    if a.status == ActivationActive then a.(status := ActivationSuspended) else a
  }

  /** activate_control_key once its readiness evidence holds. The uniqueness of a device
      key's activation per epoch makes a second activation in the same epoch fail. */
  predicate ActivationAccepted(p: Plane, sk: ScopeKey, ready: bool) {
    && ready && sk.team in p.teams
    && ActivationKey(sk.device, sk.key, p.teams[sk.team].epoch) !in p.activations
  }

  function ActivateKey(p: Plane, sk: ScopeKey, ready: bool, now: nat): Plane {
    if !ActivationAccepted(p, sk, ready) then p
    else
      var epoch := p.teams[sk.team].epoch;
      Plane(p.teams[sk.team := p.teams[sk.team].(mode := Controlled)],
            p.scopes[sk := Scope(Enabled, epoch)],
            p.activations[ActivationKey(sk.device, sk.key, epoch)
                          := Activation(sk.team, ActivationActive, now + ACTIVATION_SECONDS)])
  }

  /** The boundary an emergency disable names; no part given means the whole team. */
  datatype Boundary = Boundary(site: Option<SiteId>, gateway: Option<GatewayId>, device: Option<DeviceId>)

  predicate Whole(b: Boundary) {
    b.site.None? && b.gateway.None? && b.device.None?
  }

  predicate ScopeWithin(b: Boundary, sk: ScopeKey) {
    && (b.site.Some? ==> sk.site == b.site.value)
    && (b.gateway.Some? ==> sk.gateway == b.gateway.value)
    && (b.device.Some? ==> sk.device == b.device.value)
  }

  predicate DeviceWithin(b: Boundary, id: DeviceId, devices: map<DeviceId, Device>) {
    && (b.device.Some? ==> id == b.device.value)
    && (b.site.Some? || b.gateway.Some? ==> id in devices)
    && (b.site.Some? ==> devices[id].site == b.site.value)
    && (b.gateway.Some? ==> devices[id].gateway == b.gateway)
  }

  function EmergencyDisable(p: Plane, team: TeamId, b: Boundary, devices: map<DeviceId, Device>): Plane {
    if team !in p.teams then p
    else
      var t := p.teams[team];
      Plane(p.teams[team := Team(if Whole(b) then LockedDown else t.mode, t.epoch + 1)],
            map sk | sk in p.scopes ::
              if sk.team == team && ScopeWithin(b, sk) then Suspend(p.scopes[sk]) else p.scopes[sk],
            map ak | ak in p.activations ::
              if p.activations[ak].team == team && DeviceWithin(b, ak.device, devices)
              then SuspendActivation(p.activations[ak]) else p.activations[ak])
  }

  /** rollback_policy_as_new_epoch */
  function RollBack(p: Plane, team: TeamId): Plane {
    if team !in p.teams then p
    else
      Plane(p.teams[team := Team(MonitoringOnlyMode, p.teams[team].epoch + 1)],
            map sk | sk in p.scopes :: if sk.team == team then Suspend(p.scopes[sk]) else p.scopes[sk],
            map ak | ak in p.activations ::
              if p.activations[ak].team == team then SuspendActivation(p.activations[ak]) else p.activations[ak])
  }

  /** disaster_recovery_control_reset on teams, scopes and activations. */
  function LockAll(p: Plane): Plane {
    Plane(map t | t in p.teams :: Team(LockedDown, p.teams[t].epoch + 1),
          map sk | sk in p.scopes :: Suspend(p.scopes[sk]),
          map ak | ak in p.activations :: SuspendActivation(p.activations[ak]))
  }

  /** Automatic suspension of one device key after a verification mismatch. */
  function SuspendKey(p: Plane, team: TeamId, device: DeviceId, key: string): Plane {
    p.(scopes := map sk | sk in p.scopes ::
         if sk.team == team && sk.device == device && sk.key == key then Suspend(p.scopes[sk]) else p.scopes[sk],
       activations := map ak | ak in p.activations ::
         if p.activations[ak].team == team && ak.device == device && ak.key == key
         then SuspendActivation(p.activations[ak]) else p.activations[ak])
  }

  /** The annual expiry of an activation. */
  function LapseActivation(p: Plane, ak: ActivationKey, now: nat): Plane {
    if ak !in p.activations || p.activations[ak].status != ActivationActive || p.activations[ak].expiresAt > now
    then p
    else
      var team := p.activations[ak].team;
      Plane(p.teams,
            map sk | sk in p.scopes ::
              if sk.team == team && sk.device == ak.device && sk.key == ak.key
              then Suspend(p.scopes[sk]) else p.scopes[sk],
            p.activations[ak := p.activations[ak].(status := ActivationLapsed)])
  }

  // --------------------------------------------------------------- the Hub

  /** What a Gateway last advertised; quarantined means release_pending or released. */
  datatype Gateway = Gateway(
    team: TeamId, quarantined: bool, capable: bool, policyLoaded: bool, epoch: nat, policyRevision: nat,
    clockReady: bool, journalReady: bool, storageHealthy: bool)

  datatype Definition = Definition(template: nat, key: string, revision: nat)

  datatype Envelope = Envelope(team: TeamId, device: DeviceId, key: string, revision: nat, expiresAt: Option<nat>)

  datatype Policy = Policy(
    team: TeamId, gateway: GatewayId, device: DeviceId, key: string, revision: nat, checksum: string)

  /** The rows in force: verified enabled definitions, active envelopes, enabled policies. */
  datatype Governance = Governance(definitions: set<Definition>, envelopes: set<Envelope>, policies: set<Policy>)

  datatype Hub = Hub(
    now: nat, plane: Plane, gateways: map<GatewayId, Gateway>, devices: map<DeviceId, Device>,
    governance: Governance, values: map<(DeviceId, string), string>,
    sequences: map<DeviceId, nat>, commands: map<CommandId, CommandFile>)

  // ----------------------------------------------------------------- requests

  datatype Source = UserSource | AutomationSource | SystemSource | SupportSource

  /** What the customer's rows grant once the key's scope is active: the revisions the
      command is bound to, or the code of the check that failed. */
  datatype Terms =
    | Granted(templateRevision: nat, commissioningRevision: nat, policyRevision: nat, policyChecksum: string,
              approvalRequired: bool)
    | Withheld(code: Code)

  datatype Request = Request(
    id: CommandId, gateway: GatewayId, operation: Operation, requester: Option<UserId>, source: Source,
    permitted: bool, device: Option<DeviceId>, key: string, value: string, ttl: int,
    resolution: Option<Code>, terms: Terms)

  /** The request names a stored command only if none of the source's up-front checks raises. */
  predicate WellTargeted(h: Hub, r: Request) {
    && r.id !in h.commands
    && !r.operation.Unlisted?
    && r.gateway in h.gateways
    && h.gateways[r.gateway].team in h.plane.teams
    && (DeviceRequired(r.operation) ==> r.device.Some?)
    && (r.operation.WriteDevice? ==> r.key != "")
    && (r.device.Some? ==>
          && r.device.value in h.devices
          && h.devices[r.device.value].team == h.gateways[r.gateway].team
          && h.devices[r.device.value].gateway == Some(r.gateway))
  }

  function ScopeOf(h: Hub, device: DeviceId, gateway: GatewayId, key: string): ScopeKey
    requires device in h.devices
  {
    ScopeKey(h.devices[device].team, h.devices[device].site, gateway, device, key)
  }

  /** The scope check of effective_control_envelope. */
  predicate KeyActivated(h: Hub, sk: ScopeKey) {
    && sk.team in h.plane.teams
    && sk in h.plane.scopes
    && h.plane.scopes[sk] == Scope(Enabled, h.plane.teams[sk.team].epoch)
  }

  /** The policy decision of a request: the first refusal in the order of the source. */
  function RequestDenial(h: Hub, r: Request): Option<Code>
    requires WellTargeted(h, r)
  {
    var gateway := h.gateways[r.gateway];
    var mode := h.plane.teams[gateway.team].mode;
    if gateway.quarantined then Some(GatewayQuarantined)
    else if r.source.UserSource? && !r.permitted then Some(PermissionDenied)
    else if NeedsClock(r.operation) && !gateway.clockReady then Some(GatewayClockNotReady)
    else if StateChanging(r.operation) && mode != Controlled then Some(MonitoringOnly)
    else if StateChanging(r.operation) && !gateway.capable then Some(CapabilityMissing)
    else if r.device.None? || !DeviceRequired(r.operation) then None
    else if r.resolution.Some? then r.resolution
    else if r.operation.ReadDevice? then None
    else if !KeyActivated(h, ScopeOf(h, r.device.value, r.gateway, r.key)) then Some(ActivationMissing)
    else if r.terms.Withheld? then Some(r.terms.code)
    else None
  }

  /** The terms a stored command carries: only an effective write envelope has any. */
  function TermsOf(h: Hub, r: Request): Terms
    requires WellTargeted(h, r)
  {
    if && r.operation.WriteDevice? && r.resolution.None? && r.terms.Granted?
       && h.plane.teams[h.gateways[r.gateway].team].mode == Controlled
       && KeyActivated(h, ScopeOf(h, r.device.value, r.gateway, r.key))
    then r.terms else Granted(0, 0, 0, "", false)
  }

  function ValueOf(h: Hub, device: Option<DeviceId>, key: string): Option<string> {
    if device.Some? && (device.value, key) in h.values then Some(h.values[(device.value, key)]) else None
  }

  function NextSequence(h: Hub, device: Option<DeviceId>): nat {
    if device.Some? && device.value in h.sequences then h.sequences[device.value] + 1 else 1
  }

  function Lifetime(ttl: int): nat {
    Max(5, Min(ttl, 300))
  }

  /** What a request fixes for good. */
  function IntentOf(h: Hub, r: Request): Intent
    requires WellTargeted(h, r)
  {
    var team := h.gateways[r.gateway].team;
    var terms := TermsOf(h, r);
    Intent(r.id, team, r.gateway, r.requester, r.operation, r.key, r.value,
           h.plane.teams[team].epoch, terms.templateRevision, terms.commissioningRevision,
           terms.policyRevision, terms.policyChecksum, NextSequence(h, r.device), h.now + Lifetime(r.ttl))
  }

  function StoredCommand(cfg: Settings, h: Hub, r: Request): CommandFile
    requires WellTargeted(h, r)
  {
    var denial := RequestDenial(h, r);
    NewFile(cfg, IntentOf(h, r), r.device,
            if denial.Some? then Some(Denial(denial.value, cfg.explain(denial.value))) else None,
            TermsOf(h, r).approvalRequired, ValueOf(h, r.device, r.key), h.now)
  }

  // ---------------------------------------------------- dispatch revalidation

  predicate ScopeInForce(h: Hub, f: CommandFile, device: DeviceId) {
    exists sk :: && sk in h.plane.scopes && sk.team == f.intent.team && sk.gateway == f.intent.gateway
                 && sk.device == device && sk.key == f.intent.key
                 && h.plane.scopes[sk] == Scope(Enabled, f.intent.epoch)
  }

  predicate EnvelopeInForce(h: Hub, f: CommandFile, device: DeviceId, unexpired: bool) {
    exists e :: && e in h.governance.envelopes && e.team == f.intent.team && e.device == device
                && e.key == f.intent.key && e.revision == f.intent.commissioningRevision
                && (unexpired && e.expiresAt.Some? ==> h.now < e.expiresAt.value)
  }

  predicate RecordsInForce(h: Hub, f: CommandFile, device: DeviceId)
    requires device in h.devices
  {
    var i := f.intent;
    var ak := ActivationKey(device, i.key, i.epoch);
    && ScopeInForce(h, f, device)
    && h.devices[device].template.Some?
    && Definition(h.devices[device].template.value, i.key, i.templateRevision) in h.governance.definitions
    && EnvelopeInForce(h, f, device, false)
    && Policy(i.team, i.gateway, device, i.key, i.policyRevision, i.policyChecksum) in h.governance.policies
    && ak in h.plane.activations && h.plane.activations[ak].team == i.team
    && h.plane.activations[ak].status == ActivationActive
  }

  predicate GatewayReady(g: Gateway, i: Intent) {
    && g.policyLoaded && g.epoch == i.epoch && g.policyRevision == i.policyRevision
    && g.clockReady && g.journalReady && g.storageHealthy
  }

  /** _dispatch_revalidation_error, in the order of its checks. */
  function Revalidation(h: Hub, f: CommandFile): Option<Code>
    requires f.intent.team in h.plane.teams && f.intent.gateway in h.gateways
  {
    var i := f.intent;
    var team := h.plane.teams[i.team];
    var gateway := h.gateways[i.gateway];
    if i.operation.Unlisted? then Some(UnsupportedOperation)
    else if i.expiresAt <= h.now then Some(CommandExpired)
    else if StateChanging(i.operation) && team.mode != Controlled then Some(RemoteControlRevoked)
    else if StateChanging(i.operation) && i.epoch != team.epoch then Some(ControlEpochChanged)
    else if StateChanging(i.operation) && !gateway.capable then Some(CapabilityMissing)
    else if !i.operation.WriteDevice? then None
    else if || f.device.None? || f.device.value !in h.devices
            || h.devices[f.device.value].gateway != Some(i.gateway)
            || h.devices[f.device.value].team != i.team then Some(DeviceIdentityChanged)
    else if i.key == "" then Some(CanonicalTargetInvalid)
    else if !GatewayReady(gateway, i) then Some(GatewayReadinessStale)
    else if !RecordsInForce(h, f, f.device.value) then Some(GovernanceChanged)
    else if !EnvelopeInForce(h, f, f.device.value, true) then Some(CommissioningExpired)
    else if h.plane.activations[ActivationKey(f.device.value, i.key, i.epoch)].expiresAt <= h.now
    then Some(ActivationExpired)
    else None
  }

  // ---------------------------------------------------------- every transaction

  datatype Action =
    | Tick(seconds: nat)
    | RequestCommand(request: Request)
    | ApproveCommand(id: CommandId, context: ApprovalContext)
    | ReportProgress(id: CommandId, to: Status, kind: EventKind, evidence: Evidence, updates: Updates)
    | ReportMismatch(id: CommandId, text: string)
    | ClaimOutbox(id: CommandId)
    | RecordAttempt(id: CommandId, attempt: nat, outcome: Outcome)
    | Activate(scope: ScopeKey, ready: bool)
    | Disable(team: TeamId, boundary: Boundary)
    | Rollback(team: TeamId)
    | RecoverHub(reason: string)
    | Lapse(activation: ActivationKey)
    | GatewayReport(gateway: GatewayId, report: Gateway)
    | PlaceDevice(device: DeviceId, row: Device)
    | RemoveDevice(device: DeviceId)
    | Govern(governance: Governance)
    | Telemetry(device: DeviceId, key: string, value: string)

  /** The step ClaimOutbox is for the command's file: the verdict of the revalidation. */
  function ClaimStep(cfg: Settings, h: Hub, f: CommandFile): FileStep
    requires f.intent.team in h.plane.teams && f.intent.gateway in h.gateways
  {
    var code := Revalidation(h, f);
    DispatchClaim(if code.Some? then Some(Denial(code.value, cfg.explain(code.value))) else None, h.now)
  }

  function OnFile(cfg: Settings, h: Hub, id: CommandId, step: FileStep): Hub {
    if id !in h.commands then h
    else h.(commands := h.commands[id := CommandModel.Apply(cfg, h.commands[id], step)])
  }

  function Do(cfg: Settings, h: Hub, a: Action): Hub {
    match a
    case Tick(seconds) => h.(now := h.now + seconds)
    case RequestCommand(r) =>
      if !WellTargeted(h, r) then h
      else
        var stored := h.(commands := h.commands[r.id := StoredCommand(cfg, h, r)]);
        if r.device.None? then stored
        else stored.(sequences := h.sequences[r.device.value := NextSequence(h, r.device)])
    case ApproveCommand(id, c) =>
      if id !in h.commands then h
      else
        var current := ValueOf(h, h.commands[id].device, h.commands[id].intent.key);
        OnFile(cfg, h, id, ApprovalDecision(c.(currentValue := current), h.now))
    case ReportProgress(id, to, kind, evidence, u) => OnFile(cfg, h, id, LifecycleReport(to, kind, evidence, u))
    case ReportMismatch(id, text) =>
      if id !in h.commands || h.commands[id].device.None? then h
      else
        var f := h.commands[id];
        OnFile(cfg, h.(plane := SuspendKey(h.plane, f.intent.team, f.device.value, f.intent.key)), id,
               Annotation(Lifecycle("control_key_auto_suspended"), text))
    case ClaimOutbox(id) =>
      if || id !in h.commands || h.commands[id].intent.team !in h.plane.teams
         || h.commands[id].intent.gateway !in h.gateways then h
      else OnFile(cfg, h, id, ClaimStep(cfg, h, h.commands[id]))
    case RecordAttempt(id, n, outcome) => OnFile(cfg, h, id, WorkerRecord(n, outcome, h.now))
    case Activate(sk, ready) =>
      if sk.device in h.devices && ScopeOf(h, sk.device, sk.gateway, sk.key) == sk
         && h.devices[sk.device].gateway == Some(sk.gateway)
      then h.(plane := ActivateKey(h.plane, sk, ready, h.now)) else h
    case Disable(team, b) => h.(plane := EmergencyDisable(h.plane, team, b, h.devices))
    case Rollback(team) => h.(plane := RollBack(h.plane, team))
    case RecoverHub(reason) =>
      h.(plane := LockAll(h.plane),
         commands := map id | id in h.commands :: CommandModel.Apply(cfg, h.commands[id], DisasterReset(reason)))
    case Lapse(ak) => h.(plane := LapseActivation(h.plane, ak, h.now))
    case GatewayReport(g, row) => h.(gateways := h.gateways[g := row])
    case PlaceDevice(d, row) => h.(devices := h.devices[d := row])
    case RemoveDevice(d) =>
      h.(devices := h.devices - {d},
         plane := h.plane.(scopes := map sk | sk in h.plane.scopes && sk.device != d :: h.plane.scopes[sk],
                           activations := map ak | ak in h.plane.activations && ak.device != d
                                            :: h.plane.activations[ak]),
         commands := map id | id in h.commands ::
           if h.commands[id].device == Some(d) then CommandModel.Apply(cfg, h.commands[id], DeviceRemoval)
           else h.commands[id])
    case Govern(governance) => h.(governance := governance)
    case Telemetry(d, key, value) => h.(values := h.values[(d, key) := value])
  }

  function Play(cfg: Settings, h: Hub, actions: seq<Action>): Hub {
    if actions == [] then h else Do(cfg, Play(cfg, h, Front(actions)), Last(actions))
  }
}
