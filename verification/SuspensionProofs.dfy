/** What switches remote control off and on again: the emergency disable and its boundary, the
    rollback, the recovery, a mismatch, an expiry; and the activations that undo them. */
module SuspensionProofs {

  import opened Common
  import opened CommandModel
  import opened ControlPlane
  import opened ControlRuns
  import opened DispatchProofs

  // --------------------------------------------------------------- what changes

  /** The named parts of the boundary are this site, Gateway and device; what it does not name
      it does not restrict. */
  predicate Covers(b: Boundary, site: SiteId, gateway: Option<GatewayId>, device: DeviceId) {
    b.site in {None, Some(site)} && b.gateway in {None, gateway} && b.device in {None, Some(device)}
  }

  /** An accepted activation of this exact device key: its evidence is complete, the device
      stands where the key says, and the key was not activated in this epoch before. */
  predicate Activates(h: Hub, a: Action, sk: ScopeKey) {
    && a.Activate? && a.scope == sk && a.ready
    && sk.device in h.devices && h.devices[sk.device].team == sk.team && h.devices[sk.device].site == sk.site
    && h.devices[sk.device].gateway == Some(sk.gateway)
    && sk.team in h.plane.teams
    && ActivationKey(sk.device, sk.key, h.plane.teams[sk.team].epoch) !in h.plane.activations
  }

  predicate Lapses(h: Hub, a: Action, team: TeamId, device: DeviceId, key: string) {
    && a.Lapse? && a.activation in h.plane.activations
    && a.activation.device == device && a.activation.key == key
    && h.plane.activations[a.activation].team == team
    && h.plane.activations[a.activation].status == ActivationActive
    && h.plane.activations[a.activation].expiresAt <= h.now
  }

  predicate Mismatches(h: Hub, a: Action, team: TeamId, device: DeviceId, key: string) {
    && a.ReportMismatch? && a.id in h.commands && h.commands[a.id].device == Some(device)
    && h.commands[a.id].intent.team == team && h.commands[a.id].intent.key == key
  }

  /** The transactions that switch this device key off. */
  predicate SwitchesOff(h: Hub, a: Action, sk: ScopeKey) {
    || (a.Disable? && a.team == sk.team && sk.team in h.plane.teams
        && Covers(a.boundary, sk.site, Some(sk.gateway), sk.device))
    || (a.Rollback? && a.team == sk.team && sk.team in h.plane.teams)
    || a.RecoverHub?
    || Mismatches(h, a, sk.team, sk.device, sk.key) || Lapses(h, a, sk.team, sk.device, sk.key)
    || (a.RemoveDevice? && a.device == sk.device)
  }

  predicate On(h: Hub, sk: ScopeKey) {
    sk in h.plane.scopes && h.plane.scopes[sk].mode == Enabled
  }

  /** The transactions that leave the plane alone. */
  predicate Aside(a: Action) {
    || a.Tick? || a.RequestCommand? || a.ApproveCommand? || a.ReportProgress? || a.ClaimOutbox? || a.RecordAttempt?
    || a.GatewayReport? || a.PlaceDevice? || a.Govern? || a.Telemetry?
  }

  lemma PlaneOf(cfg: Settings, h: Hub, a: Action)
    requires Aside(a)
    ensures Do(cfg, h, a).plane == h.plane
  {
    hide StoredCommand, WellTargeted, NextSequence, ClaimStep, CommandModel.Apply, ValueOf;
  }

  lemma ActivationGuard(cfg: Settings, h: Hub, a: Action)
    requires a.Activate?
    ensures Do(cfg, h, a).plane
            == if Activates(h, a, a.scope) then ActivateKey(h.plane, a.scope, true, h.now) else h.plane
  {
  }

  /** What a mismatch does to the plane. */
  lemma MismatchPlane(cfg: Settings, h: Hub, id: CommandId, text: string)
    ensures Do(cfg, h, ReportMismatch(id, text)).plane
            == if id in h.commands && h.commands[id].device.Some?
               then SuspendKey(h.plane, h.commands[id].intent.team, h.commands[id].device.value, h.commands[id].intent.key)
               else h.plane
  {
    hide CommandModel.Apply, SuspendKey;
  }

  lemma MismatchedScopes(cfg: Settings, h: Hub, id: CommandId, text: string, sk: ScopeKey)
    ensures On(Do(cfg, h, ReportMismatch(id, text)), sk) <==> On(h, sk) && !SwitchesOff(h, ReportMismatch(id, text), sk)
  {
    hide Do, Covers;
    MismatchPlane(cfg, h, id, text);
  }

  lemma LapsedScopes(cfg: Settings, h: Hub, ak: ActivationKey, sk: ScopeKey)
    ensures On(Do(cfg, h, Lapse(ak)), sk) <==> On(h, sk) && !SwitchesOff(h, Lapse(ak), sk)
  {
    hide Covers, CommandModel.Apply;
  }

  /** A rollback, a recovery, the removal of a device. */
  lemma WideScopes(cfg: Settings, h: Hub, a: Action, sk: ScopeKey)
    requires a.Rollback? || a.RecoverHub? || a.RemoveDevice?
    ensures On(Do(cfg, h, a), sk) <==> On(h, sk) && !SwitchesOff(h, a, sk)
  {
    hide CommandModel.Apply, Covers;
  }

  lemma DisabledEnabled(cfg: Settings, h: Hub, team: TeamId, b: Boundary, sk: ScopeKey)
    ensures On(Do(cfg, h, Disable(team, b)), sk) <==> On(h, sk) && !SwitchesOff(h, Disable(team, b), sk)
  {
    hide CommandModel.Apply;
  }

  /** A device key is enabled after a transaction if and only if the transaction activates it, or
      it was enabled and the transaction does not switch it off. */
  lemma EnabledExactly(cfg: Settings, h: Hub, a: Action, sk: ScopeKey)
    ensures On(Do(cfg, h, a), sk) <==> Activates(h, a, sk) || (On(h, sk) && !SwitchesOff(h, a, sk))
  {
    hide Do, Covers;
    match a
    case Activate(_, _) => ActivatedScopes(cfg, h, a, sk);
    case Disable(team, b) => DisabledEnabled(cfg, h, team, b, sk);
    case Rollback(_) | RecoverHub(_) | RemoveDevice(_) => WideScopes(cfg, h, a, sk);
    case ReportMismatch(id, text) => MismatchedScopes(cfg, h, id, text, sk);
    case Lapse(ak) => LapsedScopes(cfg, h, ak, sk);
    case _ => PlaneOf(cfg, h, a);
  }

  lemma ActivatedScopes(cfg: Settings, h: Hub, a: Action, sk: ScopeKey)
    requires a.Activate?
    ensures On(Do(cfg, h, a), sk) <==> Activates(h, a, sk) || On(h, sk)
  {
    hide Do;
    ActivationGuard(cfg, h, a);
  }

  /** The transactions that suspend, expire or delete this activation. */
  predicate Suspends(h: Hub, a: Action, ak: ActivationKey)
    requires ak in h.plane.activations
  {
    var team := h.plane.activations[ak].team;
    || (a.Disable? && a.team == team && team in h.plane.teams
        && if ak.device in h.devices
           then Covers(a.boundary, h.devices[ak.device].site, h.devices[ak.device].gateway, ak.device)
           else a.boundary.site.None? && a.boundary.gateway.None? && a.boundary.device in {None, Some(ak.device)})
    || (a.Rollback? && a.team == team && team in h.plane.teams)
    || a.RecoverHub?
    || Mismatches(h, a, team, ak.device, ak.key)
    || (a.Lapse? && a.activation == ak && h.plane.activations[ak].expiresAt <= h.now)
    || (a.RemoveDevice? && a.device == ak.device)
  }

  predicate InForce(h: Hub, ak: ActivationKey) {
    ak in h.plane.activations && h.plane.activations[ak].status == ActivationActive
  }

  /** The activation a transaction creates. */
  predicate Creates(h: Hub, a: Action, ak: ActivationKey) {
    && a.Activate? && Activates(h, a, a.scope)
    && ak == ActivationKey(a.scope.device, a.scope.key, h.plane.teams[a.scope.team].epoch)
  }

  /** An activation is in force after a transaction if and only if the transaction creates it, or
      it was in force and the transaction does not suspend it; it lasts one year. */
  lemma InForceExactly(cfg: Settings, h: Hub, a: Action, ak: ActivationKey)
    ensures InForce(Do(cfg, h, a), ak) <==> Creates(h, a, ak) || (InForce(h, ak) && !Suspends(h, a, ak))
    ensures Creates(h, a, ak) ==> ak in Do(cfg, h, a).plane.activations
                                  && Do(cfg, h, a).plane.activations[ak].expiresAt == h.now + 365 * 24 * 3600
                                  && Do(cfg, h, a).plane.activations[ak].team == a.scope.team
    ensures SameTerms(h, Do(cfg, h, a), ak)
  {
    hide Do, Covers;
    match a
    case Activate(_, _) => ActivatedActivations(cfg, h, a, ak);
    case Disable(team, b) => DisabledActivations(cfg, h, team, b, ak);
    case Rollback(_) | RecoverHub(_) | RemoveDevice(_) => WideActivations(cfg, h, a, ak);
    case ReportMismatch(id, text) => MismatchedActivations(cfg, h, id, text, ak);
    case Lapse(lapsed) => LapsedActivations(cfg, h, lapsed, ak);
    case _ => PlaneOf(cfg, h, a);
  }

  lemma WideActivations(cfg: Settings, h: Hub, a: Action, ak: ActivationKey)
    requires a.Rollback? || a.RecoverHub? || a.RemoveDevice?
    ensures InForce(Do(cfg, h, a), ak) <==> InForce(h, ak) && !Suspends(h, a, ak)
    ensures SameTerms(h, Do(cfg, h, a), ak)
  {
    hide CommandModel.Apply, Covers;
  }

  lemma DisabledActivations(cfg: Settings, h: Hub, team: TeamId, b: Boundary, ak: ActivationKey)
    ensures var after := Do(cfg, h, Disable(team, b)).plane.activations;
            ak in after <==> ak in h.plane.activations
    ensures var after := Do(cfg, h, Disable(team, b)).plane.activations;
            ak in h.plane.activations ==>
              after[ak] == if Suspends(h, Disable(team, b), ak) && h.plane.activations[ak].status == ActivationActive
                           then h.plane.activations[ak].(status := ActivationSuspended) else h.plane.activations[ak]
  {
  }

  lemma MismatchedActivations(cfg: Settings, h: Hub, id: CommandId, text: string, ak: ActivationKey)
    ensures var a := ReportMismatch(id, text);
            && (InForce(Do(cfg, h, a), ak) <==> InForce(h, ak) && !Suspends(h, a, ak))
            && SameTerms(h, Do(cfg, h, a), ak)
  {
    hide Do, Covers;
    MismatchPlane(cfg, h, id, text);
  }

  /** No transaction moves an activation to another team or changes when it ends. */
  predicate SameTerms(h: Hub, after: Hub, ak: ActivationKey) {
    ak in h.plane.activations && ak in after.plane.activations ==>
      && after.plane.activations[ak].expiresAt == h.plane.activations[ak].expiresAt
      && after.plane.activations[ak].team == h.plane.activations[ak].team
  }

  lemma LapsedActivations(cfg: Settings, h: Hub, lapsed: ActivationKey, ak: ActivationKey)
    ensures var a := Lapse(lapsed);
            && (InForce(Do(cfg, h, a), ak) <==> InForce(h, ak) && !Suspends(h, a, ak))
            && SameTerms(h, Do(cfg, h, a), ak)
  {
    hide Covers, CommandModel.Apply;
  }

  lemma ActivatedActivations(cfg: Settings, h: Hub, a: Action, ak: ActivationKey)
    requires a.Activate?
    ensures InForce(Do(cfg, h, a), ak) <==> Creates(h, a, ak) || InForce(h, ak)
    ensures Creates(h, a, ak) ==> ak in Do(cfg, h, a).plane.activations
                                  && Do(cfg, h, a).plane.activations[ak].expiresAt == h.now + 365 * 24 * 3600
                                  && Do(cfg, h, a).plane.activations[ak].team == a.scope.team
    ensures ak in h.plane.activations ==> ak in Do(cfg, h, a).plane.activations
                                          && Do(cfg, h, a).plane.activations[ak] == h.plane.activations[ak]
  {
    hide Do;
    ActivationGuard(cfg, h, a);
  }

  // ------------------------------------------------------------------ the mode

  predicate InControl(h: Hub, team: TeamId) {
    team in h.plane.teams && h.plane.teams[team].mode == Controlled
  }

  /** The emergency stop of a whole team, a rollback of its policy, a recovery of the Hub. */
  predicate Stops(a: Action, team: TeamId) {
    || (a.Disable? && a.team == team && a.boundary == Boundary(None, None, None))
    || (a.Rollback? && a.team == team)
    || a.RecoverHub?
  }

  predicate ActivatesSome(h: Hub, a: Action, team: TeamId) {
    a.Activate? && a.scope.team == team && Activates(h, a, a.scope)
  }

  /** A team is controlled after a transaction if and only if the transaction activates one of its
      keys, or it was controlled and the transaction does not stop it. */
  lemma ControlledExactly(cfg: Settings, h: Hub, a: Action, team: TeamId)
    ensures InControl(Do(cfg, h, a), team)
            <==> ActivatesSome(h, a, team) || (InControl(h, team) && !Stops(a, team))
  {
    hide Do;
    match a
    case Activate(_, _) => ActivatedMode(cfg, h, a, team);
    case Disable(_, _) | Rollback(_) | RecoverHub(_) => StoppedMode(cfg, h, a, team);
    case ReportMismatch(id, text) => MismatchPlane(cfg, h, id, text);
    case Lapse(_) | RemoveDevice(_) => TeamsKept(cfg, h, a);
    case _ => PlaneOf(cfg, h, a);
  }

  lemma TeamsKept(cfg: Settings, h: Hub, a: Action)
    requires a.Lapse? || a.RemoveDevice?
    ensures Do(cfg, h, a).plane.teams == h.plane.teams
  {
    hide CommandModel.Apply;
  }

  lemma StoppedMode(cfg: Settings, h: Hub, a: Action, team: TeamId)
    requires a.Disable? || a.Rollback? || a.RecoverHub?
    ensures InControl(Do(cfg, h, a), team) <==> InControl(h, team) && !Stops(a, team)
  {
    hide CommandModel.Apply;
  }

  lemma ActivatedMode(cfg: Settings, h: Hub, a: Action, team: TeamId)
    requires a.Activate?
    ensures InControl(Do(cfg, h, a), team) <==> ActivatesSome(h, a, team) || InControl(h, team)
  {
    hide Do;
    ActivationGuard(cfg, h, a);
  }

  /** What a stop leaves: the emergency stop and the recovery lock the team down, the rollback
      leaves it monitoring. */
  lemma StopMode(cfg: Settings, h: Hub, a: Action, team: TeamId)
    requires team in h.plane.teams && Stops(a, team)
    ensures team in Do(cfg, h, a).plane.teams
    ensures Do(cfg, h, a).plane.teams[team].mode == if a.Rollback? then MonitoringOnlyMode else LockedDown
  {
    hide CommandModel.Apply;
  }

  ghost predicate NoneActivated(cfg: Settings, h: Hub, actions: seq<Action>, team: TeamId) {
    forall k :: 0 <= k < |actions| ==> !ActivatesSome(Play(cfg, h, actions[..k]), actions[k], team)
  }

  lemma {:induction false} OutOfControl(cfg: Settings, h: Hub, actions: seq<Action>, team: TeamId)
    requires !InControl(h, team) && NoneActivated(cfg, h, actions, team)
    ensures !InControl(Play(cfg, h, actions), team)
  {
    hide Do, ActivatesSome, InControl;
    if actions != [] {
      var front := Front(actions);
      assert actions[..|front|] == front;
      assert forall k :: 0 <= k < |front| ==> front[..k] == actions[..k];
      OutOfControl(cfg, h, front, team);
      ControlledExactly(cfg, Play(cfg, h, front), Last(actions), team);
    }
  }

  /** From a stop on, in every run until a key of the team is activated again: no state-changing
      request of the team is admitted, and no state-changing command of it is published. */
  lemma StoppedUntilActivation(cfg: Settings, h: Hub, stop: Action, between: seq<Action>, team: TeamId)
    requires team in h.plane.teams && Stops(stop, team) && NoneActivated(cfg, Do(cfg, h, stop), between, team)
    ensures var end := Play(cfg, Do(cfg, h, stop), between);
            && (forall r :: WellTargeted(end, r) && end.gateways[r.gateway].team == team && StateChanging(r.operation) ==>
                  RequestDenial(end, r).Some?)
            && (forall id :: id in end.commands && end.commands[id].intent.team == team
                             && StateChanging(end.commands[id].intent.operation) ==>
                  !OpensAttempt(cfg, end, id))
  {
    hide Do, Play, RequestDenial, OpensAttempt, NoneActivated;
    ControlledExactly(cfg, h, stop, team);
    OutOfControl(cfg, Do(cfg, h, stop), between, team);
    var end := Play(cfg, Do(cfg, h, stop), between);
    forall r | WellTargeted(end, r) && end.gateways[r.gateway].team == team && StateChanging(r.operation)
      ensures RequestDenial(end, r).Some?
    {
      NotAdmitted(end, r);
    }
    forall id | id in end.commands && end.commands[id].intent.team == team
                && StateChanging(end.commands[id].intent.operation)
      ensures !OpensAttempt(cfg, end, id)
    {
      OpensExactly(cfg, end, id);
    }
  }

  lemma NotAdmitted(h: Hub, r: Request)
    requires WellTargeted(h, r) && StateChanging(r.operation) && !InControl(h, h.gateways[r.gateway].team)
    ensures RequestDenial(h, r).Some?
  {
    AdmissionExactly(h, r);
  }

  // -------------------------------------------------------------- the boundary

  lemma DisabledScopes(cfg: Settings, h: Hub, team: TeamId, b: Boundary, sk: ScopeKey)
    requires team in h.plane.teams && sk in h.plane.scopes
    ensures var after := Do(cfg, h, Disable(team, b)).plane.scopes;
            && sk in after
            && after[sk] == if sk.team == team && Covers(b, sk.site, Some(sk.gateway), sk.device)
                            then h.plane.scopes[sk].(mode := Suspended) else h.plane.scopes[sk]
  {
  }

  /** Directly after an emergency disable of any boundary no device key of the team within it is
      enabled and no activation within it is in force; everything outside it is untouched, the
      other teams and, unless the whole team is stopped, the mode included. */
  lemma DisableExactly(cfg: Settings, h: Hub, team: TeamId, b: Boundary)
    requires team in h.plane.teams
    ensures var after := Do(cfg, h, Disable(team, b)).plane;
            && after.teams.Keys == h.plane.teams.Keys && after.scopes.Keys == h.plane.scopes.Keys
            && after.activations.Keys == h.plane.activations.Keys
            && (forall other :: other in h.plane.teams && other != team ==> after.teams[other] == h.plane.teams[other])
            && (b != Boundary(None, None, None) ==> after.teams[team].mode == h.plane.teams[team].mode)
            && (forall sk :: sk in h.plane.scopes ==>
                  if sk.team == team && Covers(b, sk.site, Some(sk.gateway), sk.device)
                  then after.scopes[sk].mode == Suspended else after.scopes[sk] == h.plane.scopes[sk])
            && (forall ak :: ak in h.plane.activations ==>
                  if Suspends(h, Disable(team, b), ak) && h.plane.activations[ak].status == ActivationActive
                  then after.activations[ak].status == ActivationSuspended
                  else after.activations[ak] == h.plane.activations[ak])
  {
    hide Suspends, Covers;
    forall sk | sk in h.plane.scopes
      ensures sk in Do(cfg, h, Disable(team, b)).plane.scopes
      ensures Do(cfg, h, Disable(team, b)).plane.scopes[sk]
              == if sk.team == team && Covers(b, sk.site, Some(sk.gateway), sk.device)
                 then h.plane.scopes[sk].(mode := Suspended) else h.plane.scopes[sk]
    {
      DisabledScopes(cfg, h, team, b, sk);
    }
    forall ak | ak in h.plane.activations
      ensures ak in Do(cfg, h, Disable(team, b)).plane.activations
      ensures var after := Do(cfg, h, Disable(team, b)).plane.activations;
              after[ak] == if Suspends(h, Disable(team, b), ak) && h.plane.activations[ak].status == ActivationActive
                           then h.plane.activations[ak].(status := ActivationSuspended) else h.plane.activations[ak]
    {
      DisabledActivations(cfg, h, team, b, ak);
    }
  }

  /** And a key within the boundary stays off in every run until that very key is activated. */
  lemma {:induction false} OffUntilActivated(cfg: Settings, h: Hub, actions: seq<Action>, sk: ScopeKey)
    requires !On(h, sk)
    requires forall k :: 0 <= k < |actions| ==> !Activates(Play(cfg, h, actions[..k]), actions[k], sk)
    ensures !On(Play(cfg, h, actions), sk)
  {
    hide Do, On, Activates;
    if actions != [] {
      var front := Front(actions);
      assert actions[..|front|] == front;
      assert forall k :: 0 <= k < |front| ==> front[..k] == actions[..k];
      OffUntilActivated(cfg, h, front, sk);
      EnabledExactly(cfg, Play(cfg, h, front), Last(actions), sk);
    }
  }

  /** So, until then, no write of a device key within the boundary is admitted. */
  lemma DisabledKeyStaysOff(
    cfg: Settings, h: Hub, team: TeamId, b: Boundary, between: seq<Action>, r: Request)
    requires team in h.plane.teams
    requires var end := Play(cfg, Do(cfg, h, Disable(team, b)), between);
             WellTargeted(end, r) && r.operation.WriteDevice?
    requires var end := Play(cfg, Do(cfg, h, Disable(team, b)), between);
             var sk := ScopeOf(end, r.device.value, r.gateway, r.key);
             && sk.team == team && Covers(b, sk.site, Some(sk.gateway), sk.device)
             && forall k :: 0 <= k < |between| ==>
                  !Activates(Play(cfg, Do(cfg, h, Disable(team, b)), between[..k]), between[k], sk)
    ensures RequestDenial(Play(cfg, Do(cfg, h, Disable(team, b)), between), r).Some?
  {
    hide Do, Play, RequestDenial;
    var disabled := Do(cfg, h, Disable(team, b));
    var end := Play(cfg, disabled, between);
    var sk := ScopeOf(end, r.device.value, r.gateway, r.key);
    EnabledExactly(cfg, h, Disable(team, b), sk);
    OffUntilActivated(cfg, disabled, between, sk);
    AdmissionExactly(end, r);
  }

  // ------------------------------------------------------------- an activation

  /** An accepted activation enables exactly its key, in the current epoch, for a controlled team,
      and nothing else of the plane changes; a second one in the same epoch is refused. */
  lemma ActivationTakesEffect(cfg: Settings, h: Hub, sk: ScopeKey)
    requires Activates(h, Activate(sk, true), sk)
    ensures var after := Do(cfg, h, Activate(sk, true));
            var epoch := h.plane.teams[sk.team].epoch;
            && KeyActivated(after, sk) && after.plane.teams[sk.team] == Team(Controlled, epoch)
            && (forall t :: t in h.plane.teams && t != sk.team ==>
                  t in after.plane.teams && after.plane.teams[t] == h.plane.teams[t])
            && (forall other :: other in h.plane.scopes && other != sk ==>
                  other in after.plane.scopes && after.plane.scopes[other] == h.plane.scopes[other])
            && InForce(after, ActivationKey(sk.device, sk.key, epoch))
            && (forall again :: !Activates(after, Activate(sk, again), sk))
  {
  }
}
