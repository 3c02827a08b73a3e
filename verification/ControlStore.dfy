/** Teams, scopes and activations as the source updates them, row by row or in bulk; each
    method is proved against ControlPlane. */
module ControlStore {

  import opened Common
  import opened CommandModel
  import opened ControlPlane

  class ControlTables {
    var teams: map<TeamId, Team>
    var scopes: map<ScopeKey, Scope>
    var activations: map<ActivationKey, Activation>

    ghost function Value(): Plane
      reads this
    {
      Plane(teams, scopes, activations)
    }

    /** activate_control_key */
    method Activate(sk: ScopeKey, ready: bool, now: nat) returns (accepted: bool)
      modifies this
      ensures accepted == old(ActivationAccepted(Value(), sk, ready))
      ensures Value() == ActivateKey(old(Value()), sk, ready, now)
    {
      if sk.team !in teams || !ready {
        return false;
      }
      var team := teams[sk.team];
      var ak := ActivationKey(sk.device, sk.key, team.epoch);
      if ak in activations {
        return false;  // unique_control_activation_epoch: the transaction is rolled back
      }
      scopes := scopes[sk := Scope(Enabled, team.epoch)];
      activations := activations[ak := Activation(sk.team, ActivationActive, now + ACTIVATION_SECONDS)];
      teams := teams[sk.team := team.(mode := Controlled)];
      return true;
    }

    /** emergency_disable */
    method DisableNow(team: TeamId, b: Boundary, devices: map<DeviceId, Device>) returns (epoch: nat)
      requires team in teams
      modifies this
      ensures Value() == EmergencyDisable(old(Value()), team, b, devices)
      ensures epoch == old(teams[team].epoch) + 1
    {
      var row := teams[team];
      row := row.(epoch := row.epoch + 1);
      if b.site.None? && b.gateway.None? && b.device.None? {
        row := row.(mode := LockedDown);
      }
      teams := teams[team := row];
      SuspendScopes(team, b);
      SuspendActivations(team, b, devices);
      return row.epoch;
    }

    /** The bulk update of the scopes within the boundary. */
    method SuspendScopes(team: TeamId, b: Boundary)
      modifies this`scopes
      ensures scopes == map sk | sk in old(scopes) ::
                          if sk.team == team && ScopeWithin(b, sk) then Suspend(old(scopes)[sk]) else old(scopes)[sk]
    {
      hide ScopeWithin;
      scopes := map sk | sk in scopes ::
        if sk.team == team && ScopeWithin(b, sk) then scopes[sk].(mode := Suspended) else scopes[sk];
    }

    /** The bulk update of the active activations within the boundary. */
    method SuspendActivations(team: TeamId, b: Boundary, devices: map<DeviceId, Device>)
      modifies this`activations
      ensures activations == map ak | ak in old(activations) ::
                               if old(activations)[ak].team == team && DeviceWithin(b, ak.device, devices)
                               then SuspendActivation(old(activations)[ak]) else old(activations)[ak]
    {
      hide DeviceWithin;
      activations := map ak | ak in activations ::
        if activations[ak].team == team && activations[ak].status == ActivationActive
           && DeviceWithin(b, ak.device, devices)
        then activations[ak].(status := ActivationSuspended) else activations[ak];
    }

    /** rollback_policy_as_new_epoch */
    method RollBackPolicy(team: TeamId) returns (epoch: nat)
      requires team in teams
      modifies this
      ensures Value() == RollBack(old(Value()), team)
      ensures epoch == old(teams[team].epoch) + 1
    {
      epoch := teams[team].epoch + 1;
      teams := teams[team := Team(MonitoringOnlyMode, epoch)];
      scopes := map sk | sk in scopes :: if sk.team == team then scopes[sk].(mode := Suspended) else scopes[sk];
      activations := map ak | ak in activations ::
        if activations[ak].team == team && activations[ak].status == ActivationActive
        then activations[ak].(status := ActivationSuspended) else activations[ak];
    }

    /** The part of disaster_recovery_control_reset that locks every team. */
    method LockAllTeams()
      modifies this
      ensures Value() == LockAll(old(Value()))
    {
      scopes := map sk | sk in scopes :: scopes[sk].(mode := Suspended);
      activations := map ak | ak in activations ::
        if activations[ak].status == ActivationActive
        then activations[ak].(status := ActivationSuspended) else activations[ak];
      var pending := teams.Keys;
      ghost var before := teams;
      while pending != {}
        invariant pending <= before.Keys == teams.Keys
        invariant forall t :: t in before ==>
                    teams[t] == if t in pending then before[t] else Team(LockedDown, before[t].epoch + 1)
        invariant scopes == LockAll(old(Value())).scopes && activations == LockAll(old(Value())).activations
        decreases |pending|
      {
        var t :| t in pending;
        var row := teams[t];
        row := row.(epoch := row.epoch + 1);
        row := row.(mode := LockedDown);
        teams := teams[t := row];
        pending := pending - {t};
      }
    }
  }
}
