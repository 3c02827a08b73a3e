/** Activation of one Gateway's operational credentials (apps/devices/activation.py):
    numbered generations whose secret is held in escrow until they are resolved. */
module EscrowModel {

  import opened Common

  datatype ActStatus =
    | Provisioning | ActPending | Delivered | Retried | RetryLater | ActFailed
    | ActAcknowledged | ActExpired | ActSuperseded

  /** GatewayActivation.UNRESOLVED_STATUSES */
  predicate Unresolved(s: ActStatus) {
    || s.Provisioning? || s.ActPending? || s.Delivered? || s.Retried? || s.RetryLater? || s.ActFailed?
  }

  /** escrow is the sealed password; None is the empty string the source stores once it is gone. */
  datatype Activation = Activation(
    generation: nat, request: nat, status: ActStatus, attemptCount: nat, lastAttemptAt: Option<nat>,
    deliveredAt: Option<nat>, acknowledgedAt: Option<nat>, expiresAt: nat, escrow: Option<string>)

  /** expiring: rows a maintenance sweep has read as expirable and not yet written back. */
  datatype Escrow = Escrow(activations: seq<Activation>, expiring: set<nat>)

  function Latest(activations: seq<Activation>): nat {
    if activations == [] then 0 else Max(Last(activations).generation, Latest(Front(activations)))
  }

  // ------------------------------------------------------------------ issuing

  function Displace(a: Activation): Activation {
    if Unresolved(a.status) then a.(status := ActSuperseded, escrow := None) else a
  }

  function DisplaceAll(activations: seq<Activation>): seq<Activation> {
    if activations == [] then [] else DisplaceAll(Front(activations)) + [Displace(Last(activations))]
  }

  /** queue_gateway_activation */
  function Issue(activations: seq<Activation>, request: nat, password: string, ttl: nat, now: nat): seq<Activation> {
    DisplaceAll(activations)
    + [Activation(Latest(activations) + 1, request, Provisioning, 0, None, None, None, now + ttl, Some(password))]
  }

  // ----------------------------------------------------- provision and deliver

  /** expire_gateway_activation on the row as it reads it. */
  function Expire(a: Activation): Activation {
    if a.acknowledgedAt.Some? then
      if a.status.ActAcknowledged? then a else a.(status := ActAcknowledged, escrow := None)
    else if a.status.ActAcknowledged? || a.status.ActExpired? then a
    else a.(status := ActExpired, escrow := None)
  }

  /** The checks before any secret is decrypted. */
  predicate Current(a: Activation, latest: nat) {
    && a.acknowledgedAt.None? && !a.status.ActAcknowledged? && !a.status.ActExpired? && !a.status.ActSuperseded?
    && a.generation == latest
  }

  /** The transaction goes on to decrypt the escrowed secret. */
  predicate Decrypts(a: Activation, latest: nat, now: nat) {
    Current(a, latest) && now < a.expiresAt
  }

  /** deliver_gateway_activation; sent is the outcome of the MQTT publication. */
  function Deliver(a: Activation, latest: nat, retry: bool, sent: bool, now: nat): Activation {
    if !Current(a, latest) then a
    else if a.expiresAt <= now then Expire(a)
    else if !sent then a.(attemptCount := a.attemptCount + 1, lastAttemptAt := Some(now), status := ActFailed)
    else
      a.(attemptCount := a.attemptCount + 1, lastAttemptAt := Some(now), deliveredAt := Some(now),
         status := if retry || a.attemptCount + 1 > 1 then Retried else Delivered)
  }

  /** What provisioning meets: broker success, Gateway reachable, and then delivery success. */
  datatype Provisioned = Provisioned(accepted: bool, reachable: bool, sent: bool)

  /** provision_gateway_activation */
  function Provision(a: Activation, latest: nat, ttl: nat, p: Provisioned, now: nat): Activation {
    if !Current(a, latest) then a
    else if a.expiresAt <= now then Expire(a)
    else if !p.accepted then
      a.(status := RetryLater, attemptCount := a.attemptCount + 1, lastAttemptAt := Some(now))
    else
      var ready := a.(status := ActPending, expiresAt := now + ttl);
      if p.reachable then Deliver(ready, latest, false, p.sent, now) else ready
  }

  // ---------------------------------------------------------- acknowledgement

  /** acknowledge_gateway_activation on the row its request names. */
  function Acknowledge(a: Activation, latest: nat, generation: int, success: bool, now: nat): Activation {
    if a.generation != generation || a.generation != latest || a.status.ActExpired? || a.status.ActSuperseded? then a
    else if a.acknowledgedAt.Some? || a.status.ActAcknowledged? then
      if a.status.ActAcknowledged? then a else a.(status := ActAcknowledged, escrow := None)
    else if success then a.(status := ActAcknowledged, acknowledgedAt := Some(now), escrow := None)
    else a.(status := ActFailed)
  }

  /** What finalising the Gateway's release does to one activation. */
  function Revoke(a: Activation): Activation {
    a.(status := if a.status.ActAcknowledged? then a.status else ActSuperseded, escrow := None)
  }

  function RevokeAll(activations: seq<Activation>): seq<Activation> {
    if activations == [] then [] else RevokeAll(Front(activations)) + [Revoke(Last(activations))]
  }

  // ---------------------------------------------------------- every transaction

  datatype EscrowStep =
    | IssueActivation(request: nat, password: string, ttl: nat, issuedAt: nat)
    | ProvisionActivation(index: nat, newTtl: nat, met: Provisioned, provisionedAt: nat)
    | DeliverActivation(index: nat, retry: bool, sent: bool, sentAt: nat)
    | AcknowledgeActivation(index: nat, generation: int, success: bool, ackedAt: nat)
    | ReadExpired(index: nat, readAt: nat)
    | WriteExpired(index: nat)
    | RevokeActivations

  function Step(e: Escrow, s: EscrowStep): Escrow {
    var rows := e.activations;
    match s
    case IssueActivation(request, password, ttl, now) => e.(activations := Issue(rows, request, password, ttl, now))
    case ProvisionActivation(i, ttl, met, now) =>
      if i < |rows| then e.(activations := rows[i := Provision(rows[i], Latest(rows), ttl, met, now)]) else e
    case DeliverActivation(i, retry, sent, now) =>
      if i < |rows| then e.(activations := rows[i := Deliver(rows[i], Latest(rows), retry, sent, now)]) else e
    case AcknowledgeActivation(i, generation, success, now) =>
      if i < |rows| then e.(activations := rows[i := Acknowledge(rows[i], Latest(rows), generation, success, now)]) else e
    case ReadExpired(i, now) =>
      if i < |rows| && Unresolved(rows[i].status) && rows[i].expiresAt <= now && rows[i].acknowledgedAt.None?
      then e.(expiring := e.expiring + {i}) else e
    case WriteExpired(i) =>
      if i < |rows| && i in e.expiring
      then Escrow(rows[i := rows[i].(status := ActExpired, escrow := None)], e.expiring - {i}) else e
    case RevokeActivations => e.(activations := RevokeAll(rows))
  }

  function Run(e: Escrow, steps: seq<EscrowStep>): Escrow {
    if steps == [] then e else Step(Run(e, Front(steps)), Last(steps))
  }
}
