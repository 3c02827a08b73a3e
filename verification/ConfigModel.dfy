/** Signed configuration delivery to one Gateway (apps/devices/gateway_config_delivery.py):
    numbered revisions, supersession, a dispatch outbox and acknowledgements. */
module ConfigModel {

  import opened Common

  datatype ConfigStatus =
    | ConfigQueued | WaitingForGateway | ConfigPublished | ConfigAccepted | ConfigTimedOut
    | ConfigActive | ConfigFailed | ConfigRolledBack | Superseded

  /** TERMINAL_CONFIG_STATUSES; the five other statuses are those a newer revision replaces. */
  predicate Settled(s: ConfigStatus) {
    s.ConfigActive? || s.ConfigFailed? || s.ConfigRolledBack? || s.Superseded?
  }

  datatype RowStatus =
    RowPending | RowClaimed | RowWaitingGateway | RowAwaitingAck | RowCompleted | RowRetry | RowDeadLetter

  datatype Row = Row(status: RowStatus, attemptCount: nat, nextAttemptAt: nat, leaseExpiresAt: Option<nat>)

  datatype Config = Config(
    revision: nat, checksum: string, idempotency: nat, expiresAt: nat,
    status: ConfigStatus, acceptedDeadline: Option<nat>, lastAckAt: Option<nat>, row: Row)

  datatype Timing = Timing(ttl: nat, lease: nat, applyTimeout: nat)

  /** workers counts, per configuration, the dispatches that claimed and have not recorded. */
  datatype Delivery = Delivery(configs: seq<Config>, workers: multiset<nat>)

  // ----------------------------------------------------------------- queueing

  function Supersede(c: Config): Config {
    if Settled(c.status) then c else c.(status := Superseded, row := c.row.(status := RowCompleted))
  }

  function SupersedeAll(configs: seq<Config>): seq<Config> {
    if configs == [] then [] else SupersedeAll(Front(configs)) + [Supersede(Last(configs))]
  }

  function LatestRevision(configs: seq<Config>): nat {
    if configs == [] then 0 else Max(Last(configs).revision, LatestRevision(Front(configs)))
  }

  function NewConfig(t: Timing, revision: nat, checksum: string, idempotency: nat, now: nat): Config {
    Config(revision, checksum, idempotency, now + t.ttl, ConfigQueued, None, None, Row(RowPending, 0, now, None))
  }

  /** queue_gateway_config once the Gateway is configurable and the payload valid. */
  function Queue(t: Timing, d: Delivery, checksum: string, idempotency: nat, now: nat): Delivery {
    d.(configs := SupersedeAll(d.configs)
                  + [NewConfig(t, LatestRevision(d.configs) + 1, checksum, idempotency, now)])
  }

  /** retry_gateway_config takes settings that need attention only. */
  predicate Retryable(s: ConfigStatus) {
    s.ConfigFailed? || s.ConfigRolledBack? || s.ConfigTimedOut?
  }

  // ----------------------------------------------------------------- dispatch

  /** What the dispatcher reads of the Gateway: being released, and live or not. */
  datatype GatewayView = GatewayView(quarantined: bool, live: bool)

  function TimeOut(c: Config): Config {
    c.(status := ConfigTimedOut, row := c.row.(status := RowDeadLetter, leaseExpiresAt := None))
  }

  predicate RowClaimable(r: Row, now: nat) {
    && (|| r.status.RowPending? || r.status.RowRetry? || r.status.RowWaitingGateway? || r.status.RowAwaitingAck?
        || (r.status.RowClaimed? && r.leaseExpiresAt.Some? && r.leaseExpiresAt.value <= now))
    && r.nextAttemptAt <= now
  }

  /** The first transaction of dispatch_gateway_config_outbox and whether it goes on to publish. */
  function ClaimConfig(t: Timing, c: Config, g: GatewayView, now: nat): (Config, bool) {
    if Settled(c.status) then (c.(row := c.row.(status := RowCompleted, leaseExpiresAt := None)), false)
    else if c.expiresAt <= now then (TimeOut(c), false)
    else if c.status.ConfigAccepted? then
      (if c.acceptedDeadline.Some? && c.acceptedDeadline.value <= now then TimeOut(c) else c, false)
    else if !RowClaimable(c.row, now) then (c, false)
    else if g.quarantined then (c.(status := Superseded, row := c.row.(status := RowCompleted)), false)
    else if !g.live then
      (c.(status := WaitingForGateway,
          row := c.row.(status := RowWaitingGateway, nextAttemptAt := now + 30, leaseExpiresAt := None)), false)
    else
      (c.(row := c.row.(status := RowClaimed, leaseExpiresAt := Some(now + t.lease),
                        attemptCount := c.row.attemptCount + 1)), true)
  }

  function Backoff(floor: nat, attempts: nat): nat {
    Min(300, Max(floor, Pow2(Min(attempts, 8))))
  }

  /** The transaction that records a publication: it overwrites whatever status it finds. */
  function RecordPublished(c: Config, now: nat): Config {
    c.(status := ConfigPublished,
       row := c.row.(status := RowAwaitingAck, leaseExpiresAt := None,
                     nextAttemptAt := now + Backoff(15, c.row.attemptCount)))
  }

  /** The transaction that records a failed publication. */
  function RecordUnsent(c: Config, now: nat): Config {
    c.(row := c.row.(status := RowRetry, leaseExpiresAt := None,
                     nextAttemptAt := now + Backoff(5, c.row.attemptCount)))
  }

  function Recorded(c: Config, sent: bool, now: nat): Config {
    if sent then RecordPublished(c, now) else RecordUnsent(c, now)
  }

  // ---------------------------------------------------------- acknowledgement

  datatype Incoming = IncomingAccepted | IncomingActive | IncomingFailed | IncomingRolledBack

  datatype Ack = Ack(revision: int, checksum: string, idempotency: nat, incoming: Option<Incoming>)

  predicate AckMatches(c: Config, a: Ack) {
    a.revision == c.revision && a.checksum == c.checksum && a.idempotency == c.idempotency && a.incoming.Some?
  }

  function Settlement(i: Incoming): ConfigStatus {
    match i
    case IncomingAccepted => ConfigAccepted
    case IncomingActive => ConfigActive
    case IncomingFailed => ConfigFailed
    case IncomingRolledBack => ConfigRolledBack
  }

  /** acknowledge_gateway_config on the row the acknowledgement names. */
  function Acknowledged(t: Timing, c: Config, latest: nat, incoming: Incoming, now: nat): Config {
    var seen := c.(lastAckAt := Some(now));
    if c.revision != latest then seen.(status := Superseded)
    else if incoming.IncomingAccepted?
            && (c.status.ConfigActive? || c.status.ConfigFailed? || c.status.ConfigRolledBack? || c.status.ConfigTimedOut?)
    then seen
    else if incoming.IncomingAccepted? then
      seen.(status := ConfigAccepted, acceptedDeadline := Some(now + t.applyTimeout),
            row := c.row.(status := RowAwaitingAck, nextAttemptAt := now + t.applyTimeout))
    else
      seen.(status := Settlement(incoming), row := c.row.(status := RowCompleted, leaseExpiresAt := None))
  }

  // ---------------------------------------------------------- every transaction

  datatype ConfigStep =
    | QueueConfig(checksum: string, idempotency: nat, queuedAt: nat)
    | RetryConfig(index: nat, idempotency: nat, retriedAt: nat)
    | ClaimDispatch(index: nat, gateway: GatewayView, claimedAt: nat)
    | RecordDispatch(index: nat, sent: bool, recordedAt: nat)
    | CrashDispatch(index: nat)
    | Acknowledge(index: nat, ack: Ack, ackedAt: nat)

  function Step(t: Timing, d: Delivery, s: ConfigStep): Delivery {
    match s
    case QueueConfig(checksum, idempotency, now) => Queue(t, d, checksum, idempotency, now)
    case RetryConfig(i, idempotency, now) =>
      if i < |d.configs| && Retryable(d.configs[i].status) then Queue(t, d, d.configs[i].checksum, idempotency, now) else d
    case ClaimDispatch(i, g, now) =>
      if i >= |d.configs| then d
      else
        var (c, goes) := ClaimConfig(t, d.configs[i], g, now);
        Delivery(d.configs[i := c], if goes then d.workers[i := d.workers[i] + 1] else d.workers)
    case RecordDispatch(i, sent, now) =>
      if i >= |d.configs| || i !in d.workers then d
      else Delivery(d.configs[i := Recorded(d.configs[i], sent, now)], d.workers[i := d.workers[i] - 1])
    case CrashDispatch(i) => if i !in d.workers then d else d.(workers := d.workers[i := d.workers[i] - 1])
    case Acknowledge(i, a, now) =>
      if i >= |d.configs| || !AckMatches(d.configs[i], a) then d
      else d.(configs := d.configs[i := Acknowledged(t, d.configs[i], LatestRevision(d.configs), a.incoming.value, now)])
  }

  function Deliver(t: Timing, d: Delivery, steps: seq<ConfigStep>): Delivery {
    if steps == [] then d else Step(t, Deliver(t, d, Front(steps)), Last(steps))
  }
}
