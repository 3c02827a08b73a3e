/** The configuration table of one Gateway as the source updates it, proved against
    ConfigModel. */
module ConfigStore {

  import opened Common
  import opened ConfigModel
  import opened ConfigProofs

  class ConfigTable {
    const timing: Timing
    var configs: seq<Config>
    var workers: multiset<nat>

    ghost function Value(): Delivery
      reads this
    {
      Delivery(configs, workers)
    }

    method FindLatestRevision() returns (latest: nat)
      ensures latest == LatestRevision(configs)
    {
      latest := 0;
      for i := 0 to |configs|
        invariant latest == LatestRevision(configs[..i])
      {
        assert Front(configs[..i + 1]) == configs[..i];
        if configs[i].revision > latest {
          latest := configs[i].revision;
        }
      }
      assert configs[..|configs|] == configs;
    }

    /** queue_gateway_config: replace every open revision, then add the next one. */
    method QueueRevision(checksum: string, idempotency: nat, now: nat) returns (revision: nat)
      modifies this
      ensures Value() == Queue(timing, old(Value()), checksum, idempotency, now)
      ensures revision == LatestRevision(old(configs)) + 1
    {
      var latest := FindLatestRevision();
      SupersedeAllAt(configs);
      for i := 0 to |configs|
        invariant |configs| == |old(configs)| && workers == old(workers)
        invariant forall k :: 0 <= k < i ==> configs[k] == Supersede(old(configs)[k])
        invariant forall k :: i <= k < |configs| ==> configs[k] == old(configs)[k]
      {
        var c := configs[i];
        if c.status.ConfigQueued? || c.status.WaitingForGateway? || c.status.ConfigPublished?
           || c.status.ConfigAccepted? || c.status.ConfigTimedOut? {
          c := c.(status := Superseded);
          c := c.(row := c.row.(status := RowCompleted));
          configs := configs[i := c];
        }
      }
      assert configs == SupersedeAll(old(configs));
      revision := latest + 1;
      configs := configs + [NewConfig(timing, revision, checksum, idempotency, now)];
    }

    /** retry_gateway_config: the same settings as a new revision. */
    method RetryRevision(i: nat, idempotency: nat, now: nat) returns (retried: bool)
      requires i < |configs|
      modifies this
      ensures retried == Retryable(old(configs[i].status))
      ensures Value() == Step(timing, old(Value()), RetryConfig(i, idempotency, now))
    {
      hide Queue;
      var c := configs[i];
      retried := c.status.ConfigFailed? || c.status.ConfigRolledBack? || c.status.ConfigTimedOut?;
      if retried {
        var _ := QueueRevision(c.checksum, idempotency, now);
      }
    }

    /** The claiming transaction of dispatch_gateway_config_outbox. */
    method Claim(i: nat, g: GatewayView, now: nat) returns (publish: bool)
      requires i < |configs|
      modifies this
      ensures Value() == Step(timing, old(Value()), ClaimDispatch(i, g, now))
      ensures publish == ClaimConfig(timing, old(configs[i]), g, now).1
    {
      var c := configs[i];
      if c.status.ConfigActive? || c.status.ConfigFailed? || c.status.ConfigRolledBack? || c.status.Superseded? {
        c := c.(row := c.row.(status := RowCompleted, leaseExpiresAt := None));
        configs := configs[i := c];
        return false;
      }
      if c.expiresAt <= now {
        configs := configs[i := TimeOut(c)];
        return false;
      }
      if c.status.ConfigAccepted? {
        if c.acceptedDeadline.Some? && c.acceptedDeadline.value <= now {
          configs := configs[i := TimeOut(c)];
        }
        assert configs[i := configs[i]] == configs;
        return false;
      }
      if !RowClaimable(c.row, now) {
        assert configs[i := configs[i]] == configs;
        return false;
      }
      if g.quarantined {
        c := c.(status := Superseded);
        c := c.(row := c.row.(status := RowCompleted));
        configs := configs[i := c];
        return false;
      }
      if !g.live {
        c := c.(row := c.row.(status := RowWaitingGateway, nextAttemptAt := now + 30, leaseExpiresAt := None));
        c := c.(status := WaitingForGateway);
        configs := configs[i := c];
        return false;
      }
      c := c.(row := c.row.(status := RowClaimed, leaseExpiresAt := Some(now + timing.lease),
                            attemptCount := c.row.attemptCount + 1));
      configs := configs[i := c];
      workers := workers[i := workers[i] + 1];
      return true;
    }

    /** The recording transaction after a publication or its failure. */
    method Record(i: nat, sent: bool, now: nat)
      requires i < |configs| && i in workers
      modifies this
      ensures Value() == Step(timing, old(Value()), RecordDispatch(i, sent, now))
    {
      var c := configs[i];
      if sent {
        var backoff := Min(300, Max(15, Pow2(Min(c.row.attemptCount, 8))));
        c := c.(row := c.row.(status := RowAwaitingAck, nextAttemptAt := now + backoff, leaseExpiresAt := None));
        c := c.(status := ConfigPublished);
      } else {
        var backoff := Min(300, Max(5, Pow2(Min(c.row.attemptCount, 8))));
        c := c.(row := c.row.(status := RowRetry, nextAttemptAt := now + backoff, leaseExpiresAt := None));
      }
      configs := configs[i := c];
      workers := workers[i := workers[i] - 1];
    }

    /** acknowledge_gateway_config */
    method AcceptAck(i: nat, a: Ack, now: nat) returns (accepted: bool)
      requires i < |configs|
      modifies this
      ensures accepted == AckMatches(old(configs[i]), a)
      ensures Value() == Step(timing, old(Value()), Acknowledge(i, a, now))
    {
      var c := configs[i];
      if a.revision != c.revision || a.checksum != c.checksum || a.idempotency != c.idempotency || a.incoming.None? {
        return false;
      }
      var incoming := a.incoming.value;
      var latest := FindLatestRevision();
      c := c.(lastAckAt := Some(now));
      if c.revision != latest {
        c := c.(status := Superseded);
      } else if incoming.IncomingAccepted?
                && (c.status.ConfigActive? || c.status.ConfigFailed? || c.status.ConfigRolledBack?
                    || c.status.ConfigTimedOut?) {
      } else if incoming.IncomingAccepted? {
        c := c.(status := ConfigAccepted);
        c := c.(acceptedDeadline := Some(now + timing.applyTimeout));
        c := c.(row := c.row.(status := RowAwaitingAck, nextAttemptAt := now + timing.applyTimeout));
      } else {
        c := c.(status := Settlement(incoming));
        c := c.(row := c.row.(status := RowCompleted, leaseExpiresAt := None));
      }
      configs := configs[i := c];
      return true;
    }
  }
}
