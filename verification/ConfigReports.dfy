/** What a configuration's status says: which report, claim or replacement it comes from, when a
    claim publishes, and when settings can be retried. */
module ConfigReports {

  import opened Common
  import opened ConfigModel
  import opened ConfigProofs

  // ---------------------------------------------------------- acknowledgements

  /** The acknowledgement names exactly this configuration and one of the four statuses. */
  predicate Names(c: Config, a: Ack) {
    a.revision == c.revision && a.checksum == c.checksum && a.idempotency == c.idempotency && a.incoming != None
  }

  /** One that names another identity changes nothing. */
  lemma StrangersIgnored(t: Timing, d: Delivery, i: nat, a: Ack, now: nat)
    requires i < |d.configs| && !Names(d.configs[i], a)
    ensures Step(t, d, Acknowledge(i, a, now)) == d
  {
  }

  /** What the latest configuration becomes: the reported status, except that an "accepted" that
      comes after an outcome or a timeout changes nothing. */
  lemma ReportStoredExactly(t: Timing, d: Delivery, i: nat, a: Ack, now: nat)
    requires Numbered(d.configs) && i + 1 == |d.configs| && Names(d.configs[i], a)
    ensures
      var was := d.configs[i].status;
      var said := a.incoming.value;
      var after := Step(t, d, Acknowledge(i, a, now)).configs[i];
      && (after.status == ConfigActive <==> said == IncomingActive || (was == ConfigActive && said == IncomingAccepted))
      && (after.status == ConfigFailed <==> said == IncomingFailed || (was == ConfigFailed && said == IncomingAccepted))
      && (after.status == ConfigRolledBack
          <==> said == IncomingRolledBack || (was == ConfigRolledBack && said == IncomingAccepted))
      && (after.status == ConfigTimedOut <==> was == ConfigTimedOut && said == IncomingAccepted)
      && (after.status == ConfigAccepted
          <==> said == IncomingAccepted && was !in {ConfigActive, ConfigFailed, ConfigRolledBack, ConfigTimedOut})
      && (after.status == ConfigAccepted ==>
            after.acceptedDeadline == Some(now + t.applyTimeout)
            && forall later: nat :: Due(after.row, later) <==> now + t.applyTimeout <= later)
      && (said != IncomingAccepted ==> after.row.status == RowCompleted && after.row.leaseExpiresAt == None)
      && after.lastAckAt == Some(now)
  {
    LatestIsLength(d.configs);
  }

  /** One for a replaced revision only marks it superseded. */
  lemma ReplacedStaysReplaced(t: Timing, d: Delivery, i: nat, a: Ack, now: nat)
    requires Numbered(d.configs) && i + 1 < |d.configs| && Names(d.configs[i], a)
    ensures Step(t, d, Acknowledge(i, a, now)).configs[i]
            == d.configs[i].(status := Superseded, lastAckAt := Some(now))
  {
    LatestIsLength(d.configs);
  }

  // -------------------------------------------------------------------- claims

  /** The row is due: pending, in retry, waiting, awaiting, or claimed under a lease that is over. */
  predicate Due(r: Row, now: nat) {
    && r.nextAttemptAt <= now
    && (r.status in {RowPending, RowRetry, RowWaitingGateway, RowAwaitingAck}
        || (r.status == RowClaimed && r.leaseExpiresAt != None && r.leaseExpiresAt.value <= now))
  }

  /** Its time is over: expired, or accepted and not settled by its deadline. */
  predicate Overdue(c: Config, now: nat) {
    c.expiresAt <= now || (c.status == ConfigAccepted && c.acceptedDeadline != None && c.acceptedDeadline.value <= now)
  }

  /** A claim goes on to publish if and only if the configuration is neither settled nor accepted
      nor expired, its row is due, and the Gateway is live and not being released; it then holds
      the row under a lease. */
  lemma PublishesExactly(t: Timing, c: Config, g: GatewayView, now: nat)
    ensures ClaimConfig(t, c, g, now).1 <==>
            && !Settled(c.status) && c.status != ConfigAccepted && now < c.expiresAt && Due(c.row, now)
            && !g.quarantined && g.live
    ensures var after := ClaimConfig(t, c, g, now).0;
            ClaimConfig(t, c, g, now).1 ==>
              && after.status == c.status && after.row.status == RowClaimed
              && after.row.leaseExpiresAt == Some(now + t.lease) && after.row.attemptCount == c.row.attemptCount + 1
  {
  }

  predicate Ready(c: Config, now: nat) {
    !Settled(c.status) && c.status != ConfigAccepted && now < c.expiresAt && Due(c.row, now)
  }

  /** What becomes of it otherwise: timed out exactly when it is open and overdue; replaced or made
      to wait 30 seconds when it is ready but the Gateway is being released or not live; else its
      status stays. */
  lemma HeldBackExactly(t: Timing, c: Config, g: GatewayView, now: nat)
    requires !ClaimConfig(t, c, g, now).1
    ensures
      var after := ClaimConfig(t, c, g, now).0;
      && after.row.attemptCount == c.row.attemptCount
      && if Settled(c.status) then after == c.(row := c.row.(status := RowCompleted, leaseExpiresAt := None))
         else if Overdue(c, now) then
           after.status == ConfigTimedOut && after.row.status == RowDeadLetter && after.row.leaseExpiresAt == None
         else if Ready(c, now) && g.quarantined then after.status == Superseded && after.row.status == RowCompleted
         else if Ready(c, now) then
           after.status == WaitingForGateway && after.row.status == RowWaitingGateway && after.row.leaseExpiresAt == None
           && forall later: nat :: Due(after.row, later) <==> now + 30 <= later
         else after == c
  {
  }

  /** The wait before the next attempt: the power of two of the attempts, at least the floor and
      at most 256 seconds. */
  lemma BackoffExactly(floor: nat, attempts: nat)
    requires floor <= 256
    ensures Backoff(floor, attempts) == Max(floor, if attempts <= 8 then Pow2(attempts) else 256)
    ensures floor <= Backoff(floor, attempts) <= 256
  {
    Pow2Grows(Min(attempts, 8), 8);
    assert Pow2(8) == 256;
  }

  lemma {:induction false} Pow2Grows(a: nat, b: nat)
    requires a <= b
    ensures Pow2(a) <= Pow2(b)
  {
    if a < b {
      Pow2Grows(a, b - 1);
    }
  }

  /** A recorded publication is published and due to be repeated from the end of the backoff on; a
      failed one keeps its status and is due again likewise. */
  lemma RecordedExactly(c: Config, sent: bool, now: nat)
    ensures Recorded(c, sent, now).status == if sent then ConfigPublished else c.status
    ensures Recorded(c, sent, now).row.status == if sent then RowAwaitingAck else RowRetry
    ensures Recorded(c, sent, now).row.leaseExpiresAt == None
    ensures forall later: nat ::
              Due(Recorded(c, sent, now).row, later)
              <==> now + Backoff(if sent then 15 else 5, c.row.attemptCount) <= later
  {
    hide Backoff;
  }

  /** The dispatches that have claimed and not recorded are counted: one more by each claim that
      publishes, one fewer by each record or crash of one. */
  lemma DispatchesCounted(t: Timing, d: Delivery, s: ConfigStep, i: nat)
    ensures Step(t, d, s).workers[i] ==
            if s.ClaimDispatch? && s.index == i && i < |d.configs| && Ready(d.configs[i], s.claimedAt)
               && !s.gateway.quarantined && s.gateway.live then d.workers[i] + 1
            else if s.RecordDispatch? && s.index == i && i < |d.configs| && d.workers[i] > 0 then d.workers[i] - 1
            else if s.CrashDispatch? && s.index == i && d.workers[i] > 0 then d.workers[i] - 1
            else d.workers[i]
  {
    hide Acknowledged, Recorded, Due, SupersedeAll, LatestRevision;
    match s
    case ClaimDispatch(j, g, now) => if j < |d.configs| { PublishesExactly(t, d.configs[j], g, now); }
    case RecordDispatch(j, _, _) => assert j in d.workers <==> d.workers[j] > 0;
    case CrashDispatch(j) => assert j in d.workers <==> d.workers[j] > 0;
    case _ =>
  }

  // ------------------------------------------------------------- why a status

  /** The step by which configuration i gets this status. */
  predicate Causes(t: Timing, d: Delivery, s: ConfigStep, i: nat, status: ConfigStatus) {
    && i < |d.configs|
    && var c := d.configs[i];
       var newest := i + 1 == |d.configs|;
       match status
       case ConfigActive => Says(c, s, i, IncomingActive) && newest
       case ConfigFailed => Says(c, s, i, IncomingFailed) && newest
       case ConfigRolledBack => Says(c, s, i, IncomingRolledBack) && newest
       case ConfigAccepted => Says(c, s, i, IncomingAccepted) && newest
       case ConfigTimedOut => s.ClaimDispatch? && s.index == i && !Settled(c.status) && Overdue(c, s.claimedAt)
       case WaitingForGateway => s.ClaimDispatch? && s.index == i && Ready(c, s.claimedAt) && !s.gateway.live
       case ConfigPublished => s.RecordDispatch? && s.index == i && i in d.workers && s.sent
       case Superseded =>
         || (s.Acknowledge? && s.index == i && Names(c, s.ack) && !newest)
         || (s.ClaimDispatch? && s.index == i && Ready(c, s.claimedAt) && s.gateway.quarantined)
         || ((s.QueueConfig? || s.RetryConfig?) && !Settled(c.status))
       case ConfigQueued => false
  }

  predicate Says(c: Config, s: ConfigStep, i: nat, said: Incoming) {
    s.Acknowledge? && s.index == i && Names(c, s.ack) && s.ack.incoming == Some(said)
  }

  lemma ClaimCause(t: Timing, d: Delivery, i: nat, g: GatewayView, now: nat)
    requires i < |d.configs|
    ensures var s := ClaimDispatch(i, g, now);
            var status := Step(t, d, s).configs[i].status;
            status != d.configs[i].status ==> Causes(t, d, s, i, status)
  {
    if ClaimConfig(t, d.configs[i], g, now).1 {
      PublishesExactly(t, d.configs[i], g, now);
    } else {
      HeldBackExactly(t, d.configs[i], g, now);
    }
  }

  lemma AcknowledgeCause(t: Timing, d: Delivery, i: nat, a: Ack, now: nat)
    requires Numbered(d.configs) && i < |d.configs|
    ensures var s := Acknowledge(i, a, now);
            var status := Step(t, d, s).configs[i].status;
            status != d.configs[i].status ==> Causes(t, d, s, i, status)
  {
    LatestIsLength(d.configs);
  }

  /** A configuration never changes its status without such a step. */
  lemma StatusCause(t: Timing, d: Delivery, s: ConfigStep, i: nat)
    requires Numbered(d.configs) && i < |d.configs|
    ensures i < |Step(t, d, s).configs|
    ensures var status := Step(t, d, s).configs[i].status;
            status != d.configs[i].status ==> Causes(t, d, s, i, status)
  {
    hide SupersedeAll, Backoff, ClaimConfig, Acknowledged, LatestRevision;
    SupersedeAllAt(d.configs);
    if s.ClaimDispatch? && s.index == i {
      ClaimCause(t, d, i, s.gateway, s.claimedAt);
    } else if s.Acknowledge? && s.index == i {
      AcknowledgeCause(t, d, i, s.ack, s.ackedAt);
    }
  }

  lemma NewestIsQueued(t: Timing, d: Delivery, s: ConfigStep, i: nat)
    requires Numbered(d.configs) && i >= |d.configs| && i < |Step(t, d, s).configs|
    ensures Step(t, d, s).configs[i].status == ConfigQueued
  {
    hide SupersedeAll, LatestRevision;
    SupersedeAllAt(d.configs);
  }

  /** Step k gave the configuration its status, and it has kept it since. */
  ghost predicate Since(t: Timing, d: Delivery, steps: seq<ConfigStep>, i: nat, k: nat) {
    && k < |steps| && i < |Deliver(t, d, steps).configs|
    && var status := Deliver(t, d, steps).configs[i].status;
       && Causes(t, Deliver(t, d, steps[..k]), steps[k], i, status)
       && forall j :: k < j <= |steps| ==>
            i < |Deliver(t, d, steps[..j]).configs| && Deliver(t, d, steps[..j]).configs[i].status == status
  }

  /** Over every run, late records included: each status other than queued comes from such a step,
      and has been kept since. */
  lemma {:induction false} EveryStatusCaused(t: Timing, d: Delivery, steps: seq<ConfigStep>, i: nat) returns (k: nat)
    requires d.configs == [] && i < |Deliver(t, d, steps).configs|
    requires Deliver(t, d, steps).configs[i].status != ConfigQueued
    ensures Since(t, d, steps, i, k)
  {
    hide Step, Causes;
    var front := Front(steps);
    var e := Deliver(t, d, front);
    assert steps[..|steps|] == steps && steps[..|front|] == front;
    RevisionsKept(t, d, front);
    if i >= |e.configs| {
      NewestIsQueued(t, e, Last(steps), i);
    }
    StatusCause(t, e, Last(steps), i);
    if Deliver(t, d, steps).configs[i].status != e.configs[i].status {
      k := |front|;
    } else {
      k := EveryStatusCaused(t, d, front, i);
      assert front[..k] == steps[..k];
      forall j | k < j <= |steps|
        ensures i < |Deliver(t, d, steps[..j]).configs|
        ensures Deliver(t, d, steps[..j]).configs[i].status == e.configs[i].status
      {
        if j < |steps| {
          assert front[..j] == steps[..j];
        }
      }
    }
  }

  // --------------------------------------------------------- queueing and retry

  /** A new revision is queued behind the settled ones, and replaces every open one. */
  lemma QueueReplaces(t: Timing, d: Delivery, checksum: string, idempotency: nat, now: nat)
    requires Numbered(d.configs)
    ensures
      var after := Step(t, d, QueueConfig(checksum, idempotency, now)).configs;
      && |after| == |d.configs| + 1
      && Last(after).revision == |after| && Last(after).checksum == checksum && Last(after).idempotency == idempotency
      && Last(after).status == ConfigQueued && Due(Last(after).row, now) && Last(after).row.attemptCount == 0 && Last(after).expiresAt == now + t.ttl
      && forall i :: 0 <= i < |d.configs| ==>
           if Settled(d.configs[i].status) then after[i] == d.configs[i]
           else after[i].status == Superseded && after[i].row.status == RowCompleted
  {
    hide SupersedeAll;
    LatestIsLength(d.configs);
    SupersedeAllAt(d.configs);
  }

  /** A retry is accepted exactly after a reported failure or rollback, or a timeout; it queues the
      same payload again. */
  lemma RetryExactly(t: Timing, d: Delivery, steps: seq<ConfigStep>, i: nat, idempotency: nat, now: nat)
    requires d.configs == [] && i < |Deliver(t, d, steps).configs|
    ensures
      var e := Deliver(t, d, steps);
      var after := Step(t, e, RetryConfig(i, idempotency, now));
      && (after != e <==> e.configs[i].status in {ConfigFailed, ConfigRolledBack, ConfigTimedOut})
      && (after != e ==> after == Step(t, e, QueueConfig(e.configs[i].checksum, idempotency, now))
                         && exists k :: Since(t, d, steps, i, k))
  {
    hide Queue, Deliver, Since;
    var e := Deliver(t, d, steps);
    if e.configs[i].status in {ConfigFailed, ConfigRolledBack, ConfigTimedOut} {
      var k := EveryStatusCaused(t, d, steps, i);
      QueueGrows(t, e, e.configs[i].checksum, idempotency, now);
    }
  }

  lemma QueueGrows(t: Timing, d: Delivery, checksum: string, idempotency: nat, now: nat)
    ensures |Queue(t, d, checksum, idempotency, now).configs| == |d.configs| + 1
  {
    SupersedeAllAt(d.configs);
  }
}
