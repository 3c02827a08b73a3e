/** What each transaction on a command leaves behind: how a recorded outcome, a claim, a report, an
    approval and a reset move the command and its outbox row. */
module CommandOutcomes {

  import opened Common
  import opened CommandModel
  import opened CommandProofs

  // ------------------------------------------------------------ recorded outcomes

  /** An acknowledged publication ends the dispatch and brings the command to broker acknowledged,
      unless it is further already. */
  lemma AcknowledgedExactly(cfg: Settings, f: CommandFile, n: nat, request: nat, now: nat)
    requires InFlight(f, n)
    ensures var g := Record(cfg, f, n, Acknowledged(request), now);
            && g.outbox.Some? && g.outbox.value.status == Published && g.outbox.value.publishedAt == Some(now)
            && g.outbox.value.leaseExpiresAt == None && g.outbox.value.attemptCount == f.outbox.value.attemptCount
            && (forall later: nat :: !Claimable(g.outbox.value, later))
            && g.status == (if Rank(f.status) >= 6 then f.status else BrokerAcknowledged)
            && g.brokerAcknowledgedAt == Some(now) && g.transport == TransportAcknowledged
            && g.attempts[n - 1].state == AckReceived && g.attempts[n - 1].requestId == Some(request)
            && g.attempts[n - 1].completedAt == Some(now)
            && g.errorCode == f.errorCode && g.intent == f.intent && g.approval == f.approval && g.device == f.device
  {
    hide NextEvent;
  }

  /** A publication of unknown outcome ends the dispatch as well; the command's outcome is unknown
      unless the broker or the Gateway has already answered. */
  lemma UnknownExactly(cfg: Settings, f: CommandFile, n: nat, request: nat, doubt: string, now: nat)
    requires InFlight(f, n)
    ensures var g := Record(cfg, f, n, Unknown(request, doubt), now);
            && g.outbox.Some? && g.outbox.value.status == Published && g.outbox.value.lastError == doubt
            && g.outbox.value.leaseExpiresAt == None && g.outbox.value.attemptCount == f.outbox.value.attemptCount
            && (forall later: nat :: !Claimable(g.outbox.value, later))
            && g.status == (if Rank(f.status) >= 6 then f.status else OutcomeUnknown)
            && g.errorCode == BrokerAckUnknown && g.errorMessage == doubt && g.transport == TransportUnknown
            && g.brokerAcknowledgedAt == f.brokerAcknowledgedAt
            && g.attempts[n - 1].state == AckUnknown && g.attempts[n - 1].requestId == Some(request)
            && g.attempts[n - 1].error == doubt
            && g.intent == f.intent && g.approval == f.approval && g.device == f.device
  {
    hide NextEvent;
  }

  /** A failure before the broker accepted anything: with attempts left the row can be claimed again
      from the end of the retry delay on and not before, and the command keeps waiting; without,
      the row is dead and a waiting command failed. */
  lemma NotSentExactly(cfg: Settings, f: CommandFile, n: nat, reason: string, now: nat)
    requires InFlight(f, n)
    ensures
      var g := Record(cfg, f, n, NotSent(reason), now);
      var used := f.outbox.value.attemptCount;
      && g.outbox.Some? && g.outbox.value.attemptCount == used && g.outbox.value.lastError == reason
      && g.outbox.value.leaseExpiresAt == None && g.outbox.value.claimedAt == None
      && g.attempts[n - 1].state == FailedBeforeAck && g.attempts[n - 1].error == reason
      && (if used < cfg.maxAttempts then
            && (forall later: nat :: Claimable(g.outbox.value, later) <==> now + RetryDelay(cfg, used) <= later)
            && g.status == f.status && g.errorCode == PublishFailedBeforeAck && g.transport == TransportRetry
          else
            && (forall later: nat :: !Claimable(g.outbox.value, later)) && g.outbox.value.status == DeadLetter
            && g.status == (if Waiting(f.status) then Failed else f.status)
            && g.errorCode == PublishAttemptsExhausted && g.transport == TransportDead)
      && g.errorMessage == reason && g.intent == f.intent && g.approval == f.approval && g.device == f.device
  {
    hide NextEvent, RetryDelay;
  }

  // ----------------------------------------------------------------- the claim

  /** A claim that opens an attempt leases the row for the lease time and counts the attempt; a
      queued command becomes dispatching, one that is further stays. */
  lemma OpenedExactly(cfg: Settings, f: CommandFile, now: nat)
    requires Opens(cfg, f, None, now)
    ensures
      var g := Claim(cfg, f, None, now);
      && g.outbox.Some? && g.outbox.value.attemptCount == f.outbox.value.attemptCount + 1
      && (forall later: nat :: Claimable(g.outbox.value, later) <==>
            now + cfg.leaseSeconds <= later && f.outbox.value.nextAttemptAt <= later)
      && g.status == (if Rank(f.status) >= 4 then f.status else Dispatching)
      && |g.events| == |f.events| + (if Rank(f.status) >= 4 then 0 else 1)
      && g.attempts == f.attempts + [Attempt(f.outbox.value.attemptCount + 1, Started, now, None, None, "")]
      && g.transport == TransportDispatching && g.approval == f.approval && g.device == f.device
  {
    hide NextEvent;
  }

  /** A claim that finds the attempts used up ends the dispatch; a waiting command failed. */
  lemma ExhaustedExactly(cfg: Settings, f: CommandFile, denial: Option<Denial>, now: nat)
    requires f.outbox.Some? && Claimable(f.outbox.value, now) && f.outbox.value.attemptCount >= cfg.maxAttempts
    ensures
      var g := Claim(cfg, f, denial, now);
      && g.outbox.Some? && g.outbox.value.status == DeadLetter && g.outbox.value.deadLetteredAt == Some(now)
      && g.outbox.value.leaseExpiresAt == None
      && g.outbox.value.lastError != "" && (f.outbox.value.lastError != "" ==> g.outbox.value.lastError == f.outbox.value.lastError)
      && g.status == (if Waiting(f.status) then Failed else f.status)
      && g.errorCode == DispatchAttemptsExhausted && g.attempts == f.attempts
  {
    hide NextEvent;
  }

  /** A refused claim cancels the row and relabels the command, whatever its status was: expired if
      its time was over, cancelled for any other reason. */
  lemma RefusedExactly(cfg: Settings, f: CommandFile, d: Denial, now: nat)
    requires f.outbox.Some? && Claimable(f.outbox.value, now) && f.outbox.value.attemptCount < cfg.maxAttempts
    ensures
      var g := Claim(cfg, f, Some(d), now);
      && g.status == (if d.code == CommandExpired then Expired else Cancelled)
      && g.errorCode == d.code && g.errorMessage == d.message && g.transport == TransportCancelled
      && g.outbox.Some? && g.outbox.value.status == OutboxCancelled && g.outbox.value.leaseExpiresAt == None
      && g.outbox.value.lastError == d.message && g.attempts == f.attempts && g.approval == f.approval
  {
    hide NextEvent;
  }

  // ----------------------------------------------------------- the status order

  /** The stages of a command, in order; statuses of one stage stand together, the refused and failed
      endings above every stage at 100, the reconciled ones above those. */
  const STAGES: seq<set<Status>> := [
    {Requested}, {AwaitingApproval}, {Approved}, {Queued}, {Dispatching}, {PublishAccepted, OutcomeUnknown},
    {BrokerAcknowledged}, {GatewayReceived}, {Executing}, {FieldProtocolAccepted, ActionInitiated},
    {VerificationPending}, {Verified, ActionCompleted}]

  lemma RankFollowsStages(i: nat, s: Status)
    requires i < |STAGES| && s in STAGES[i]
    ensures Rank(s) == i && Progress(s) == i
  {
  }

  lemma RankOfEndings(s: Status)
    ensures s in {PolicyDenied, Rejected, Failed, Expired, TimedOut, Cancelled} ==> Rank(s) == 100
    ensures s in {ReconciledVerified, ReconciledNotApplied, ReconciledUnresolved} ==> Rank(s) == 110 && Progress(s) == 100
    ensures Rank(s) >= 100 ==> Terminal(s)
    ensures Terminal(s) && Rank(s) < 100 ==> s in {Verified, ActionCompleted}
  {
  }

  // ---------------------------------------------------- reports, approvals, reset

  /** A lifecycle report changes the status exactly when it is one a Gateway or the Hub may report,
      the command is not final, and the report is no step back. */
  lemma ReportMovesExactly(cfg: Settings, f: CommandFile, to: Status, kind: EventKind, evidence: Evidence, u: Updates)
    ensures
      var g := Apply(cfg, f, LifecycleReport(to, kind, evidence, u));
      var moves := Reportable(to) && f.status != to && !Terminal(f.status) && Rank(f.status) <= Rank(to);
      && g.status == (if moves then to else f.status)
      && |g.events| == |f.events| + (if moves then 1 else 0)
      && (moves ==> Last(g.events).fromStatus == Some(f.status) && Last(g.events).toStatus == Some(to)
                    && Last(g.events).kind == kind && Last(g.events).evidence == evidence)
      && (moves || (Reportable(to) && f.status == to) ==>
            match u
            case NoUpdates => g.execution == f.execution && g.errorCode == f.errorCode
            case Stage(stage) => g.execution == stage && g.errorCode == f.errorCode
            case Failure(code, message) => g.execution == f.execution && g.errorCode == code && g.errorMessage == message)
      && g.outbox == f.outbox && g.attempts == f.attempts && g.approval == f.approval && g.device == f.device
  {
  }

  /** An approval decision is accepted if and only if every check holds; it then queues the command
      with a row due at once, under the approver's name. */
  lemma ApprovalExactly(cfg: Settings, f: CommandFile, c: ApprovalContext, now: nat)
    ensures
      var g := Apply(cfg, f, ApprovalDecision(c, now));
      var accepted :=
        && f.approval.Some? && f.outbox.None? && f.intent.requester != Some(c.approver) && c.permitted && c.mfa
        && now < f.approval.value.expiresAt && now < f.intent.expiresAt
        && c.recentAuthAt.Some? && now <= c.recentAuthAt.value + 300
        && f.approval.value.binding.intent == f.intent && f.approval.value.binding.device == f.device
        && f.approval.value.binding.currentValue == c.currentValue;
      if !accepted then g == f
      else
        && g.status == Queued && g.outbox.Some? && g.outbox.value.attemptCount == 0
        && (forall later: nat :: Claimable(g.outbox.value, later) <==> now <= later)
        && g.approval.Some? && g.approval.value.status == ApprovalGranted && g.approval.value.approver == Some(c.approver)
        && g.attempts == f.attempts && Last(g.events).actor == Some(c.approver)
  {
    hide NextEvent;
    ApproverLogged(cfg, f, c, now);
  }

  lemma ApproverLogged(cfg: Settings, f: CommandFile, c: ApprovalContext, now: nat)
    ensures var g := Approve(cfg, f, c, now);
            g != f ==> Last(g.events).actor == Some(c.approver)
  {
  }

  /** The disaster reset cancels a waiting command and its pending or claimed row and invalidates an
      approval that is still open; a command past publication keeps its status. */
  lemma ResetExactly(f: CommandFile, reason: string)
    ensures
      var g := Reset(f, reason);
      && g.status == (if Rank(f.status) <= 4 then Cancelled else f.status)
      && (Rank(f.status) <= 4 ==> g.errorCode == DisasterRecoveryReset && g.errorMessage == reason)
      && (f.outbox.Some? <==> g.outbox.Some?)
      && (f.outbox.Some? ==>
            g.outbox.value.status == if f.outbox.value.status in {PendingDispatch, ClaimedByWorker} then OutboxCancelled
                                     else f.outbox.value.status)
      && (f.approval.Some? <==> g.approval.Some?)
      && (f.approval.Some? ==>
            g.approval.value.status == if f.approval.value.status == ApprovalPending then ApprovalInvalidated
                                       else f.approval.value.status)
      && g.attempts == f.attempts && g.events == f.events && g.intent == f.intent && g.device == f.device
  {
  }
}
