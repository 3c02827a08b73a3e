/** The command and outbox rows as the source updates them: field by field under the row
    locks of one transaction. Each method is proved against CommandModel. */
module CommandStore {

  import opened Common
  import opened CommandModel

  class OutboxRow {
    var status: OutboxStatus
    var attemptCount: nat
    var nextAttemptAt: nat
    var claimedAt: Option<nat>
    var leaseExpiresAt: Option<nat>
    var publishedAt: Option<nat>
    var deadLetteredAt: Option<nat>
    var lastError: string

    ghost function Value(): Outbox
      reads this
    {
      Outbox(status, attemptCount, nextAttemptAt, claimedAt, leaseExpiresAt, publishedAt, deadLetteredAt, lastError)
    }

    constructor (now: nat)
      ensures Value() == NewOutbox(now)
    {
      status, attemptCount, nextAttemptAt := PendingDispatch, 0, now;
      claimedAt, leaseExpiresAt, publishedAt, deadLetteredAt := None, None, None, None;
      lastError := "";
    }

    method IsClaimable(now: nat) returns (claimable: bool)
      ensures claimable == Claimable(Value(), now)
    {
      claimable := status == PendingDispatch || status == RetryScheduled;
      claimable := claimable || (status == ClaimedByWorker && leaseExpiresAt.Some? && leaseExpiresAt.value <= now);
      if !claimable || nextAttemptAt > now {
        return false;
      }
    }

    /** Attempts used up by expired leases. */
    method ExhaustLeases(now: nat)
      modifies this
      ensures Value() == old(Value()).(status := DeadLetter, deadLetteredAt := Some(now), leaseExpiresAt := None,
                                       lastError := if old(lastError) == "" then LEASES_EXHAUSTED else old(lastError))
    {
      status := DeadLetter;
      deadLetteredAt := Some(now);
      leaseExpiresAt := None;
      if lastError == "" {
        lastError := LEASES_EXHAUSTED;
      }
    }

    /** The broker acknowledged. */
    method Publish(now: nat)
      modifies this
      ensures Value() == old(Value()).(status := Published, publishedAt := Some(now), leaseExpiresAt := None)
    {
      status := Published;
      publishedAt := Some(now);
      leaseExpiresAt := None;
    }

    /** The broker may have the message: nothing may be retried. */
    method PublishInDoubt(error: string)
      modifies this
      ensures Value() == old(Value()).(status := Published, lastError := error, leaseExpiresAt := None)
    {
      status := Published;
      lastError := error;
      leaseExpiresAt := None;
    }

    method Reschedule(error: string, next: nat)
      modifies this
      ensures Value() == old(Value()).(status := RetryScheduled, lastError := error, claimedAt := None,
                                       leaseExpiresAt := None, nextAttemptAt := next)
    {
      lastError := error;
      claimedAt := None;
      leaseExpiresAt := None;
      status := RetryScheduled;
      nextAttemptAt := next;
    }

    method Bury(error: string, now: nat)
      modifies this
      ensures Value() == old(Value()).(status := DeadLetter, lastError := error, claimedAt := None,
                                       leaseExpiresAt := None, deadLetteredAt := Some(now))
    {
      lastError := error;
      claimedAt := None;
      leaseExpiresAt := None;
      status := DeadLetter;
      deadLetteredAt := Some(now);
    }

    method Lease(now: nat, seconds: nat)
      modifies this
      ensures Value() == old(Value()).(status := ClaimedByWorker, claimedAt := Some(now),
                                       leaseExpiresAt := Some(now + seconds), attemptCount := old(attemptCount) + 1)
    {
      status := ClaimedByWorker;
      claimedAt := Some(now);
      leaseExpiresAt := Some(now + seconds);
      attemptCount := attemptCount + 1;
    }

    method Cancel(message: string)
      modifies this
      ensures Value() == old(Value()).(status := OutboxCancelled, lastError := message, leaseExpiresAt := None)
    {
      status := OutboxCancelled;
      lastError := message;
      leaseExpiresAt := None;
    }
  }

  class CommandRow {
    const cfg: Settings
    const intent: Intent
    var device: Option<DeviceId>
    var status: Status
    var transport: Transport
    var execution: string
    var errorCode: Code
    var errorMessage: string
    var brokerAcknowledgedAt: Option<nat>
    var approval: Option<Approval>
    var outbox: OutboxRow?
    var attempts: seq<Attempt>
    var events: seq<Event>

    ghost function File(): CommandFile
      reads this, outbox
    {
      CommandFile(intent, device, status, transport, execution, errorCode, errorMessage, brokerAcknowledgedAt,
                  approval, if outbox == null then None else Some(outbox.Value()), attempts, events)
    }

    /** _append_command_event_locked */
    method AppendEvent(
      kind: EventKind, fromStatus: Option<Status>, toStatus: Option<Status>, actor: Option<UserId>, evidence: Evidence)
      modifies this`events
      ensures File() == Append(cfg, old(File()), kind, fromStatus, toStatus, actor, evidence)
    {
      var sequence, previous := 1, "";
      if events != [] {
        sequence := Last(events).sequence + 1;
        previous := Last(events).checksum;
      }
      var payload := EventPayload(intent.id, sequence, kind, fromStatus, toStatus, actor, evidence, previous);
      var checksum := cfg.digest(payload);
      events := events + [Event(sequence, kind, fromStatus, toStatus, actor, evidence, checksum)];
    }

    method ApplyUpdates(u: Updates)
      modifies this`execution, this`errorCode, this`errorMessage
      ensures File() == WithUpdates(old(File()), u)
    {
      match u
      case NoUpdates =>
      case Stage(stage) => execution := stage;
      case Failure(code, message) => errorCode, errorMessage := code, message;
    }

    /** The part of transition_command that changes the status. */
    method Move(to: Status, kind: EventKind, evidence: Evidence, u: Updates)
      modifies this
      ensures File() == Logged(cfg, WithUpdates(old(File()).(status := to), u), old(status), kind, None, evidence)
      ensures outbox == old(outbox)
    {
      var previous := status;
      status := to;
      assert File() == old(File()).(status := to);
      ApplyUpdates(u);
      assert File() == WithUpdates(old(File()).(status := to), u);
      AppendEvent(kind, Some(previous), Some(to), None, evidence);
    }

    /** transition_command */
    method TransitionTo(to: Status, kind: EventKind, evidence: Evidence, u: Updates) returns (changed: bool)
      modifies this
      ensures File() == Transition(cfg, old(File()), to, kind, evidence, u)
      ensures changed <==> TransitionAllowed(old(status), to)
      ensures outbox == old(outbox)
    {
      ghost var before := File();
      if status == to {
        ApplyUpdates(u);
        assert Transition(cfg, before, to, kind, evidence, u) == WithUpdates(before, u);
        return false;
      }
      if Terminal(status) || Rank(to) < Rank(status) {
        assert Transition(cfg, before, to, kind, evidence, u) == before;
        return false;
      }
      assert TransitionAllowed(before.status, to);
      assert Transition(cfg, before, to, kind, evidence, u)
          == Logged(cfg, WithUpdates(before.(status := to), u), before.status, kind, None, evidence);
      Move(to, kind, evidence, u);
      return true;
    }

    /** approve_command: every refusal rolls the transaction back. */
    method GrantApproval(c: ApprovalContext, now: nat) returns (granted: bool)
      modifies this
      ensures granted == old(ApprovalAccepted(File(), c, now))
      ensures File() == Approve(cfg, old(File()), c, now)
    {
      if approval.None? || intent.requester == Some(c.approver) || !c.permitted {
        return false;
      }
      if approval.value.expiresAt <= now || intent.expiresAt <= now {
        return false;
      }
      if !c.mfa || c.recentAuthAt.None? || now > c.recentAuthAt.value + 300 {
        return false;
      }
      if Binding(intent, device, c.currentValue) != approval.value.binding {
        return false;
      }
      if outbox != null {
        return false;  // a second outbox row would violate the one-to-one constraint
      }
      approval := Some(approval.value.(status := ApprovalGranted, approver := Some(c.approver)));
      var previous := status;
      status := Queued;
      outbox := new OutboxRow(now);
      AppendEvent(CommandApproved, Some(previous), Some(status), Some(c.approver), Blank);
      return true;
    }

    method NoteTransport(transport: Transport, code: Code, message: string)
      modifies this`transport, this`errorCode, this`errorMessage
      ensures File() == old(File()).(transport := transport, errorCode := code, errorMessage := message)
    {
      this.transport := transport;
      errorCode := code;
      errorMessage := message;
    }

    /** _cancel_claim_locked */
    method CancelClaim(code: Code, message: string)
      requires outbox != null
      modifies this, outbox
      ensures outbox == old(outbox)
      ensures File() == Refuse(cfg, old(File()), Denial(code, message))
    {
      var previous := status;
      var target := if code == CommandExpired then Expired else Cancelled;
      outbox.Cancel(message);
      status := target;
      NoteTransport(TransportCancelled, code, message);
      AppendEvent(DispatchCancelled, Some(previous), Some(target), None, Refused(code, message));
    }

    /** The dead-letter branch of the claim transaction. */
    method ExhaustClaim(now: nat)
      requires outbox != null
      modifies this, outbox
      ensures outbox == old(outbox)
      ensures File() == Exhaust(cfg, old(File()), now)
    {
      var previous := status;
      outbox.ExhaustLeases(now);
      if Rank(status) <= Rank(Dispatching) {
        status := Failed;
      }
      NoteTransport(TransportDead, DispatchAttemptsExhausted, outbox.lastError);
      assert File() == WithDeadLetter(old(File()), outbox.Value(), DispatchAttemptsExhausted);
      AppendEvent(OutboxDeadLettered, Some(previous), Some(status), None,
                  DeadLettered(outbox.attemptCount, "expired_worker_lease"));
    }

    /** The lease and attempt opened by an accepted claim. */
    method OpenAttempt(now: nat) returns (attempt: nat)
      requires outbox != null
      modifies this, outbox
      ensures outbox == old(outbox)
      ensures File() == Open(cfg, old(File()), now)
      ensures attempt == old(outbox.attemptCount) + 1
    {
      hide NextEvent;
      outbox.Lease(now, cfg.leaseSeconds);
      if Rank(status) < Rank(Dispatching) {
        var previous := status;
        status := Dispatching;
        AppendEvent(DispatchClaimed, Some(previous), Some(status), None, Claimed(outbox.attemptCount));
      }
      transport := TransportDispatching;
      attempt := outbox.attemptCount;
      attempts := attempts + [Attempt(attempt, Started, now, None, None, "")];
    }

    /** First transaction of dispatch_outbox; denial is the verdict of the revalidation. */
    method ClaimForDispatch(denial: Option<Denial>, now: nat) returns (attempt: Option<nat>)
      modifies this, outbox
      ensures outbox == old(outbox)
      ensures File() == Claim(cfg, old(File()), denial, now)
      ensures attempt.Some? <==> old(Opens(cfg, File(), denial, now))
      ensures attempt.Some? ==> outbox != null && attempt.value == old(outbox.attemptCount) + 1
    {
      if outbox == null {
        return None;
      }
      var claimable := outbox.IsClaimable(now);
      if !claimable {
        return None;
      }
      if outbox.attemptCount >= cfg.maxAttempts {
        ExhaustClaim(now);
        return None;
      }
      if denial.Some? {
        CancelClaim(denial.value.code, denial.value.message);
        return None;
      }
      var n := OpenAttempt(now);
      return Some(n);
    }

    /** Last transaction of dispatch_outbox after the broker acknowledged. */
    method RecordAck(attempt: nat, requestId: nat, now: nat)
      requires InFlight(File(), attempt)
      modifies this, outbox
      ensures outbox == old(outbox)
      ensures File() == RecordAcknowledged(cfg, old(File()), attempt, requestId, now)
    {
      outbox.Publish(now);
      var previous := status;
      if Rank(status) < Rank(BrokerAcknowledged) {
        status := BrokerAcknowledged;
      }
      transport := TransportAcknowledged;
      brokerAcknowledgedAt := Some(now);
      attempts := Closed(attempts, attempt, AckReceived, Some(requestId), attempts[attempt - 1].error, now);
      assert File() == old(File()).(outbox := Some(outbox.Value()), status := status, transport := transport,
                                    brokerAcknowledgedAt := brokerAcknowledgedAt, attempts := attempts);
      AppendEvent(AckRecorded, Some(previous), Some(status), None, Publication(requestId));
    }

    /** The transaction recording that nobody knows whether the broker took the message. */
    method RecordDoubt(attempt: nat, requestId: nat, error: string, now: nat)
      requires InFlight(File(), attempt)
      modifies this, outbox
      ensures outbox == old(outbox)
      ensures File() == RecordUnknown(cfg, old(File()), attempt, requestId, error, now)
    {
      attempts := Closed(attempts, attempt, AckUnknown, Some(requestId), error, now);
      outbox.PublishInDoubt(error);
      var previous := status;
      if Rank(status) <= Rank(OutcomeUnknown) {
        status := OutcomeUnknown;
      }
      NoteTransport(TransportUnknown, BrokerAckUnknown, error);
      AppendEvent(AckUnknownRecorded, Some(previous), Some(status), None, Publication(requestId));
    }

    /** _record_pre_ack_failure once the attempts are used up. */
    method RecordLastFailure(attempt: nat, error: string, now: nat)
      requires InFlight(File(), attempt) && outbox.attemptCount >= cfg.maxAttempts
      modifies this, outbox
      ensures outbox == old(outbox)
      ensures File() == RecordFailure(cfg, old(File()), attempt, error, now)
    {
      attempts := Closed(attempts, attempt, FailedBeforeAck, attempts[attempt - 1].requestId, error, now);
      outbox.Bury(error, now);
      var previous := status;
      if Rank(status) <= Rank(Dispatching) {
        status := Failed;
      }
      NoteTransport(TransportDead, PublishAttemptsExhausted, error);
      assert File() == WithDeadLetter(old(File()).(attempts := attempts), outbox.Value(), PublishAttemptsExhausted);
      AppendEvent(OutboxDeadLettered, Some(previous), Some(status), None, DeadLettered(outbox.attemptCount, error));
    }

    /** _record_pre_ack_failure while attempts remain. */
    method RecordRetry(attempt: nat, error: string, now: nat)
      requires InFlight(File(), attempt) && outbox.attemptCount < cfg.maxAttempts
      modifies this, outbox
      ensures outbox == old(outbox)
      ensures File() == RecordFailure(cfg, old(File()), attempt, error, now)
    {
      attempts := Closed(attempts, attempt, FailedBeforeAck, attempts[attempt - 1].requestId, error, now);
      var next := now + RetryDelay(cfg, outbox.attemptCount);
      outbox.Reschedule(error, next);
      NoteTransport(TransportRetry, PublishFailedBeforeAck, error);
      AppendEvent(OutboxRetryScheduled, Some(status), Some(status), None,
                  Rescheduled(outbox.attemptCount, next, error));
    }

    /** _record_pre_ack_failure */
    method RecordPreAckFailure(attempt: nat, error: string, now: nat)
      requires InFlight(File(), attempt)
      modifies this, outbox
      ensures outbox == old(outbox)
      ensures File() == RecordFailure(cfg, old(File()), attempt, error, now)
    {
      if outbox.attemptCount >= cfg.maxAttempts {
        RecordLastFailure(attempt, error, now);
      } else {
        RecordRetry(attempt, error, now);
      }
    }

    /** One recording transaction, whichever way the publication ended. */
    method RecordOutcome(attempt: nat, outcome: Outcome, now: nat)
      requires InFlight(File(), attempt)
      modifies this, outbox
      ensures outbox == old(outbox)
      ensures File() == Record(cfg, old(File()), attempt, outcome, now)
    {
      match outcome
      case Acknowledged(requestId) => RecordAck(attempt, requestId, now);
      case Unknown(requestId, doubt) => RecordDoubt(attempt, requestId, doubt, now);
      case NotSent(reason) => RecordPreAckFailure(attempt, reason, now);
    }

    /** The part of disaster_recovery_control_reset that falls on this command. */
    method ResetForRecovery(reason: string)
      modifies this, outbox
      ensures outbox == old(outbox)
      ensures File() == Reset(old(File()), reason)
    {
      if Rank(status) <= Rank(Dispatching) {
        status := Cancelled;
        errorCode := DisasterRecoveryReset;
        errorMessage := reason;
      }
      if outbox != null && (outbox.status == PendingDispatch || outbox.status == ClaimedByWorker) {
        outbox.status := OutboxCancelled;
        outbox.lastError := reason;
      }
      if approval.Some? && approval.value.status == ApprovalPending {
        approval := Some(approval.value.(status := ApprovalInvalidated));
      }
    }
  }
}
