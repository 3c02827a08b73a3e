/** What every interleaving of the transactions on one command keeps: its event log,
    its status order, its attempt count, its outbox and its leases. */
module CommandProofs {

  import opened Common
  import opened CommandModel

  // --------------------------------------------------------- event log replay

  predicate Numbered(events: seq<Event>) {
    forall i :: 0 <= i < |events| ==> events[i].sequence == i + 1
  }

  /** The status the log alone leads to: it starts at Requested, every event that bears
      statuses must leave the status reached so far, and blank events move nothing. */
  function Replay(events: seq<Event>): Option<Status> {
    if events == [] then Some(Requested)
    else
      var e := Last(events);
      var reached := Replay(Front(events));
      if e.fromStatus.None? && e.toStatus.None? then reached
      else if reached.Some? && e.fromStatus == reached && e.toStatus.Some? then e.toStatus
      else None
  }

  ghost predicate LogSound(f: CommandFile) {
    f.events != [] && Numbered(f.events) && Replay(f.events) == Some(f.status)
  }

  lemma AppendReplays(
    cfg: Settings, f: CommandFile, kind: EventKind, fromStatus: Option<Status>, toStatus: Option<Status>,
    actor: Option<UserId>, evidence: Evidence)
    requires Numbered(f.events)
    ensures Numbered(Append(cfg, f, kind, fromStatus, toStatus, actor, evidence).events)
    ensures fromStatus.None? && toStatus.None? ==>
              Replay(Append(cfg, f, kind, fromStatus, toStatus, actor, evidence).events) == Replay(f.events)
    ensures Append(cfg, f, kind, fromStatus, toStatus, actor, evidence) ==
            f.(events := Append(cfg, f, kind, fromStatus, toStatus, actor, evidence).events)
    ensures Append(cfg, f, kind, fromStatus, toStatus, actor, evidence).events != []
    ensures toStatus.Some? && Replay(f.events).Some? && fromStatus == Replay(f.events) ==>
              Replay(Append(cfg, f, kind, fromStatus, toStatus, actor, evidence).events) == toStatus
  {
    var events := Append(cfg, f, kind, fromStatus, toStatus, actor, evidence).events;
    assert Front(events) == f.events;
  }

  lemma NewLogSound(
    cfg: Settings, intent: Intent, device: Option<DeviceId>, denial: Option<Denial>, approvalRequired: bool,
    currentValue: Option<string>, now: nat)
    ensures LogSound(NewFile(cfg, intent, device, denial, approvalRequired, currentValue, now))
  {
    hide NextEvent, Append;
    var created := Created(intent, device, denial, approvalRequired);
    assert Replay([]) == Some(Requested);
    AppendReplays(
      cfg, created,
      if denial.Some? then PolicyDecisionDenied else if approvalRequired then ApprovalRequested else CommandQueued,
      Some(Requested), Some(created.status), intent.requester,
      if denial.Some? then Denied(denial.value.code) else ForOperation(intent.operation));
  }

  lemma ExhaustKeepsLog(cfg: Settings, f: CommandFile, now: nat)
    requires LogSound(f) && f.outbox.Some?
    ensures LogSound(Exhaust(cfg, f, now))
  {
    assert Front(Exhaust(cfg, f, now).events) == f.events;
  }

  lemma RefuseKeepsLog(cfg: Settings, f: CommandFile, d: Denial)
    requires LogSound(f) && f.outbox.Some?
    ensures LogSound(Refuse(cfg, f, d))
  {
    assert Front(Refuse(cfg, f, d).events) == f.events;
  }

  lemma OpenKeepsLog(cfg: Settings, f: CommandFile, now: nat)
    requires LogSound(f) && f.outbox.Some?
    ensures LogSound(Open(cfg, f, now))
  {
    if Rank(f.status) < Rank(Dispatching) {
      assert Front(Open(cfg, f, now).events) == f.events;
    }
  }

  lemma ClaimKeepsLog(cfg: Settings, f: CommandFile, denial: Option<Denial>, now: nat)
    requires LogSound(f)
    ensures LogSound(Claim(cfg, f, denial, now))
  {
    if f.outbox.Some? {
      ExhaustKeepsLog(cfg, f, now);
      OpenKeepsLog(cfg, f, now);
      if denial.Some? {
        RefuseKeepsLog(cfg, f, denial.value);
      }
    }
  }

  lemma RecordKeepsLog(cfg: Settings, f: CommandFile, n: nat, outcome: Outcome, now: nat)
    requires LogSound(f)
    ensures LogSound(Record(cfg, f, n, outcome, now))
  {
    if InFlight(f, n) {
      var g := Record(cfg, f, n, outcome, now);
      var e := Last(g.events);
      assert Front(g.events) == f.events;
    }
  }

  lemma UpdatesKeepStatus(f: CommandFile, u: Updates)
    ensures WithUpdates(f, u).status == f.status && WithUpdates(f, u).events == f.events
  {
  }

  lemma TransitionKeepsLog(
    cfg: Settings, f: CommandFile, to: Status, kind: EventKind, evidence: Evidence, u: Updates)
    requires LogSound(f)
    ensures LogSound(Transition(cfg, f, to, kind, evidence, u))
  {
    hide Append, TransitionAllowed, Replay, Numbered, WithUpdates;
    UpdatesKeepStatus(f, u);
    UpdatesKeepStatus(f.(status := to), u);
    if TransitionAllowed(f.status, to) {
      AppendReplays(cfg, WithUpdates(f.(status := to), u), kind, Some(f.status), Some(to), None, evidence);
    }
  }

  lemma ApprovalKeepsLog(cfg: Settings, f: CommandFile, c: ApprovalContext, now: nat)
    requires LogSound(f)
    ensures LogSound(Approve(cfg, f, c, now))
  {
    AppendReplays(cfg, f, CommandApproved, Some(f.status), Some(Queued), Some(c.approver), Blank);
  }

  lemma StepKeepsLog(cfg: Settings, f: CommandFile, step: FileStep)
    requires LogSound(f) && !step.DisasterReset?
    ensures LogSound(Apply(cfg, f, step))
  {
    match step
    case LifecycleReport(to, kind, evidence, u) => TransitionKeepsLog(cfg, f, to, kind, evidence, u);
    case Annotation(note, text) => AppendReplays(cfg, f, note, None, None, None, CommandModel.Report(text));
    case ApprovalDecision(c, now) => ApprovalKeepsLog(cfg, f, c, now);
    case DispatchClaim(denial, now) => ClaimKeepsLog(cfg, f, denial, now);
    case WorkerRecord(n, outcome, now) => RecordKeepsLog(cfg, f, n, outcome, now);
    case DeviceRemoval =>
  }

  /** Event log replay, for every interleaving without a disaster reset: numbered 1..n, a
      chain from Requested to the status the command has. */
  lemma {:induction false} EventLogReplays(cfg: Settings, f: CommandFile, steps: seq<FileStep>)
    requires LogSound(f)
    requires forall s :: s in steps ==> !s.DisasterReset?
    ensures LogSound(Run(cfg, f, steps))
  {
    if steps != [] {
      EventLogReplays(cfg, f, Front(steps));
      StepKeepsLog(cfg, Run(cfg, f, Front(steps)), Last(steps));
    }
  }

  /** A disaster reset writes no event, so it leaves the log sound exactly when it finds
      the command past every waiting status. */
  lemma ResetKeepsLogExactly(f: CommandFile, reason: string)
    requires LogSound(f)
    ensures LogSound(Reset(f, reason)) <==> !Waiting(f.status)
  {
  }

  /** Read event by event: without blank events, each starts where the one before ended. */
  lemma {:induction false} ReplayLinks(events: seq<Event>, i: nat)
    requires Replay(events).Some? && i < |events|
    requires forall e :: e in events ==> e.fromStatus.Some? || e.toStatus.Some?
    ensures events[i].fromStatus == (if i == 0 then Some(Requested) else events[i - 1].toStatus)
    ensures Last(events).toStatus == Replay(events)
  {
    assert Last(events) in events;
    if i < |events| - 1 {
      ReplayLinks(Front(events), i);
    } else if i > 0 {
      ReplayLinks(Front(events), i - 1);
    }
  }

  // ---------------------------------------------------------------- hash chain

  ghost predicate Injective(digest: EventPayload -> Digest) {
    forall p, q :: digest(p) == digest(q) ==> p == q
  }

  /** The payload the checksum of the last event must cover. */
  function LastPayload(command: CommandId, events: seq<Event>): EventPayload
    requires events != []
  {
    var e := Last(events);
    EventPayload(command, |events|, e.kind, e.fromStatus, e.toStatus, e.actor, e.evidence,
                 if |events| == 1 then "" else Last(Front(events)).checksum)
  }

  predicate Chained(digest: EventPayload -> Digest, command: CommandId, events: seq<Event>) {
    || events == []
    || (&& Last(events).sequence == |events|
        && Last(events).checksum == digest(LastPayload(command, events))
        && Chained(digest, command, Front(events)))
  }

  lemma AppendChains(
    cfg: Settings, f: CommandFile, kind: EventKind, fromStatus: Option<Status>, toStatus: Option<Status>,
    actor: Option<UserId>, evidence: Evidence)
    requires Chained(cfg.digest, f.intent.id, f.events)
    ensures Chained(cfg.digest, f.intent.id, Append(cfg, f, kind, fromStatus, toStatus, actor, evidence).events)
  {
    assert Front(Append(cfg, f, kind, fromStatus, toStatus, actor, evidence).events) == f.events;
  }

  /** g has the log of f, or that log and one event appended to it. */
  ghost predicate Extends(cfg: Settings, f: CommandFile, g: CommandFile) {
    && g.intent == f.intent
    && (|| g.events == f.events
        || (&& g.events != []
            && var e := Last(g.events);
               g.events == Append(cfg, f, e.kind, e.fromStatus, e.toStatus, e.actor, e.evidence).events))
  }

  lemma ClaimExtends(cfg: Settings, f: CommandFile, denial: Option<Denial>, now: nat)
    ensures Extends(cfg, f, Claim(cfg, f, denial, now))
  {
  }

  lemma RecordExtends(cfg: Settings, f: CommandFile, n: nat, outcome: Outcome, now: nat)
    ensures Extends(cfg, f, Record(cfg, f, n, outcome, now))
  {
  }

  /** The log is append-only: every step leaves it as it was or adds exactly one event. */
  lemma StepExtends(cfg: Settings, f: CommandFile, step: FileStep)
    ensures Extends(cfg, f, Apply(cfg, f, step))
  {
    match step
    case DispatchClaim(denial, now) => ClaimExtends(cfg, f, denial, now);
    case WorkerRecord(n, outcome, now) => RecordExtends(cfg, f, n, outcome, now);
    case _ =>
  }

  lemma {:induction false} RunChains(cfg: Settings, f: CommandFile, steps: seq<FileStep>)
    requires Chained(cfg.digest, f.intent.id, f.events)
    ensures Run(cfg, f, steps).intent == f.intent
    ensures Chained(cfg.digest, f.intent.id, Run(cfg, f, steps).events)
    ensures |f.events| <= |Run(cfg, f, steps).events|
  {
    if steps != [] {
      RunChains(cfg, f, Front(steps));
      var g := Run(cfg, f, Front(steps));
      StepExtends(cfg, g, Last(steps));
      if Apply(cfg, g, Last(steps)).events != [] {
        var e := Last(Apply(cfg, g, Last(steps)).events);
        AppendChains(cfg, g, e.kind, e.fromStatus, e.toStatus, e.actor, e.evidence);
      }
    }
  }

  lemma NewFileChains(
    cfg: Settings, intent: Intent, device: Option<DeviceId>, denial: Option<Denial>, approvalRequired: bool,
    currentValue: Option<string>, now: nat)
    ensures var f := NewFile(cfg, intent, device, denial, approvalRequired, currentValue, now);
            f.intent == intent && Chained(cfg.digest, intent.id, f.events)
  {
    hide NextEvent;
    var created := Created(intent, device, denial, approvalRequired);
    AppendChains(
      cfg, created,
      if denial.Some? then PolicyDecisionDenied else if approvalRequired then ApprovalRequested else CommandQueued,
      Some(Requested), Some(created.status), intent.requester,
      if denial.Some? then Denied(denial.value.code) else ForOperation(intent.operation));
  }

  /** Tamper evidence: with an injective digest the last checksum determines the whole log. */
  lemma {:induction false} LastChecksumDeterminesLog(
    digest: EventPayload -> Digest, command: CommandId, a: seq<Event>, b: seq<Event>)
    requires Injective(digest)
    requires a != [] && b != []
    requires Chained(digest, command, a) && Chained(digest, command, b)
    requires Last(a).checksum == Last(b).checksum
    ensures a == b
  {
    assert LastPayload(command, a) == LastPayload(command, b);
    if |a| > 1 {
      LastChecksumDeterminesLog(digest, command, Front(a), Front(b));
    }
    assert a == Front(a) + [Last(a)];
    assert b == Front(b) + [Last(b)];
  }

  // ----------------------------------------------------------- status progress

  predicate KeepsProgress(before: Status, after: Status) {
    Progress(before) <= Progress(after) && (Terminal(before) ==> Terminal(after))
  }

  /** An approval that would requeue a command already past the queue. */
  predicate LateApproval(f: CommandFile, step: FileStep) {
    step.ApprovalDecision? && ApprovalAccepted(f, step.context, step.approvedAt) && Rank(f.status) > Rank(Queued)
  }

  lemma ClaimProgress(cfg: Settings, f: CommandFile, denial: Option<Denial>, now: nat)
    ensures KeepsProgress(f.status, Claim(cfg, f, denial, now).status)
    ensures Terminal(f.status) && Claim(cfg, f, denial, now).status != f.status ==>
              denial.Some? && f.outbox.Some? && Claim(cfg, f, denial, now) == Refuse(cfg, f, denial.value)
  {
    hide NextEvent, Claimable;
  }

  lemma RecordProgress(cfg: Settings, f: CommandFile, n: nat, outcome: Outcome, now: nat)
    ensures KeepsProgress(f.status, Record(cfg, f, n, outcome, now).status)
    ensures Terminal(f.status) ==> Record(cfg, f, n, outcome, now).status == f.status
  {
  }

  lemma AllowedMoveProgresses(from: Status, to: Status)
    requires TransitionAllowed(from, to)
    ensures KeepsProgress(from, to)
  {
  }

  lemma TransitionProgress(
    cfg: Settings, f: CommandFile, to: Status, kind: EventKind, evidence: Evidence, u: Updates)
    ensures Transition(cfg, f, to, kind, evidence, u).status == if TransitionAllowed(f.status, to) then to else f.status
    ensures KeepsProgress(f.status, Transition(cfg, f, to, kind, evidence, u).status)
    ensures Terminal(f.status) ==> Transition(cfg, f, to, kind, evidence, u).status == f.status
  {
    if TransitionAllowed(f.status, to) {
      AllowedMoveProgresses(f.status, to);
    }
  }

  /** One transaction moves the status backwards, or out of a final one, exactly when it
      is an accepted approval of a command that has already left the queue. */
  lemma StepProgressExactly(cfg: Settings, f: CommandFile, step: FileStep)
    ensures KeepsProgress(f.status, Apply(cfg, f, step).status) <==> !LateApproval(f, step)
  {
    match step
    case LifecycleReport(to, kind, evidence, u) => TransitionProgress(cfg, f, to, kind, evidence, u);
    case DispatchClaim(denial, now) => ClaimProgress(cfg, f, denial, now);
    case WorkerRecord(n, outcome, now) => RecordProgress(cfg, f, n, outcome, now);
    case _ =>
  }

  /** A final status changes only by a refused claim (or by such an approval). */
  lemma FinalStatusChange(cfg: Settings, f: CommandFile, step: FileStep)
    ensures Terminal(f.status) && Apply(cfg, f, step).status != f.status ==>
            || LateApproval(f, step)
            || (&& step.DispatchClaim? && step.denial.Some? && f.outbox.Some?
                && Apply(cfg, f, step) == Refuse(cfg, f, step.denial.value))
  {
    match step
    case LifecycleReport(to, kind, evidence, u) => TransitionProgress(cfg, f, to, kind, evidence, u);
    case DispatchClaim(denial, now) => ClaimProgress(cfg, f, denial, now);
    case WorkerRecord(n, outcome, now) => RecordProgress(cfg, f, n, outcome, now);
    case _ =>
  }

  ghost predicate NoLateApproval(cfg: Settings, f: CommandFile, steps: seq<FileStep>) {
    forall i :: 0 <= i < |steps| ==> !LateApproval(Run(cfg, f, steps[..i]), steps[i])
  }

  /** Status progress between any two moments of any run, late workers included. */
  lemma {:induction false} StatusNeverRegresses(cfg: Settings, f: CommandFile, steps: seq<FileStep>)
    requires NoLateApproval(cfg, f, steps)
    ensures KeepsProgress(f.status, Run(cfg, f, steps).status)
  {
    if steps != [] {
      var front := Front(steps);
      forall i | 0 <= i < |front|
        ensures !LateApproval(Run(cfg, f, front[..i]), front[i])
      {
        assert front[..i] == steps[..i];
      }
      StatusNeverRegresses(cfg, f, front);
      assert steps[..|steps| - 1] == front;
      StepProgressExactly(cfg, Run(cfg, f, front), Last(steps));
    }
  }

  /** The missing status check matters: after a disaster reset has cancelled a command
      that waits for approval, the invalidated approval can still be granted and puts the
      cancelled command back in the queue. */
  lemma ResetThenApproveRequeues(cfg: Settings, intent: Intent, approver: UserId)
    requires intent.requester != Some(approver) && 10 < intent.expiresAt
    ensures
      var f := NewFile(cfg, intent, Some(7), None, true, None, 0);
      var context := ApprovalContext(approver, true, true, Some(5), None);
      var cancelled := Run(cfg, f, [DisasterReset("restore")]);
      var requeued := Run(cfg, f, [DisasterReset("restore"), ApprovalDecision(context, 5)]);
      cancelled.status == Cancelled && requeued.status == Queued && requeued.outbox.Some?
  {
    var f := NewFile(cfg, intent, Some(7), None, true, None, 0);
    var context := ApprovalContext(approver, true, true, Some(5), None);
    var steps := [DisasterReset("restore"), ApprovalDecision(context, 5)];
    assert Front(steps) == [DisasterReset("restore")];
    assert Front([DisasterReset("restore")]) == [];
    assert Run(cfg, f, []) == f;
    var cancelled := Run(cfg, f, [DisasterReset("restore")]);
    assert cancelled == Reset(f, "restore");
    assert Run(cfg, f, steps) == Apply(cfg, cancelled, ApprovalDecision(context, 5));
  }

  // ------------------------------------- bounded attempts, no stranded command

  /** The shape every reachable command has. */
  ghost predicate Sound(cfg: Settings, f: CommandFile) {
    && (f.outbox.None? ==> f.attempts == [])
    && (f.outbox.Some? ==> |f.attempts| == f.outbox.value.attemptCount <= cfg.maxAttempts)
    && (forall i :: 0 <= i < |f.attempts| ==> f.attempts[i].number == i + 1)
    && (f.outbox.Some? && f.outbox.value.status in {Published, DeadLetter, OutboxCancelled} ==> !Waiting(f.status))
    && (f.outbox.Some? && f.outbox.value.status == ClaimedByWorker ==> f.outbox.value.leaseExpiresAt.Some?)
    && (Waiting(f.status) ==>
          if f.outbox.Some? then f.status in {Queued, Dispatching} else f.status == AwaitingApproval)
  }

  lemma NewFileSound(
    cfg: Settings, intent: Intent, device: Option<DeviceId>, denial: Option<Denial>, approvalRequired: bool,
    currentValue: Option<string>, now: nat)
    ensures Sound(cfg, NewFile(cfg, intent, device, denial, approvalRequired, currentValue, now))
  {
  }

  lemma RecordKeepsSound(cfg: Settings, f: CommandFile, n: nat, outcome: Outcome, now: nat)
    requires Sound(cfg, f)
    ensures Sound(cfg, Record(cfg, f, n, outcome, now))
  {
    hide Record;
    RecordCloses(cfg, f, n, outcome, now);
    RecordEndsWait(cfg, f, n, outcome, now);
    if InFlight(f, n) {
      var g := Record(cfg, f, n, outcome, now);
      assert forall i :: 0 <= i < |g.attempts| ==> g.attempts[i].number == f.attempts[i].number;
    }
  }

  /** A record leaves a waiting command only behind a row to retry, and then queued. */
  lemma RecordEndsWait(cfg: Settings, f: CommandFile, n: nat, outcome: Outcome, now: nat)
    ensures InFlight(f, n) ==>
              var g := Record(cfg, f, n, outcome, now);
              && g.outbox.Some? && g.outbox.value.attemptCount == f.outbox.value.attemptCount
              && (g.outbox.value.status != RetryScheduled ==> !Waiting(g.status))
              && (Waiting(g.status) ==> g.status == Queued || g.status == f.status)
  {
    hide NextEvent, RetryDelay;
  }

  lemma ClaimKeepsSound(cfg: Settings, f: CommandFile, denial: Option<Denial>, now: nat)
    requires Sound(cfg, f)
    ensures Sound(cfg, Claim(cfg, f, denial, now))
  {
    hide NextEvent;
  }

  lemma StepKeepsSound(cfg: Settings, f: CommandFile, step: FileStep)
    requires Sound(cfg, f)
    ensures Sound(cfg, Apply(cfg, f, step))
  {
    hide NextEvent, TransitionAllowed, Claim, Record;
    match step
    case LifecycleReport(to, kind, evidence, u) =>
      TransitionProgress(cfg, f, to, kind, evidence, u);
      assert Apply(cfg, f, step).attempts == f.attempts && Apply(cfg, f, step).outbox == f.outbox;
    case DispatchClaim(denial, now) => ClaimKeepsSound(cfg, f, denial, now);
    case WorkerRecord(n, outcome, now) => RecordKeepsSound(cfg, f, n, outcome, now);
    case _ =>
  }

  /** Bounded attempts and no stranded command, under all interleavings: resets,
      unguarded approvals, late and crashed workers included. */
  lemma {:induction false} RunSound(cfg: Settings, f: CommandFile, steps: seq<FileStep>)
    requires Sound(cfg, f)
    ensures Sound(cfg, Run(cfg, f, steps))
  {
    if steps != [] {
      RunSound(cfg, f, Front(steps));
      StepKeepsSound(cfg, Run(cfg, f, Front(steps)), Last(steps));
    }
  }

  /** A command still queued or dispatching is never lost: from some instant on its row is
      claimable, and every accepted claim uses one of the remaining attempts or ends the wait. */
  lemma WaitingIsRecoverable(cfg: Settings, f: CommandFile) returns (due: nat)
    requires Sound(cfg, f) && f.status in {Queued, Dispatching}
    ensures f.outbox.Some? && forall now: nat :: due <= now ==> Claimable(f.outbox.value, now)
    ensures forall denial: Option<Denial>, now: nat :: due <= now ==>
              var g := Claim(cfg, f, denial, now);
              !Waiting(g.status) || (g.outbox.Some? && g.outbox.value.attemptCount == f.outbox.value.attemptCount + 1)
  {
    var o := f.outbox.value;
    due := if o.leaseExpiresAt.Some? then Max(o.nextAttemptAt, o.leaseExpiresAt.value) else o.nextAttemptAt;
  }

  // ------------------------------------------------- leases and ambiguous ends

  predicate Ambiguous(s: AttemptState) {
    s == AckUnknown || s == AckReceived
  }

  /** Some attempt may have reached the broker. */
  predicate MayHaveReached(f: CommandFile) {
    exists i :: 0 <= i < |f.attempts| && Ambiguous(f.attempts[i].state)
  }

  predicate Reclaimable(f: CommandFile) {
    f.outbox.Some? && f.outbox.value.status in {PendingDispatch, RetryScheduled, ClaimedByWorker}
  }

  /** No retry after ambiguity: an attempt that may have reached the broker ended all claims. */
  ghost predicate Settled(f: CommandFile) {
    MayHaveReached(f) ==> !Reclaimable(f)
  }

  /** The one record that reopens dispatch after a possible delivery: a worker reports its
      own failure, attempts remain, and another attempt has already ended ambiguously. */
  predicate ReopensDispatch(cfg: Settings, f: CommandFile, step: FileStep) {
    && step.WorkerRecord? && InFlight(f, step.attempt) && step.outcome.NotSent?
    && f.outbox.value.attemptCount < cfg.maxAttempts
    && MayHaveReached(f)
  }

  lemma RecordSettledExactly(cfg: Settings, f: CommandFile, n: nat, outcome: Outcome, now: nat)
    requires Settled(f) && InFlight(f, n)
    ensures Settled(Record(cfg, f, n, outcome, now)) <==>
            !ReopensDispatch(cfg, f, WorkerRecord(n, outcome, now))
  {
    hide NextEvent, RetryDelay;
    var g := Record(cfg, f, n, outcome, now);
    assert forall i :: 0 <= i < |f.attempts| && i != n - 1 ==> g.attempts[i] == f.attempts[i];
    if outcome.NotSent? {
      assert g.attempts[n - 1].state == FailedBeforeAck;
      if MayHaveReached(f) {
        var i :| 0 <= i < |f.attempts| && Ambiguous(f.attempts[i].state);
        assert Ambiguous(g.attempts[i].state);
      }
    } else {
      assert Ambiguous(g.attempts[n - 1].state);
    }
  }

  lemma ClaimKeepsSettled(cfg: Settings, f: CommandFile, denial: Option<Denial>, now: nat)
    requires Settled(f)
    ensures Settled(Claim(cfg, f, denial, now))
  {
    var g := Claim(cfg, f, denial, now);
    if Opens(cfg, f, denial, now) {
      assert Last(g.attempts).state == Started;
      assert forall i :: 0 <= i < |f.attempts| ==> g.attempts[i] == f.attempts[i];
    } else {
      assert g.attempts == f.attempts;
    }
  }

  /** Exactly that record breaks it, whatever the other workers do. */
  lemma StepSettledExactly(cfg: Settings, f: CommandFile, step: FileStep)
    requires Sound(cfg, f) && Settled(f)
    ensures Settled(Apply(cfg, f, step)) <==> !ReopensDispatch(cfg, f, step)
  {
    match step
    case WorkerRecord(n, outcome, now) =>
      if InFlight(f, n) {
        RecordSettledExactly(cfg, f, n, outcome, now);
      }
    case DispatchClaim(denial, now) => ClaimKeepsSettled(cfg, f, denial, now);
    case _ => assert Apply(cfg, f, step).attempts == f.attempts;
  }

  /** The worker of attempt n still holds the lease it claimed under. */
  predicate LeaseHeld(f: CommandFile, n: nat, now: nat) {
    && f.outbox.Some? && f.outbox.value.status == ClaimedByWorker && f.outbox.value.attemptCount == n
    && f.outbox.value.leaseExpiresAt.Some? && now < f.outbox.value.leaseExpiresAt.value
  }

  /** The instant a step reads the clock, if it does. */
  function Instant(step: FileStep): Option<nat> {
    match step
    case ApprovalDecision(_, now) => Some(now)
    case DispatchClaim(_, now) => Some(now)
    case WorkerRecord(_, _, now) => Some(now)
    case _ => None
  }

  /** Workers record only under their own live lease; times[i] is the clock at step i and
      never goes back. */
  ghost predicate Disciplined(cfg: Settings, f: CommandFile, steps: seq<FileStep>, times: seq<nat>) {
    && |times| == |steps|
    && (forall i, j :: 0 <= i < j < |times| ==> times[i] <= times[j])
    && (forall i :: 0 <= i < |steps| && Instant(steps[i]).Some? ==> Instant(steps[i]).value == times[i])
    && (forall i :: 0 <= i < |steps| && steps[i].WorkerRecord? && InFlight(Run(cfg, f, steps[..i]), steps[i].attempt)
          ==> LeaseHeld(Run(cfg, f, steps[..i]), steps[i].attempt, times[i]))
  }

  lemma DisciplinedFront(cfg: Settings, f: CommandFile, steps: seq<FileStep>, times: seq<nat>)
    requires steps != [] && Disciplined(cfg, f, steps, times)
    ensures Disciplined(cfg, f, Front(steps), Front(times))
    ensures steps[..|steps| - 1] == Front(steps)
  {
    var front := Front(steps);
    forall i | 0 <= i < |front| && front[i].WorkerRecord? && InFlight(Run(cfg, f, front[..i]), front[i].attempt)
      ensures LeaseHeld(Run(cfg, f, front[..i]), front[i].attempt, Front(times)[i])
    {
      assert front[..i] == steps[..i];
    }
  }

  lemma {:induction false} DisciplinedRunSettled(
    cfg: Settings, f: CommandFile, steps: seq<FileStep>, times: seq<nat>)
    requires Sound(cfg, f) && Settled(f) && Disciplined(cfg, f, steps, times)
    ensures Sound(cfg, Run(cfg, f, steps)) && Settled(Run(cfg, f, steps))
  {
    RunSound(cfg, f, steps);
    if steps != [] {
      DisciplinedFront(cfg, f, steps, times);
      DisciplinedRunSettled(cfg, f, Front(steps), Front(times));
      StepSettledExactly(cfg, Run(cfg, f, Front(steps)), Last(steps));
    }
  }

  /** A step on a command whose row is no longer claimable opens nothing, and no record
      overwrites how another attempt ended. */
  lemma ClosedRowOpensNothing(cfg: Settings, f: CommandFile, step: FileStep)
    requires Sound(cfg, f) && MayHaveReached(f) && !Reclaimable(f)
    ensures |Apply(cfg, f, step).attempts| == |f.attempts| && MayHaveReached(Apply(cfg, f, step))
  {
    hide NextEvent, TransitionAllowed, ApprovalAccepted, Record, Claim, Sound, MayHaveReached;
    match step
    case WorkerRecord(n, outcome, now) => RecordKeepsReached(cfg, f, n, outcome, now);
    case DispatchClaim(denial, now) =>
      ClosingClaimEnds(cfg, f, denial, now);
      SameAttemptsReached(f, Apply(cfg, f, step));
    case _ => SameAttemptsReached(f, Apply(cfg, f, step));
  }

  lemma SameAttemptsReached(f: CommandFile, g: CommandFile)
    requires g.attempts == f.attempts
    ensures MayHaveReached(g) == MayHaveReached(f)
  {
  }

  /** A record never takes back what another attempt, or its own, may have delivered. */
  lemma RecordKeepsReached(cfg: Settings, f: CommandFile, n: nat, outcome: Outcome, now: nat)
    requires MayHaveReached(f)
    ensures |Record(cfg, f, n, outcome, now).attempts| == |f.attempts| && MayHaveReached(Record(cfg, f, n, outcome, now))
  {
    hide Record;
    RecordCloses(cfg, f, n, outcome, now);
    var i :| 0 <= i < |f.attempts| && Ambiguous(f.attempts[i].state);
    assert InFlight(f, n) ==> i != n - 1;
    assert Ambiguous(Record(cfg, f, n, outcome, now).attempts[i].state);
  }

  /** Once an attempt ended acknowledged or unknown, no later step of a disciplined run
      opens another one: the attempt count after any prefix is final. */
  lemma {:induction false} NoRetryAfterAmbiguity(
    cfg: Settings, f: CommandFile, before: seq<FileStep>, after: seq<FileStep>, times: seq<nat>)
    requires Sound(cfg, f) && Settled(f) && Disciplined(cfg, f, before + after, times)
    requires MayHaveReached(Run(cfg, f, before))
    ensures MayHaveReached(Run(cfg, f, before + after))
    ensures |Run(cfg, f, before + after).attempts| == |Run(cfg, f, before).attempts|
  {
    if after == [] {
      assert before + after == before;
    } else {
      var steps := before + after;
      assert Front(steps) == before + Front(after);
      DisciplinedFront(cfg, f, steps, times);
      NoRetryAfterAmbiguity(cfg, f, before, Front(after), Front(times));
      DisciplinedRunSettled(cfg, f, Front(steps), Front(times));
      ClosedRowOpensNothing(cfg, Run(cfg, f, Front(steps)), Last(steps));
    }
  }

  lemma RunFive(cfg: Settings, f: CommandFile, a: FileStep, b: FileStep, c: FileStep, d: FileStep, e: FileStep)
    ensures Run(cfg, f, [a, b, c, d, e])
            == Apply(cfg, Apply(cfg, Apply(cfg, Apply(cfg, Apply(cfg, f, a), b), c), d), e)
  {
    assert Front([a, b, c, d, e]) == [a, b, c, d];
    assert Front([a, b, c, d]) == [a, b, c];
    assert Front([a, b, c]) == [a, b];
    assert Front([a, b]) == [a];
    assert Front([a]) == [];
    assert Run(cfg, f, [a]) == Apply(cfg, Run(cfg, f, []), a);
    assert Run(cfg, f, [a, b]) == Apply(cfg, Apply(cfg, f, a), b);
    assert Run(cfg, f, [a, b, c]) == Apply(cfg, Apply(cfg, Apply(cfg, f, a), b), c);
  }

  /** Without the lease rule it does happen: attempt 1 outlives its lease, attempt 2 is
      acknowledged, then worker 1 reports its failure and a third attempt is opened. */
  lemma LateFailureReopens(cfg: Settings, f: CommandFile)
    requires cfg.maxAttempts >= 3
    requires f.outbox == Some(NewOutbox(0)) && f.attempts == [] && f.status == Queued
    ensures
      var lease := cfg.leaseSeconds;
      var g := Run(cfg, f, [DispatchClaim(None, 0), DispatchClaim(None, lease),
                            WorkerRecord(2, Acknowledged(1), lease), WorkerRecord(1, NotSent("timeout"), lease),
                            DispatchClaim(None, lease + RetryDelay(cfg, 2))]);
      MayHaveReached(g) && |g.attempts| == 3
  {
    hide Claim, Record, RetryDelay;
    var lease := cfg.leaseSeconds;
    RunFive(cfg, f, DispatchClaim(None, 0), DispatchClaim(None, lease), WorkerRecord(2, Acknowledged(1), lease),
            WorkerRecord(1, NotSent("timeout"), lease), DispatchClaim(None, lease + RetryDelay(cfg, 2)));
    ClaimOpens(cfg, f, 0);
    var f1 := Claim(cfg, f, None, 0);
    ClaimOpens(cfg, f1, lease);
    LateFailureFromSecondClaim(cfg, Claim(cfg, f1, None, lease), lease);
  }

  lemma ClaimOpens(cfg: Settings, f: CommandFile, now: nat)
    requires Opens(cfg, f, None, now)
    ensures var g := Claim(cfg, f, None, now);
            && g.attempts == f.attempts + [Attempt(f.outbox.value.attemptCount + 1, Started, now, None, None, "")]
            && g.outbox == Some(f.outbox.value.(status := ClaimedByWorker, claimedAt := Some(now),
                                leaseExpiresAt := Some(now + cfg.leaseSeconds),
                                attemptCount := f.outbox.value.attemptCount + 1))
  {
  }

  lemma LateFailureFromSecondClaim(cfg: Settings, f: CommandFile, now: nat)
    requires cfg.maxAttempts >= 3 && |f.attempts| == 2
    requires f.attempts[0].state == Started && f.attempts[1].state == Started
    requires f.outbox.Some? && f.outbox.value.attemptCount == 2
    ensures
      var acknowledged := Record(cfg, f, 2, Acknowledged(1), now);
      var reopened := Record(cfg, acknowledged, 1, NotSent("timeout"), now);
      var g := Claim(cfg, reopened, None, now + RetryDelay(cfg, 2));
      MayHaveReached(g) && |g.attempts| == 3
  {
    hide NextEvent, RetryDelay, TransitionAllowed;
    var acknowledged := Record(cfg, f, 2, Acknowledged(1), now);
    assert acknowledged.attempts[0].state == Started && acknowledged.attempts[1].state == AckReceived;
    var reopened := Record(cfg, acknowledged, 1, NotSent("timeout"), now);
    assert reopened.attempts[1].state == AckReceived && |reopened.attempts| == 2;
    var g := Claim(cfg, reopened, None, now + RetryDelay(cfg, 2));
    assert g.attempts[1] == reopened.attempts[1];
  }

  /** Attempt i had recorded, or its lease had run out, when attempt j was opened. */
  predicate Apart(cfg: Settings, a: Attempt, b: Attempt) {
    || (a.completedAt.Some? && a.completedAt.value <= b.startedAt)
    || a.startedAt + cfg.leaseSeconds <= b.startedAt
  }

  /** What a disciplined run knows about its attempts at a given instant. */
  ghost predicate LeasesTold(cfg: Settings, f: CommandFile, now: nat) {
    && (forall i, j :: 0 <= i < j < |f.attempts| ==> Apart(cfg, f.attempts[i], f.attempts[j]))
    && (forall i :: 0 <= i < |f.attempts| ==>
          && f.attempts[i].startedAt <= now
          && (f.attempts[i].completedAt.Some? ==> f.attempts[i].completedAt.value <= now)
          && (f.attempts[i].state == Started <==> f.attempts[i].completedAt.None?))
    && (f.outbox.Some? && f.outbox.value.status == ClaimedByWorker ==>
          && f.attempts != []
          && f.outbox.value.leaseExpiresAt == Some(Last(f.attempts).startedAt + cfg.leaseSeconds))
    && (f.outbox.Some? && f.outbox.value.status in {PendingDispatch, RetryScheduled} ==>
          forall i :: 0 <= i < |f.attempts| ==>
            f.attempts[i].completedAt.Some? || f.attempts[i].startedAt + cfg.leaseSeconds <= now)
    && (f.outbox.Some? && f.outbox.value.status == ClaimedByWorker ==>
          forall i :: 0 <= i < |f.attempts| - 1 ==>
            f.attempts[i].completedAt.Some? || f.attempts[i].startedAt + cfg.leaseSeconds <= now)
  }

  /** A claim that opens no attempt leaves no row that waits under a new lease. */
  lemma ClosingClaimKeepsLeases(cfg: Settings, f: CommandFile, denial: Option<Denial>, was: nat, now: nat)
    requires LeasesTold(cfg, f, was) && was <= now && !Opens(cfg, f, denial, now)
    ensures LeasesTold(cfg, Claim(cfg, f, denial, now), now)
  {
    hide Logged, Claimable, Apart, WithDeadLetter;
    ClosingClaimEnds(cfg, f, denial, now);
  }

  lemma ClosingClaimEnds(cfg: Settings, f: CommandFile, denial: Option<Denial>, now: nat)
    requires !Opens(cfg, f, denial, now)
    ensures var g := Claim(cfg, f, denial, now);
            && g.attempts == f.attempts
            && (g.outbox == f.outbox
                || (g.outbox.Some? && g.outbox.value.status in {DeadLetter, OutboxCancelled}))
  {
    hide Claimable;
  }

  /** A claim that opens one has outlived the lease of the attempt before. */
  lemma OpeningClaimKeepsLeases(cfg: Settings, f: CommandFile, denial: Option<Denial>, was: nat, now: nat)
    requires Sound(cfg, f) && LeasesTold(cfg, f, was) && was <= now && Opens(cfg, f, denial, now)
    ensures LeasesTold(cfg, Claim(cfg, f, denial, now), now)
  {
    hide Claim;
    var g := Claim(cfg, f, denial, now);
    var attempt := Attempt(|f.attempts| + 1, Started, now, None, None, "");
    ClaimOpens(cfg, f, now);
    assert g.attempts == f.attempts + [attempt];
    assert forall i :: 0 <= i < |f.attempts| ==> g.attempts[i] == f.attempts[i];
    assert forall i :: 0 <= i < |f.attempts| ==> Apart(cfg, f.attempts[i], attempt);
  }

  lemma ClaimKeepsLeases(cfg: Settings, f: CommandFile, denial: Option<Denial>, was: nat, now: nat)
    requires Sound(cfg, f) && LeasesTold(cfg, f, was) && was <= now
    ensures LeasesTold(cfg, Claim(cfg, f, denial, now), now)
  {
    hide Claim, LeasesTold, Sound, Opens;
    if Opens(cfg, f, denial, now) {
      OpeningClaimKeepsLeases(cfg, f, denial, was, now);
    } else {
      ClosingClaimKeepsLeases(cfg, f, denial, was, now);
    }
  }

  /** What a record does to the attempts and to the row. */
  lemma RecordCloses(cfg: Settings, f: CommandFile, n: nat, outcome: Outcome, now: nat)
    ensures !InFlight(f, n) ==> Record(cfg, f, n, outcome, now) == f
    ensures InFlight(f, n) ==>
              var g := Record(cfg, f, n, outcome, now);
              && |g.attempts| == |f.attempts|
              && (forall i :: 0 <= i < |f.attempts| && i != n - 1 ==> g.attempts[i] == f.attempts[i])
              && g.attempts[n - 1].startedAt == f.attempts[n - 1].startedAt
              && g.attempts[n - 1].number == f.attempts[n - 1].number
              && g.attempts[n - 1].state
                 == (match outcome case Acknowledged(_) => AckReceived case Unknown(_, _) => AckUnknown
                                   case NotSent(_) => FailedBeforeAck)
              && g.attempts[n - 1].completedAt == Some(now) && g.attempts[n - 1].state != Started
              && g.outbox.Some? && g.outbox.value.status in {Published, RetryScheduled, DeadLetter}
  {
    hide NextEvent, RetryDelay, TransitionAllowed;
  }

  lemma RecordKeepsLeases(cfg: Settings, f: CommandFile, n: nat, outcome: Outcome, was: nat, now: nat)
    requires Sound(cfg, f) && LeasesTold(cfg, f, was) && was <= now
    requires InFlight(f, n) ==> LeaseHeld(f, n, now)
    ensures LeasesTold(cfg, Record(cfg, f, n, outcome, now), now)
  {
    hide Record;
    RecordCloses(cfg, f, n, outcome, now);
    if InFlight(f, n) {
      var g := Record(cfg, f, n, outcome, now);
      assert n == |f.attempts| == |g.attempts|;
      assert forall i :: 0 <= i < n - 1 ==> g.attempts[i] == f.attempts[i];
      assert g.attempts[n - 1].startedAt == f.attempts[n - 1].startedAt;
      assert g.attempts[n - 1].completedAt == Some(now);
    }
  }

  lemma StepKeepsLeases(cfg: Settings, f: CommandFile, step: FileStep, was: nat, now: nat)
    requires Sound(cfg, f) && LeasesTold(cfg, f, was) && was <= now
    requires Instant(step).Some? ==> Instant(step).value == now
    requires step.WorkerRecord? && InFlight(f, step.attempt) ==> LeaseHeld(f, step.attempt, now)
    ensures LeasesTold(cfg, Apply(cfg, f, step), now)
  {
    hide Claim, Record, NextEvent, TransitionAllowed, Apart, Claimable;
    match step
    case DispatchClaim(denial, _) => ClaimKeepsLeases(cfg, f, denial, was, now);
    case WorkerRecord(n, outcome, _) => RecordKeepsLeases(cfg, f, n, outcome, was, now);
    case _ => assert Apply(cfg, f, step).attempts == f.attempts;
  }

  /** At most one live attempt: in a disciplined run, of any two attempts the earlier one
      had recorded or outlived its lease before the later one was opened. */
  lemma {:induction false} AttemptsNeverOverlap(cfg: Settings, f: CommandFile, steps: seq<FileStep>, times: seq<nat>)
    requires Sound(cfg, f) && LeasesTold(cfg, f, 0) && Disciplined(cfg, f, steps, times)
    ensures var g := Run(cfg, f, steps);
            && LeasesTold(cfg, g, if times == [] then 0 else Last(times))
            && forall i, j :: 0 <= i < j < |g.attempts| ==> Apart(cfg, g.attempts[i], g.attempts[j])
  {
    if steps != [] {
      DisciplinedFront(cfg, f, steps, times);
      AttemptsNeverOverlap(cfg, f, Front(steps), Front(times));
      var g := Run(cfg, f, Front(steps));
      RunSound(cfg, f, Front(steps));
      StepKeepsLeases(cfg, g, Last(steps), if Front(times) == [] then 0 else Last(Front(times)), Last(times));
    }
  }

  // ------------------------------------------------- approvals, retry delays

  /** No step rewrites what an approval is bound to or when it ends. */
  lemma ApprovalBindingKept(cfg: Settings, f: CommandFile, step: FileStep)
    ensures var h := Apply(cfg, f, step);
            && (h.approval.Some? <==> f.approval.Some?)
            && (h.approval.Some? ==>
                  h.approval.value.binding == f.approval.value.binding
                  && h.approval.value.expiresAt == f.approval.value.expiresAt)
            && h.intent == f.intent
  {
    hide NextEvent, TransitionAllowed, Claimable, RetryDelay, Rank;
  }

  /** Only an accepted approval gives a command that has none an outbox row. */
  lemma OutboxComesFromApproval(cfg: Settings, f: CommandFile, step: FileStep)
    ensures f.outbox.None? && Apply(cfg, f, step).outbox.Some? ==>
              step.ApprovalDecision? && ApprovalAccepted(f, step.context, step.approvedAt)
  {
    hide NextEvent, TransitionAllowed, ApprovalAccepted;
  }

  lemma {:induction false} ApprovalKeptOverRun(cfg: Settings, f: CommandFile, steps: seq<FileStep>)
    ensures var h := Run(cfg, f, steps);
            && (h.approval.Some? <==> f.approval.Some?)
            && (h.approval.Some? ==>
                  h.approval.value.binding == f.approval.value.binding
                  && h.approval.value.expiresAt == f.approval.value.expiresAt)
            && h.intent == f.intent
  {
    hide Apply;
    if steps != [] {
      ApprovalKeptOverRun(cfg, f, Front(steps));
      ApprovalBindingKept(cfg, Run(cfg, f, Front(steps)), Last(steps));
    }
  }

  lemma {:induction false} ApprovedBefore(cfg: Settings, f: CommandFile, steps: seq<FileStep>) returns (k: nat)
    requires f.outbox.None? && Run(cfg, f, steps).outbox.Some?
    ensures k < |steps| && steps[k].ApprovalDecision?
    ensures ApprovalAccepted(Run(cfg, f, steps[..k]), steps[k].context, steps[k].approvedAt)
  {
    hide Apply, ApprovalAccepted;
    var front := Front(steps);
    assert steps[..|front|] == front;
    OutboxComesFromApproval(cfg, Run(cfg, f, front), Last(steps));
    if Run(cfg, f, front).outbox.Some? {
      k := ApprovedBefore(cfg, f, front);
      assert front[..k] == steps[..k];
    } else {
      k := |front|;
    }
  }

  /** Two people: a command that needs approval gets an outbox row, and so can be published,
      only after someone other than its requester approved it with MFA and a recent sign-in,
      in time, for the same device and the same current value as when it was requested. */
  lemma DispatchNeedsApproval(
    cfg: Settings, intent: Intent, device: Option<DeviceId>, currentValue: Option<string>, now: nat,
    steps: seq<FileStep>) returns (k: nat)
    requires Run(cfg, NewFile(cfg, intent, device, None, true, currentValue, now), steps).outbox.Some?
    ensures k < |steps| && steps[k].ApprovalDecision?
    ensures var c := steps[k].context;
            && intent.requester != Some(c.approver) && c.permitted && c.mfa
            && c.recentAuthAt.Some? && steps[k].approvedAt <= c.recentAuthAt.value + 300
            && steps[k].approvedAt < Min(intent.expiresAt, now + 900)
            && c.currentValue == currentValue
            && Run(cfg, NewFile(cfg, intent, device, None, true, currentValue, now), steps[..k]).device == device
  {
    hide Apply, Append;
    var f := NewFile(cfg, intent, device, None, true, currentValue, now);
    AwaitingFile(cfg, intent, device, currentValue, now);
    k := ApprovedBefore(cfg, f, steps);
    ApprovalKeptOverRun(cfg, f, steps[..k]);
  }

  lemma AwaitingFile(
    cfg: Settings, intent: Intent, device: Option<DeviceId>, currentValue: Option<string>, now: nat)
    ensures var f := NewFile(cfg, intent, device, None, true, currentValue, now);
            && f.intent == intent && f.outbox.None?
            && f.approval == Some(Approval(ApprovalPending, Binding(intent, device, currentValue),
                                           Min(intent.expiresAt, now + 900), None))
  {
    hide NextEvent;
  }

  /** Retries back off from the base delay, doubling up to the maximum. */
  lemma RetryDelayDoubles(cfg: Settings, n: nat)
    requires n >= 1
    ensures RetryDelay(cfg, 1) == Min(cfg.retryMax, cfg.retryBase)
    ensures RetryDelay(cfg, n + 1) == Min(cfg.retryMax, 2 * RetryDelay(cfg, n))
  {
    assert Pow2(0) == 1;
    assert Pow2(n) == 2 * Pow2(n - 1);
    assert cfg.retryBase * Pow2(n) == 2 * (cfg.retryBase * Pow2(n - 1));
  }
}
