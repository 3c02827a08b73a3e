/** What an activation's status says: which delivery, acknowledgement, replacement or expiry it
    comes from, and that the secret it may still hold is the one that was issued. */
module EscrowReports {

  import opened Common
  import opened EscrowModel
  import opened EscrowProofs

  /** The newest generation, neither acknowledged nor expired nor replaced. */
  predicate Live(e: Escrow, i: nat) {
    && i < |e.activations| && i + 1 == |e.activations|
    && e.activations[i].acknowledgedAt.None?
    && e.activations[i].status !in {ActAcknowledged, ActExpired, ActSuperseded}
  }

  lemma LiveIsCurrent(e: Escrow, i: nat)
    requires Sealed(e.activations) && i < |e.activations|
    ensures Current(e.activations[i], Latest(e.activations)) <==> Live(e, i)
  {
    LatestIsLength(e.activations);
  }

  /** A delivery is attempted exactly for the live generation before it expires. It fails with the
      publication; sent, it is delivered the first time and retried afterwards or on request. An
      expired one is blanked, any other row is left alone. */
  lemma DeliveredExactly(e: Escrow, i: nat, retry: bool, sent: bool, now: nat)
    requires Sealed(e.activations) && i < |e.activations|
    ensures
      var was := e.activations[i];
      var a := Step(e, DeliverActivation(i, retry, sent, now)).activations[i];
      if !Live(e, i) then a == was
      else if was.expiresAt <= now then a.status == ActExpired && a.escrow.None?
      else
        && a.status == (if !sent then ActFailed else if was.attemptCount == 0 && !retry then Delivered else Retried)
        && a.attemptCount == was.attemptCount + 1 && a.lastAttemptAt == Some(now)
        && a.deliveredAt == (if sent then Some(now) else was.deliveredAt)
        && a.escrow == was.escrow && a.expiresAt == was.expiresAt
  {
    LiveIsCurrent(e, i);
  }

  /** Provisioning the live generation: refused by the broker, it is tried again later; accepted, it
      gets its full time from now and is delivered at once if the Gateway is reachable. */
  lemma ProvisionedExactly(e: Escrow, i: nat, ttl: nat, met: Provisioned, now: nat)
    requires Sealed(e.activations) && i < |e.activations|
    ensures
      var was := e.activations[i];
      var after := Step(e, ProvisionActivation(i, ttl, met, now));
      var a := after.activations[i];
      if !Live(e, i) then a == was
      else if was.expiresAt <= now then a.status == ActExpired && a.escrow.None?
      else if !met.accepted then
        && a.status == RetryLater && a.attemptCount == was.attemptCount + 1 && a.lastAttemptAt == Some(now)
        && a.escrow == was.escrow && a.expiresAt == was.expiresAt
      else if !met.reachable then
        a.status == ActPending && a.expiresAt == now + ttl && a.escrow == was.escrow && a.attemptCount == was.attemptCount
      else if ttl == 0 then a.status == ActExpired && a.escrow.None?
      else
        && a.status == (if !met.sent then ActFailed else if was.attemptCount == 0 then Delivered else Retried)
        && a.expiresAt == now + ttl && a.escrow == was.escrow && a.attemptCount == was.attemptCount + 1
        && a.deliveredAt == (if met.sent then Some(now) else was.deliveredAt)
  {
    LiveIsCurrent(e, i);
  }

  /** An acknowledgement counts exactly for the live generation it names: success is final and blanks
      the secret, failure keeps it for another delivery. */
  lemma AcknowledgedExactly(e: Escrow, i: nat, generation: int, success: bool, now: nat)
    requires Sealed(e.activations) && Live(e, i)
    ensures
      var was := e.activations[i];
      var a := Step(e, AcknowledgeActivation(i, generation, success, now)).activations[i];
      if generation != was.generation then a == was
      else if success then a.status == ActAcknowledged && a.acknowledgedAt == Some(now) && a.escrow.None?
      else a.status == ActFailed && a.acknowledgedAt.None? && a.escrow == was.escrow
  {
    LatestIsLength(e.activations);
  }

  /** A repeated acknowledgement changes nothing, and one of a row that carries an acknowledgement but
      not the status restores it. */
  lemma RepeatedExactly(a: Activation, latest: nat, generation: int, success: bool, now: nat)
    requires a.generation == generation == latest && a.status !in {ActExpired, ActSuperseded}
    requires a.acknowledgedAt.Some? || a.status == ActAcknowledged
    ensures Acknowledge(a, latest, generation, success, now)
            == if a.status == ActAcknowledged then a else a.(status := ActAcknowledged, escrow := None)
  {
  }

  /** A secret is decrypted exactly for the live generation before it expires. */
  lemma DecryptsExactly(e: Escrow, i: nat, now: nat)
    requires Sealed(e.activations) && i < |e.activations|
    ensures Decrypts(e.activations[i], Latest(e.activations), now) <==> Live(e, i) && now < e.activations[i].expiresAt
  {
    LiveIsCurrent(e, i);
  }

  /** The sweep decides to expire exactly the unresolved, unacknowledged rows whose time is over, and
      writes each decision once. */
  lemma SweepExactly(e: Escrow, i: nat, now: nat)
    requires i < |e.activations|
    ensures var read := Step(e, ReadExpired(i, now));
            read.activations == e.activations
            && (i in read.expiring <==> i in e.expiring || (Unresolved(e.activations[i].status)
                                                            && e.activations[i].expiresAt <= now
                                                            && e.activations[i].acknowledgedAt.None?))
    ensures var written := Step(e, WriteExpired(i));
            && i !in written.expiring
            && (i in e.expiring ==> written.activations[i].status == ActExpired && written.activations[i].escrow.None?)
            && (i !in e.expiring ==> written == e)
  {
  }

  /** Expiring one row keeps an acknowledged one, and brings one that carries an acknowledgement back
      to acknowledged. */
  lemma ExpiredExactly(a: Activation)
    ensures var x := Expire(a);
            if a.status == ActAcknowledged then x == a
            else if a.acknowledgedAt.Some? then x == a.(status := ActAcknowledged, escrow := None)
            else if a.status == ActExpired then x == a
            else x == a.(status := ActExpired, escrow := None)
  {
  }

  /** A new generation is issued with its own secret and time; every unresolved one before it is
      replaced and blanked, the resolved ones are kept. */
  lemma IssuedExactly(e: Escrow, request: nat, password: string, ttl: nat, now: nat)
    requires Sealed(e.activations)
    ensures
      var after := Step(e, IssueActivation(request, password, ttl, now)).activations;
      && |after| == |e.activations| + 1
      && Last(after).generation == |after| && Last(after).request == request && Last(after).status == Provisioning
      && Last(after).escrow == Some(password) && Last(after).expiresAt == now + ttl && Last(after).attemptCount == 0
      && Last(after).acknowledgedAt.None?
      && forall i :: 0 <= i < |e.activations| ==>
           if e.activations[i].escrow.Some? then after[i].status == ActSuperseded && after[i].escrow.None?
           else after[i] == e.activations[i]
  {
    hide DisplaceAll;
    LatestIsLength(e.activations);
    DisplaceAllAt(e.activations);
  }

  // ------------------------------------------------------------- why a status

  /** The step attempts a delivery of the live generation i in time; retry as it was asked. */
  predicate Attempts(e: Escrow, s: EscrowStep, i: nat, sent: bool) {
    && Live(e, i)
    && match s
       case DeliverActivation(j, _, out, now) => j == i && out == sent && now < e.activations[i].expiresAt
       case ProvisionActivation(j, _, met, now) =>
         j == i && met.accepted && met.reachable && met.sent == sent && now < e.activations[i].expiresAt
       case _ => false
  }

  /** The step by which activation i gets this status. */
  predicate Causes(e: Escrow, s: EscrowStep, i: nat, status: ActStatus) {
    && i < |e.activations|
    && var a := e.activations[i];
       match status
       case ActAcknowledged =>
         s.AcknowledgeActivation? && s.index == i && s.generation == a.generation && s.success && Live(e, i)
       case ActSuperseded => (s.IssueActivation? && Unresolved(a.status)) || s.RevokeActivations?
       case ActExpired =>
         || (s == WriteExpired(i) && i in e.expiring)
         || (s.DeliverActivation? && s.index == i && a.expiresAt <= s.sentAt)
         || (s.ProvisionActivation? && s.index == i && (a.expiresAt <= s.provisionedAt || s.newTtl == 0))
       case Delivered | Retried => Attempts(e, s, i, true)
       case ActFailed =>
         || Attempts(e, s, i, false)
         || (s.AcknowledgeActivation? && s.index == i && s.generation == a.generation && !s.success && Live(e, i))
       case RetryLater => s.ProvisionActivation? && s.index == i && !s.met.accepted && Live(e, i)
       case ActPending => s.ProvisionActivation? && s.index == i && s.met.accepted && !s.met.reachable && Live(e, i)
       case Provisioning => false
  }

  /** A row that was once acknowledged is never unresolved again. */
  ghost predicate Dated(rows: seq<Activation>) {
    forall i :: 0 <= i < |rows| && rows[i].acknowledgedAt.Some? ==> !Unresolved(rows[i].status)
  }

  lemma StepKeepsDated(e: Escrow, s: EscrowStep)
    requires Dated(e.activations)
    ensures Dated(Step(e, s).activations)
  {
    hide DisplaceAll, RevokeAll, Latest;
    DisplaceAllAt(e.activations);
    RevokeAllAt(e.activations);
  }

  lemma {:induction false} EscrowStaysDated(e: Escrow, steps: seq<EscrowStep>)
    requires Dated(e.activations)
    ensures Dated(Run(e, steps).activations)
  {
    hide Step;
    if steps != [] {
      EscrowStaysDated(e, Front(steps));
      StepKeepsDated(Run(e, Front(steps)), Last(steps));
    }
  }

  lemma StatusCause(e: Escrow, s: EscrowStep, i: nat)
    requires Sealed(e.activations) && Dated(e.activations) && i < |e.activations|
    ensures i < |Step(e, s).activations|
    ensures var status := Step(e, s).activations[i].status;
            status != e.activations[i].status ==> Causes(e, s, i, status)
  {
    hide DisplaceAll, RevokeAll;
    LatestIsLength(e.activations);
    DisplaceAllAt(e.activations);
    RevokeAllAt(e.activations);
    match s
    case DeliverActivation(j, retry, sent, now) => if j == i { DeliveredExactly(e, i, retry, sent, now); }
    case ProvisionActivation(j, ttl, met, now) => if j == i { ProvisionedExactly(e, i, ttl, met, now); }
    case _ =>
  }

  lemma NewestIsProvisioning(e: Escrow, s: EscrowStep, i: nat)
    requires Sealed(e.activations) && i >= |e.activations| && i < |Step(e, s).activations|
    ensures Step(e, s).activations[i].status == Provisioning
  {
    hide DisplaceAll, RevokeAll, Latest;
    DisplaceAllAt(e.activations);
    RevokeAllAt(e.activations);
  }

  /** Step k gave the activation its status, and it has kept it since. */
  ghost predicate Since(e: Escrow, steps: seq<EscrowStep>, i: nat, k: nat) {
    && k < |steps| && i < |Run(e, steps).activations|
    && var status := Run(e, steps).activations[i].status;
       && Causes(Run(e, steps[..k]), steps[k], i, status)
       && forall j :: k < j <= |steps| ==>
            i < |Run(e, steps[..j]).activations| && Run(e, steps[..j]).activations[i].status == status
  }

  /** Over every run each status after provisioning comes from such a step, and has been kept since:
      an acknowledged generation was the newest when the Gateway reported success, a delivered one
      was sent, a superseded one was replaced or revoked. */
  lemma {:induction false} EveryStatusCaused(e: Escrow, steps: seq<EscrowStep>, i: nat) returns (k: nat)
    requires e.activations == [] && i < |Run(e, steps).activations|
    requires Run(e, steps).activations[i].status != Provisioning
    ensures Since(e, steps, i, k)
  {
    hide Step, Causes;
    var front := Front(steps);
    var f := Run(e, front);
    assert steps[..|steps|] == steps && steps[..|front|] == front;
    EscrowStaysSealed(e, front);
    EscrowStaysDated(e, front);
    if i >= |f.activations| {
      NewestIsProvisioning(f, Last(steps), i);
    }
    StatusCause(f, Last(steps), i);
    if Run(e, steps).activations[i].status != f.activations[i].status {
      k := |front|;
    } else {
      k := EveryStatusCaused(e, front, i);
      assert front[..k] == steps[..k];
      forall j | k < j <= |steps|
        ensures i < |Run(e, steps[..j]).activations|
        ensures Run(e, steps[..j]).activations[i].status == f.activations[i].status
      {
        if j < |steps| {
          assert front[..j] == steps[..j];
        }
      }
    }
  }
}
