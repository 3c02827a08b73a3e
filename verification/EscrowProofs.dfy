/** What every run keeps of the activation escrow. */
module EscrowProofs {

  import opened Common
  import opened EscrowModel

  /** Generations are 1..n, only the newest may be unresolved, and a secret is held exactly
      for an unresolved one. */
  ghost predicate Sealed(rows: seq<Activation>) {
    && (forall i :: 0 <= i < |rows| ==> rows[i].generation == i + 1)
    && (forall i :: 0 <= i < |rows| - 1 ==> !Unresolved(rows[i].status))
    && (forall i :: 0 <= i < |rows| ==> (rows[i].escrow.Some? <==> Unresolved(rows[i].status)))
  }

  lemma {:induction false} LatestIsLength(rows: seq<Activation>)
    requires forall i :: 0 <= i < |rows| ==> rows[i].generation == i + 1
    ensures Latest(rows) == |rows|
  {
    if rows != [] {
      LatestIsLength(Front(rows));
    }
  }

  lemma {:induction false} DisplaceAllAt(rows: seq<Activation>)
    ensures |DisplaceAll(rows)| == |rows|
    ensures forall i :: 0 <= i < |rows| ==> DisplaceAll(rows)[i] == Displace(rows[i])
  {
    if rows != [] {
      DisplaceAllAt(Front(rows));
    }
  }

  lemma {:induction false} RevokeAllAt(rows: seq<Activation>)
    ensures |RevokeAll(rows)| == |rows|
    ensures forall i :: 0 <= i < |rows| ==> RevokeAll(rows)[i] == Revoke(rows[i])
  {
    if rows != [] {
      RevokeAllAt(Front(rows));
    }
  }

  lemma OneRowChanged(rows: seq<Activation>, i: nat, a: Activation)
    requires Sealed(rows) && i < |rows| && a.generation == rows[i].generation
    requires a.escrow.Some? <==> Unresolved(a.status)
    requires Unresolved(a.status) ==> i == |rows| - 1
    ensures Sealed(rows[i := a])
  {
  }

  lemma StepKeepsSealed(e: Escrow, s: EscrowStep)
    requires Sealed(e.activations)
    ensures Sealed(Step(e, s).activations)
  {
    hide DisplaceAll, RevokeAll, Latest;
    LatestIsLength(e.activations);
    match s
    case IssueActivation(request, password, ttl, now) => DisplaceAllAt(e.activations);
    case RevokeActivations => RevokeAllAt(e.activations);
    case ReadExpired(i, now) =>
    case _ =>
      if s.index < |e.activations| {
        if Step(e, s).activations != e.activations {
          OneRowChanged(e.activations, s.index, Step(e, s).activations[s.index]);
        }
      }
  }

  /** Activation escrow, in every reachable state, unlocked expiry writes included. */
  lemma {:induction false} EscrowStaysSealed(e: Escrow, steps: seq<EscrowStep>)
    requires Sealed(e.activations)
    ensures Sealed(Run(e, steps).activations)
  {
    if steps != [] {
      EscrowStaysSealed(e, Front(steps));
      StepKeepsSealed(Run(e, Front(steps)), Last(steps));
    }
  }

  /** At most one unresolved activation, the newest generation. */
  lemma OneUnresolved(e: Escrow, steps: seq<EscrowStep>, i: nat, j: nat)
    requires Sealed(e.activations)
    requires var rows := Run(e, steps).activations;
             i < |rows| && j < |rows| && Unresolved(rows[i].status) && Unresolved(rows[j].status)
    ensures i == j && Run(e, steps).activations[i].generation == Latest(Run(e, steps).activations)
  {
    EscrowStaysSealed(e, steps);
    LatestIsLength(Run(e, steps).activations);
  }

  /** No provisioning or delivery ever decrypts an empty secret. */
  lemma DecryptionMeetsSecret(e: Escrow, steps: seq<EscrowStep>, i: nat, now: nat)
    requires Sealed(e.activations)
    requires var rows := Run(e, steps).activations; i < |rows| && Decrypts(rows[i], Latest(rows), now)
    ensures Run(e, steps).activations[i].escrow.Some?
  {
    EscrowStaysSealed(e, steps);
  }

  /** A secret is only ever cleared: what a generation holds is the password it was issued with. */
  lemma StepNeverRewritesSecret(e: Escrow, s: EscrowStep, i: nat)
    requires i < |e.activations|
    ensures i < |Step(e, s).activations|
    ensures Step(e, s).activations[i].escrow in {e.activations[i].escrow, None}
    ensures Step(e, s).activations[i].request == e.activations[i].request
  {
    hide DisplaceAll, RevokeAll, Latest;
    DisplaceAllAt(e.activations);
    RevokeAllAt(e.activations);
  }

  lemma {:induction false} SecretNeverRewritten(e: Escrow, steps: seq<EscrowStep>, i: nat)
    requires i < |e.activations|
    ensures i < |Run(e, steps).activations|
    ensures Run(e, steps).activations[i].escrow in {e.activations[i].escrow, None}
  {
    if steps != [] {
      SecretNeverRewritten(e, Front(steps), i);
      StepNeverRewritesSecret(Run(e, Front(steps)), Last(steps), i);
    }
  }

  // -------------------------------------------------------- acknowledged is final

  /** The unlocked sweep writes back an expiry it decided before the acknowledgement. */
  predicate StaleExpiry(e: Escrow, s: EscrowStep, i: nat) {
    s == WriteExpired(i) && i in e.expiring
  }

  lemma StepKeepsAcknowledgedExactly(e: Escrow, s: EscrowStep, i: nat)
    requires i < |e.activations| && e.activations[i].status.ActAcknowledged?
    ensures i < |Step(e, s).activations|
    ensures Step(e, s).activations[i].status.ActAcknowledged? <==> !StaleExpiry(e, s, i)
  {
    DisplaceAllAt(e.activations);
    RevokeAllAt(e.activations);
  }

  lemma {:induction false} AcknowledgedIsFinal(e: Escrow, steps: seq<EscrowStep>, i: nat)
    requires i < |e.activations| && e.activations[i].status.ActAcknowledged?
    requires forall k :: 0 <= k < |steps| ==> !StaleExpiry(Run(e, steps[..k]), steps[k], i)
    ensures i < |Run(e, steps).activations| && Run(e, steps).activations[i].status.ActAcknowledged?
  {
    if steps != [] {
      var front := Front(steps);
      assert steps[..|steps| - 1] == front;
      forall k | 0 <= k < |front|
        ensures !StaleExpiry(Run(e, front[..k]), front[k], i)
      {
        assert front[..k] == steps[..k];
      }
      AcknowledgedIsFinal(e, front, i);
      StepKeepsAcknowledgedExactly(Run(e, front), Last(steps), i);
    }
  }

  /** An acknowledgement between the sweep's read and its write is lost. */
  lemma SweepCanLoseAcknowledgement(a: Activation, now: nat)
    requires a.generation == 1 && Unresolved(a.status) && a.acknowledgedAt.None? && a.expiresAt <= now
    ensures
      var read := Step(Escrow([a], {}), ReadExpired(0, now));
      var acknowledged := Step(read, AcknowledgeActivation(0, 1, true, now));
      var written := Step(acknowledged, WriteExpired(0));
      && acknowledged.activations[0].status.ActAcknowledged?
      && written.activations[0].status.ActExpired? && written.activations[0].acknowledgedAt == Some(now)
  {
    LatestIsLength([a]);
  }
}
