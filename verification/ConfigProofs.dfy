/** Revisions, supersession and settlement of configuration delivery over every run. */
module ConfigProofs {

  import opened Common
  import opened ConfigModel

  ghost predicate Numbered(configs: seq<Config>) {
    forall i :: 0 <= i < |configs| ==> configs[i].revision == i + 1
  }

  /** Revisions are exactly 1..n, only the highest may still be in delivery, and a
      configuration is settled if and only if its outbox row is completed. */
  ghost predicate Orderly(d: Delivery) {
    && Numbered(d.configs)
    && (forall i :: 0 <= i < |d.configs| - 1 ==> Settled(d.configs[i].status))
    && (forall i :: 0 <= i < |d.configs| ==> (Settled(d.configs[i].status) <==> d.configs[i].row.status.RowCompleted?))
  }

  lemma {:induction false} SupersedeAllAt(configs: seq<Config>)
    ensures |SupersedeAll(configs)| == |configs|
    ensures forall i :: 0 <= i < |configs| ==> SupersedeAll(configs)[i] == Supersede(configs[i])
  {
    if configs != [] {
      SupersedeAllAt(Front(configs));
    }
  }

  lemma {:induction false} LatestIsLength(configs: seq<Config>)
    requires Numbered(configs)
    ensures LatestRevision(configs) == |configs|
  {
    if configs != [] {
      LatestIsLength(Front(configs));
    }
  }

  /** A late record hits a configuration that has been settled meanwhile, and would reopen it:
      always when the publication failed, and when it succeeded for a replaced revision. */
  predicate DisorderlyRecord(d: Delivery, s: ConfigStep) {
    && s.RecordDispatch? && s.index < |d.configs| && s.index in d.workers
    && Settled(d.configs[s.index].status)
    && (!s.sent || s.index < |d.configs| - 1)
  }

  lemma QueueKeepsOrder(t: Timing, d: Delivery, checksum: string, idempotency: nat, now: nat)
    requires Orderly(d)
    ensures Orderly(Queue(t, d, checksum, idempotency, now))
  {
    SupersedeAllAt(d.configs);
    LatestIsLength(d.configs);
  }

  lemma OneConfigChanged(d: Delivery, e: Delivery, i: nat)
    requires Orderly(d) && i < |d.configs| && |e.configs| == |d.configs|
    requires forall j :: 0 <= j < |d.configs| && j != i ==> e.configs[j] == d.configs[j]
    requires e.configs[i].revision == d.configs[i].revision
    ensures Orderly(e) <==>
            && (Settled(e.configs[i].status) <==> e.configs[i].row.status.RowCompleted?)
            && (i < |d.configs| - 1 ==> Settled(e.configs[i].status))
  {
  }

  lemma ClaimKeepsOrder(t: Timing, d: Delivery, i: nat, g: GatewayView, now: nat)
    requires Orderly(d) && i < |d.configs|
    ensures Orderly(Step(t, d, ClaimDispatch(i, g, now)))
  {
    OneConfigChanged(d, Step(t, d, ClaimDispatch(i, g, now)), i);
  }

  lemma RecordOrderExactly(t: Timing, d: Delivery, i: nat, sent: bool, now: nat)
    requires Orderly(d) && i < |d.configs| && i in d.workers
    ensures Orderly(Step(t, d, RecordDispatch(i, sent, now))) <==> !DisorderlyRecord(d, RecordDispatch(i, sent, now))
  {
    OneConfigChanged(d, Step(t, d, RecordDispatch(i, sent, now)), i);
  }

  lemma AcknowledgeKeepsOrder(t: Timing, d: Delivery, i: nat, a: Ack, now: nat)
    requires Orderly(d) && i < |d.configs|
    ensures Orderly(Step(t, d, Acknowledge(i, a, now)))
  {
    LatestIsLength(d.configs);
    OneConfigChanged(d, Step(t, d, Acknowledge(i, a, now)), i);
  }

  /** One transaction destroys the order exactly when it is such a record. */
  lemma StepOrderExactly(t: Timing, d: Delivery, s: ConfigStep)
    requires Orderly(d)
    ensures Orderly(Step(t, d, s)) <==> !DisorderlyRecord(d, s)
  {
    hide Queue, LatestRevision;
    match s
    case QueueConfig(checksum, idempotency, now) => QueueKeepsOrder(t, d, checksum, idempotency, now);
    case RetryConfig(i, idempotency, now) =>
      if i < |d.configs| {
        QueueKeepsOrder(t, d, d.configs[i].checksum, idempotency, now);
      }
    case CrashDispatch(i) =>
    case ClaimDispatch(i, g, now) =>
      if i < |d.configs| {
        ClaimKeepsOrder(t, d, i, g, now);
      }
    case RecordDispatch(i, sent, now) =>
      if i < |d.configs| && i in d.workers {
        RecordOrderExactly(t, d, i, sent, now);
      }
    case Acknowledge(i, a, now) =>
      if i < |d.configs| {
        AcknowledgeKeepsOrder(t, d, i, a, now);
      }
  }

  /** No record of the run reaches a configuration settled since its claim. A dispatch that
      runs as one step satisfies it: its claim leaves an unsettled configuration behind. */
  ghost predicate Prompt(t: Timing, d: Delivery, steps: seq<ConfigStep>) {
    forall k :: 0 <= k < |steps| ==> !DisorderlyRecord(Deliver(t, d, steps[..k]), steps[k])
  }

  lemma {:induction false} DeliveryOrder(t: Timing, d: Delivery, steps: seq<ConfigStep>)
    requires Orderly(d) && Prompt(t, d, steps)
    ensures Orderly(Deliver(t, d, steps))
  {
    if steps != [] {
      var front := Front(steps);
      assert steps[..|steps| - 1] == front;
      forall k | 0 <= k < |front|
        ensures !DisorderlyRecord(Deliver(t, d, front[..k]), front[k])
      {
        assert front[..k] == steps[..k];
      }
      DeliveryOrder(t, d, front);
      StepOrderExactly(t, Deliver(t, d, front), Last(steps));
    }
  }

  /** Every record directly follows the claim of the same dispatch. */
  ghost predicate WholeDispatches(t: Timing, d: Delivery, steps: seq<ConfigStep>) {
    forall k :: 0 <= k < |steps| && steps[k].RecordDispatch? ==>
      && k > 0 && steps[k - 1].ClaimDispatch? && steps[k - 1].index == steps[k].index
      && var e := Deliver(t, d, steps[..k - 1]);
         && steps[k].index < |e.configs|
         && ClaimConfig(t, e.configs[steps[k].index], steps[k - 1].gateway, steps[k - 1].claimedAt).1
  }

  lemma ClaimThenRecordIsOrderly(t: Timing, d: Delivery, i: nat, g: GatewayView, sent: bool, now: nat, later: nat)
    requires i < |d.configs| && ClaimConfig(t, d.configs[i], g, now).1
    ensures !DisorderlyRecord(Step(t, d, ClaimDispatch(i, g, now)), RecordDispatch(i, sent, later))
  {
  }

  /** With each dispatch as one step, every reachable state is orderly. */
  lemma WholeDispatchesStayOrderly(t: Timing, d: Delivery, steps: seq<ConfigStep>)
    requires Orderly(d) && WholeDispatches(t, d, steps)
    ensures Orderly(Deliver(t, d, steps))
  {
    forall k | 0 <= k < |steps|
      ensures !DisorderlyRecord(Deliver(t, d, steps[..k]), steps[k])
    {
      if steps[k].RecordDispatch? {
        var e := Deliver(t, d, steps[..k - 1]);
        var claim := steps[k - 1];
        assert Front(steps[..k]) == steps[..k - 1] && Last(steps[..k]) == claim;
        ClaimThenRecordIsOrderly(t, e, claim.index, claim.gateway, steps[k].sent, claim.claimedAt, steps[k].recordedAt);
      }
    }
    DeliveryOrder(t, d, steps);
  }

  lemma QueueOnEmpty(t: Timing, checksum: string, idempotency: nat)
    ensures Queue(t, Delivery([], multiset{}), checksum, idempotency, 0).configs
            == [NewConfig(t, 1, checksum, idempotency, 0)]
  {
  }

  /** With a newer revision queued between claim and record, the replaced one is published. */
  lemma LateRecordRevivesReplaced(t: Timing, checksum: string)
    requires 0 < t.ttl
    ensures
      var d := Queue(t, Delivery([], multiset{}), checksum, 1, 0);
      var claimed := Step(t, d, ClaimDispatch(0, GatewayView(false, true), 0));
      var replaced := Step(t, claimed, QueueConfig(checksum, 2, 0));
      var revived := Step(t, replaced, RecordDispatch(0, true, 0));
      && replaced.configs[0].status == Superseded
      && revived.configs[0].status == ConfigPublished && revived.configs[1].status == ConfigQueued
  {
    hide SupersedeAll, LatestRevision;
    QueueOnEmpty(t, checksum, 1);
    var d := Queue(t, Delivery([], multiset{}), checksum, 1, 0);
    assert d.configs == [NewConfig(t, 1, checksum, 1, 0)];
    var claimed := Step(t, d, ClaimDispatch(0, GatewayView(false, true), 0));
    assert 0 in claimed.workers;
    SupersedeAllAt(claimed.configs);
    var replaced := Step(t, claimed, QueueConfig(checksum, 2, 0));
    assert replaced.configs[0] == Supersede(claimed.configs[0]);
  }

  // --------------------------------------------------- activated revisions rise

  lemma StepKeepsRevisions(t: Timing, d: Delivery, s: ConfigStep)
    requires Numbered(d.configs)
    ensures Numbered(Step(t, d, s).configs) && |d.configs| <= |Step(t, d, s).configs|
  {
    SupersedeAllAt(d.configs);
    LatestIsLength(d.configs);
  }

  lemma {:induction false} RevisionsKept(t: Timing, d: Delivery, steps: seq<ConfigStep>)
    requires Numbered(d.configs)
    ensures Numbered(Deliver(t, d, steps).configs) && |d.configs| <= |Deliver(t, d, steps).configs|
  {
    if steps != [] {
      RevisionsKept(t, d, Front(steps));
      StepKeepsRevisions(t, Deliver(t, d, Front(steps)), Last(steps));
    }
  }

  /** The acknowledgement step makes this configuration active. */
  predicate Activates(t: Timing, d: Delivery, s: ConfigStep) {
    && s.Acknowledge? && s.index < |d.configs|
    && !d.configs[s.index].status.ConfigActive? && Step(t, d, s).configs[s.index].status.ConfigActive?
  }

  lemma ActivatesLatest(t: Timing, d: Delivery, s: ConfigStep)
    requires Numbered(d.configs) && Activates(t, d, s)
    ensures d.configs[s.index].revision == |d.configs| && s.index == |d.configs| - 1
  {
    LatestIsLength(d.configs);
  }

  /** Over every run, late records included: of two acknowledgements that make a revision
      active, the later one activates the same revision or a higher one. */
  lemma ActiveRevisionsNeverFall(
    t: Timing, d: Delivery, before: seq<ConfigStep>, first: ConfigStep, between: seq<ConfigStep>, second: ConfigStep)
    requires Numbered(d.configs)
    requires var e := Deliver(t, d, before);
             Activates(t, e, first) && Activates(t, Deliver(t, Step(t, e, first), between), second)
    ensures var e := Deliver(t, d, before);
            var f := Deliver(t, Step(t, e, first), between);
            e.configs[first.index].revision <= f.configs[second.index].revision
  {
    var e := Deliver(t, d, before);
    RevisionsKept(t, d, before);
    ActivatesLatest(t, e, first);
    StepKeepsRevisions(t, e, first);
    RevisionsKept(t, Step(t, e, first), between);
    ActivatesLatest(t, Deliver(t, Step(t, e, first), between), second);
  }
}
