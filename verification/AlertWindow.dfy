/** Sustained alerts (apps/alerts/services.py): when a rule with a duration fires, and how the
    alerts of one rule and device follow each other. Times are in seconds. */
module AlertWindow {

  import opened Common

  datatype Condition = Above | Below | AtLeast | AtMost | Equal | Different | UnknownCondition

  datatype Rule = Rule(condition: Condition, threshold: real, duration: int, cooldown: real)

  /** One stored telemetry value: numeric, boolean or neither. */
  datatype Sample = Sample(time: real, numeric: Option<real>, flag: Option<bool>)

  /** evaluate_condition_value */
  predicate Meets(rule: Rule, value: real) {
    match rule.condition
    case Above => value > rule.threshold
    case Below => value < rule.threshold
    case AtLeast => value >= rule.threshold
    case AtMost => value <= rule.threshold
    case Equal => value == rule.threshold
    case Different => value != rule.threshold
    case UnknownCondition => false
  }

  /** The conditions agree with each other: a value is above, below or equal, and the others are what
      their names say of these; an unknown one is never met. */
  lemma ConditionsAgree(rule: Rule, value: real)
    ensures var above := Meets(rule.(condition := Above), value);
            var below := Meets(rule.(condition := Below), value);
            var equal := Meets(rule.(condition := Equal), value);
            && (above <==> rule.threshold < value) && (below <==> value < rule.threshold)
            && (equal <==> !above && !below)
            && (Meets(rule.(condition := AtLeast), value) <==> above || equal)
            && (Meets(rule.(condition := AtMost), value) <==> below || equal)
            && (Meets(rule.(condition := Different), value) <==> !equal)
            && !Meets(rule.(condition := UnknownCondition), value)
  {
  }

  /** _condition_value */
  function ValueOf(s: Sample): Option<real> {
    if s.numeric.Some? then s.numeric
    else if s.flag.Some? then Some(if s.flag.value then 1.0 else 0.0)
    else None
  }

  predicate SampleMeets(rule: Rule, s: Sample) {
    ValueOf(s).Some? && Meets(rule, ValueOf(s).value)
  }

  /** A sample meets the rule by its number, or by 1 or 0 for a true or false one without a number;
      a sample that has neither meets none. */
  lemma SampleMeetsExactly(rule: Rule, s: Sample)
    ensures SampleMeets(rule, s) <==>
            || (s.numeric.Some? && Meets(rule, s.numeric.value))
            || (s.numeric.None? && s.flag == Some(true) && Meets(rule, 1.0))
            || (s.numeric.None? && s.flag == Some(false) && Meets(rule, 0.0))
  {
  }

  /** The stored samples of one device and key, as the queries order them. */
  predicate Ordered(samples: seq<Sample>) {
    forall i, j :: 0 <= i < j < |samples| ==> samples[i].time <= samples[j].time
  }

  const TOLERANCE := 2.0

  /** How many samples lie before the instant. */
  function Earlier(samples: seq<Sample>, start: real): (k: nat)
    ensures k <= |samples|
  {
    if samples == [] || samples[0].time >= start then 0 else 1 + Earlier(samples[1..], start)
  }

  lemma {:induction false} EarlierSplits(samples: seq<Sample>, start: real)
    requires Ordered(samples)
    ensures forall i :: 0 <= i < |samples| ==> (samples[i].time < start <==> i < Earlier(samples, start))
  {
    if samples != [] {
      EarlierSplits(samples[1..], start);
      assert forall i :: 1 <= i < |samples| ==> samples[i] == samples[1..][i - 1];
    }
  }

  function WindowStart(rule: Rule, now: real): real {
    now - rule.duration as real
  }

  /** The first sample of the list the source checks: the window's first one, or the one just
      before the window if the window opens more than the tolerance earlier. None when the
      source gives up before that. */
  function FirstPoint(rule: Rule, samples: seq<Sample>, start: real): Option<nat> {
    var k := Earlier(samples, start);
    if k == |samples| then None
    else if samples[k].time > start + TOLERANCE then
      if k == 0 || !SampleMeets(rule, samples[k - 1]) then None else Some(k - 1)
    else Some(k)
  }

  /** Every point meets the limit and follows the one before it without a long gap. */
  predicate Unbroken(rule: Rule, points: seq<Sample>, gap: real) {
    forall i :: 0 <= i < |points| ==>
                  SampleMeets(rule, points[i]) && (i == 0 || points[i].time - points[i - 1].time <= gap)
  }

  /** evaluate_condition. The clock is read once for the window and again for the age of the
      newest sample; gap is the device's offline threshold. */
  predicate Fires(rule: Rule, samples: seq<Sample>, value: real, windowNow: real, checkNow: real, gap: real) {
    && Meets(rule, value)
    && (rule.duration <= 0
        || (var first := FirstPoint(rule, samples, WindowStart(rule, windowNow));
            && first.Some? && first.value < |samples|
            && checkNow - Last(samples).time <= gap
            && Unbroken(rule, samples[first.value..], gap)))
  }

  /** A stored sample, at most gap old at the instant, shows the limit exceeded. */
  predicate Witnessed(rule: Rule, samples: seq<Sample>, gap: real, t: real) {
    exists i :: 0 <= i < |samples| && samples[i].time <= t <= samples[i].time + gap && SampleMeets(rule, samples[i])
  }

  lemma {:induction false} LatestBefore(points: seq<Sample>, t: real) returns (i: nat)
    requires points != [] && Ordered(points) && points[0].time <= t
    ensures i < |points| && points[i].time <= t && (i + 1 < |points| ==> t < points[i + 1].time)
  {
    if Last(points).time <= t {
      i := |points| - 1;
    } else {
      i := LatestBefore(Front(points), t);
      assert i + 1 < |Front(points)| ==> Front(points)[i + 1] == points[i + 1];
    }
  }

  /** Sustained alert coverage: when a rule with a duration fires, every instant from two
      seconds after the window opened to the check is witnessed. */
  lemma FiringIsCovered(
    rule: Rule, samples: seq<Sample>, value: real, windowNow: real, checkNow: real, gap: real, t: real)
    requires Ordered(samples) && rule.duration > 0
    requires Fires(rule, samples, value, windowNow, checkNow, gap)
    requires windowNow - rule.duration as real + 2.0 <= t <= checkNow
    ensures Witnessed(rule, samples, gap, t)
  {
    var start := WindowStart(rule, windowNow);
    var first := FirstPoint(rule, samples, start).value;
    var points := samples[first..];
    EarlierSplits(samples, start);
    assert Last(points) == Last(samples);
    var i := LatestBefore(points, t);
    assert SampleMeets(rule, points[i]);
    assert i + 1 < |points| ==> points[i + 1].time - points[i].time <= gap;
    assert samples[first + i] == points[i];
  }

  /** A rule without a duration fires at once, whatever is stored. */
  lemma InstantRuleFires(rule: Rule, samples: seq<Sample>, value: real, windowNow: real, checkNow: real, gap: real)
    requires rule.duration <= 0
    ensures Fires(rule, samples, value, windowNow, checkNow, gap) <==> Meets(rule, value)
  {
  }

  /** What the window's samples must satisfy one by one: the current value and every sample of
      the window meet the limit, the sample before a late first one does too, and the newest
      sample is fresh. */
  predicate WindowMeets(rule: Rule, samples: seq<Sample>, value: real, start: real, checkNow: real, gap: real) {
    var k := Earlier(samples, start);
    && Meets(rule, value) && k < |samples|
    && (forall i :: k <= i < |samples| ==> SampleMeets(rule, samples[i]))
    && (samples[k].time > start + TOLERANCE ==> k > 0 && SampleMeets(rule, samples[k - 1]))
    && checkNow - Last(samples).time <= gap
  }

  ghost predicate WitnessedFrom(rule: Rule, samples: seq<Sample>, gap: real, from: real)
    requires samples != []
  {
    forall t: real :: from <= t <= Last(samples).time ==> Witnessed(rule, samples, gap, t)
  }

  lemma FiresWithoutGaps(rule: Rule, samples: seq<Sample>, value: real, windowNow: real, checkNow: real, gap: real)
    requires rule.duration > 0
    ensures var start := WindowStart(rule, windowNow);
            var first := FirstPoint(rule, samples, start);
            Fires(rule, samples, value, windowNow, checkNow, gap)
            <==> WindowMeets(rule, samples, value, start, checkNow, gap) && first.Some? && first.value < |samples|
                 && Unbroken(rule, samples[first.value..], gap)
  {
    var first := FirstPoint(rule, samples, WindowStart(rule, windowNow));
    if first.Some? && first.value < |samples| {
      var points := samples[first.value..];
      assert forall i :: first.value <= i < |samples| ==> samples[i] == points[i - first.value];
    }
  }

  lemma FirstPointPlaced(rule: Rule, samples: seq<Sample>, start: real)
    requires Ordered(samples) && FirstPoint(rule, samples, start).Some?
    ensures var first := FirstPoint(rule, samples, start).value;
            && first < |samples| && samples[first].time <= start + TOLERANCE
            && (first + 1 < |samples| && samples[first].time < start ==> samples[first + 1].time > start + TOLERANCE)
            && (first + 1 < |samples| ==> samples[first + 1].time >= start)
  {
    EarlierSplits(samples, start);
  }

  /** With an offline threshold of at least the tolerance, a rule with a duration fires exactly
      when the window meets the limit and every instant from the tolerance to the newest sample
      is witnessed. */
  lemma FiresExactly(rule: Rule, samples: seq<Sample>, value: real, windowNow: real, checkNow: real, gap: real)
    requires Ordered(samples) && rule.duration > 0 && gap >= TOLERANCE
    ensures var start := windowNow - rule.duration as real;
            Fires(rule, samples, value, windowNow, checkNow, gap)
            <==> WindowMeets(rule, samples, value, start, checkNow, gap)
                 && WitnessedFrom(rule, samples, gap, start + 2.0)
  {
    hide Fires, Witnessed, Unbroken, Ordered;
    var start := WindowStart(rule, windowNow);
    FiresWithoutGaps(rule, samples, value, windowNow, checkNow, gap);
    if WindowMeets(rule, samples, value, start, checkNow, gap) {
      FirstPointPlaced(rule, samples, start);
      var first := FirstPoint(rule, samples, start).value;
      if Unbroken(rule, samples[first..], gap) {
        forall t: real | start + TOLERANCE <= t <= Last(samples).time ensures Witnessed(rule, samples, gap, t) {
          CoveredToNewest(rule, samples, first, gap, t);
        }
      } else {
        GapUnwitnessed(rule, samples, first, start + TOLERANCE, gap);
      }
    }
  }

  lemma CoveredToNewest(rule: Rule, samples: seq<Sample>, first: nat, gap: real, t: real)
    requires Ordered(samples) && first < |samples| && Unbroken(rule, samples[first..], gap) && gap >= 0.0
    requires samples[first].time <= t <= Last(samples).time
    ensures Witnessed(rule, samples, gap, t)
  {
    var points := samples[first..];
    var i := LatestBefore(points, t);
    assert SampleMeets(rule, points[i]);
    assert i + 1 < |points| ==> points[i + 1].time - points[i].time <= gap;
    assert samples[first + i] == points[i];
  }

  /** Where the list breaks, some instant after the tolerance is witnessed by no sample. */
  lemma GapUnwitnessed(rule: Rule, samples: seq<Sample>, first: nat, from: real, gap: real)
    requires Ordered(samples) && first < |samples| && gap >= TOLERANCE
    requires forall i :: first <= i < |samples| ==> SampleMeets(rule, samples[i])
    requires !Unbroken(rule, samples[first..], gap)
    requires first + 1 < |samples| && samples[first].time < from - TOLERANCE ==> samples[first + 1].time > from
    requires first + 1 < |samples| ==> samples[first + 1].time >= from - TOLERANCE
    ensures exists t: real :: from <= t <= Last(samples).time && !Witnessed(rule, samples, gap, t)
  {
    hide SampleMeets, Witnessed;
    var points := samples[first..];
    assert forall i :: 0 <= i < |points| ==> points[i] == samples[first + i];
    var i :| 0 < i < |points| && points[i].time - points[i - 1].time > gap;
    var lower, upper := points[i - 1].time, points[i].time;
    var middle := (lower + gap + upper) / 2.0;
    var t := if middle < from then from else middle;
    assert lower + gap < t < upper;
    NoneBetween(rule, samples, first + i, gap, t);
    assert upper <= Last(samples).time;
  }

  lemma NoneBetween(rule: Rule, samples: seq<Sample>, k: nat, gap: real, t: real)
    requires Ordered(samples) && 0 < k < |samples|
    requires samples[k - 1].time + gap < t < samples[k].time
    ensures !Witnessed(rule, samples, gap, t)
  {
    hide SampleMeets;
    forall j | 0 <= j < |samples| ensures !(samples[j].time <= t <= samples[j].time + gap) {
      if j < k {
        assert samples[j].time <= samples[k - 1].time;
      } else {
        assert samples[k].time <= samples[j].time;
      }
    }
  }

  /** evaluate_condition as the loop of the source. */
  method EvaluateCondition(rule: Rule, samples: seq<Sample>, value: real, windowNow: real, checkNow: real, gap: real)
    returns (fires: bool)
    ensures fires == Fires(rule, samples, value, windowNow, checkNow, gap)
  {
    hide Meets, SampleMeets, Unbroken;
    if !Meets(rule, value) {
      return false;
    }
    if rule.duration <= 0 {
      return true;
    }
    var start := WindowStart(rule, windowNow);
    var k := Earlier(samples, start);
    var points := samples[k..];
    ghost var first := k;
    if points == [] {
      return false;
    }
    if points[0].time > start + TOLERANCE {
      if k == 0 {
        return false;
      }
      var previous := samples[k - 1];
      if !SampleMeets(rule, previous) {
        return false;
      }
      points := [previous] + points;
      first := k - 1;
    }
    assert FirstPoint(rule, samples, start) == Some(first) && points == samples[first..];
    assert Last(points) == Last(samples);
    if checkNow - Last(points).time > gap {
      return false;
    }
    fires := AllHold(rule, points, gap);
  }

  /** The final all(...) over the points. */
  method AllHold(rule: Rule, points: seq<Sample>, gap: real) returns (ok: bool)
    ensures ok == Unbroken(rule, points, gap)
  {
    hide SampleMeets;
    for i := 0 to |points|
      invariant forall k :: 0 <= k < i ==>
                              SampleMeets(rule, points[k]) && (k == 0 || points[k].time - points[k - 1].time <= gap)
    {
      if !SampleMeets(rule, points[i]) || (i > 0 && points[i].time - points[i - 1].time > gap) {
        return false;
      }
    }
    return true;
  }

  // ------------------------------------------------------------ alerts over runs

  datatype AlertStatus = Active | AlertAcknowledged | Resolved

  datatype Alert = Alert(status: AlertStatus, triggeredAt: real)

  predicate Unresolved(a: Alert) {
    !a.status.Resolved?
  }

  /** trigger_alert finds an unresolved alert inside the cooldown. */
  predicate Recent(rows: seq<Alert>, since: real) {
    exists a :: a in rows && Unresolved(a) && a.triggeredAt >= since
  }

  /** A check between its look and its create: the clock it looked at, and the rows that were
      unresolved then. */
  datatype Sight = Sight(lookedAt: real, seen: set<nat>)

  /** The alerts of one rule and device; looks holds the checks that found no recent alert, acks
      the alert each open acknowledgement request has read as active. */
  datatype Board = Board(rows: seq<Alert>, looks: map<nat, Sight>, acks: map<nat, nat>)

  function OpenRows(rows: seq<Alert>): set<nat> {
    set i | 0 <= i < |rows| && Unresolved(rows[i])
  }

  /** No row lock is taken: looking and creating, reading and acknowledging are separate, and the
      rows that one reading resolves are written one by one. */
  datatype AlertStep =
    | Look(checker: nat, now: real)
    | Create(checker: nat, createdAt: real)
    | ResolveRow(index: nat)
    | OpenAcknowledgement(user: nat, index: nat)
    | SaveAcknowledgement(user: nat)

  function StepBoard(rule: Rule, b: Board, step: AlertStep): Board {
    match step
    case Look(c, now) =>
      if Recent(b.rows, now - rule.cooldown) then b.(looks := b.looks - {c})
      else b.(looks := b.looks[c := Sight(now, OpenRows(b.rows))])
    case Create(c, createdAt) =>
      if c in b.looks then b.(rows := b.rows + [Alert(Active, createdAt)], looks := b.looks - {c}) else b
    case ResolveRow(i) =>
      if i < |b.rows| then b.(rows := b.rows[i := b.rows[i].(status := Resolved)]) else b
    case OpenAcknowledgement(u, i) =>
      if i < |b.rows| && b.rows[i].status.Active? then b.(acks := b.acks[u := i]) else b.(acks := b.acks - {u})
    case SaveAcknowledgement(u) =>
      if u in b.acks && b.acks[u] < |b.rows|
      then b.(rows := b.rows[b.acks[u] := b.rows[b.acks[u]].(status := AlertAcknowledged)], acks := b.acks - {u})
      else b
  }

  function RunBoard(rule: Rule, b: Board, steps: seq<AlertStep>): Board {
    if steps == [] then b else StepBoard(rule, RunBoard(rule, b, Front(steps)), Last(steps))
  }

  /** A look goes on to a create exactly when no unresolved row lies within the cooldown, and has seen
      exactly the unresolved rows; its create adds one row, once. */
  lemma LookExactly(rule: Rule, b: Board, c: nat, now: real, createdAt: real)
    ensures var looked := StepBoard(rule, b, Look(c, now));
            var created := StepBoard(rule, looked, Create(c, createdAt));
            && looked.rows == b.rows
            && (c in looked.looks <==>
                forall i :: 0 <= i < |b.rows| && b.rows[i].status != Resolved ==> b.rows[i].triggeredAt < now - rule.cooldown)
            && (c in looked.looks ==>
                  && looked.looks[c].lookedAt == now
                  && (forall i: nat :: i in looked.looks[c].seen <==> i < |b.rows| && b.rows[i].status != Resolved)
                  && created.rows == b.rows + [Alert(Active, createdAt)])
            && (c !in looked.looks ==> created.rows == b.rows)
            && c !in created.looks && StepBoard(rule, created, Create(c, createdAt)) == created
  {
  }

  /** What the other three writes do: a resolution, and an acknowledgement of an alert read as active. */
  lemma AnsweredExactly(rule: Rule, b: Board, u: nat, i: nat)
    requires i < |b.rows|
    ensures var resolved := StepBoard(rule, b, ResolveRow(i));
            resolved.rows == b.rows[i := b.rows[i].(status := Resolved)]
    ensures var read := StepBoard(rule, b, OpenAcknowledgement(u, i));
            var saved := StepBoard(rule, read, SaveAcknowledgement(u));
            && read.rows == b.rows
            && saved.rows == (if b.rows[i].status == Active then b.rows[i := b.rows[i].(status := AlertAcknowledged)]
                              else b.rows)
            && u !in saved.acks
  {
  }

  /** Two unresolved rows stand too close. */
  predicate TooClose(rule: Rule, first: Alert, second: Alert) {
    Unresolved(first) && Unresolved(second) && second.triggeredAt - first.triggeredAt <= rule.cooldown
  }

  predicate SpacedApart(rule: Rule, rows: seq<Alert>) {
    forall i, j :: 0 <= i < j < |rows| ==> !TooClose(rule, rows[i], rows[j])
  }

  /** A row is created no earlier than its check looked. */
  predicate Timely(b: Board, step: AlertStep) {
    step.Create? && step.checker in b.looks ==> b.looks[step.checker].lookedAt <= step.createdAt
  }

  /** What a check saw lies before its cooldown. */
  predicate SightHolds(rule: Rule, rows: seq<Alert>, sight: Sight) {
    forall i :: i in sight.seen ==> i < |rows| && rows[i].triggeredAt < sight.lookedAt - rule.cooldown
  }

  predicate SightsHold(rule: Rule, b: Board) {
    forall c :: c in b.looks ==> SightHolds(rule, b.rows, b.looks[c])
  }

  lemma StepKeepsSights(rule: Rule, b: Board, step: AlertStep)
    requires SightsHold(rule, b)
    ensures SightsHold(rule, StepBoard(rule, b, step))
  {
    var after := StepBoard(rule, b, step);
    forall c | c in after.looks ensures SightHolds(rule, after.rows, after.looks[c]) {
      if step.Look? && c == step.checker {
        NothingRecent(b.rows, step.now - rule.cooldown);
      } else {
        assert SightHolds(rule, b.rows, b.looks[c]);
      }
    }
  }

  lemma NothingRecent(rows: seq<Alert>, since: real)
    requires !Recent(rows, since)
    ensures forall i :: i in OpenRows(rows) ==> rows[i].triggeredAt < since
  {
    forall i | i in OpenRows(rows) ensures rows[i].triggeredAt < since {
      assert rows[i] in rows;
    }
  }

  /** The check creates a second alert within the cooldown of one that was added, or reopened,
      after its look. */
  predicate LateCreate(rule: Rule, b: Board, step: AlertStep) {
    && step.Create? && step.checker in b.looks
    && exists i :: && 0 <= i < |b.rows| && i !in b.looks[step.checker].seen && Unresolved(b.rows[i])
                   && step.createdAt - b.rows[i].triggeredAt <= rule.cooldown
  }

  /** The acknowledgement reopens a row resolved since it was read, next to another one. */
  predicate LateAcknowledgement(rule: Rule, b: Board, step: AlertStep) {
    && step.SaveAcknowledgement? && step.user in b.acks && b.acks[step.user] < |b.rows|
    && var i := b.acks[step.user];
       var reopened := b.rows[i].(status := AlertAcknowledged);
       && b.rows[i].status.Resolved?
       && exists j :: && 0 <= j < |b.rows|
                      && ((j < i && TooClose(rule, b.rows[j], reopened)) || (j > i && TooClose(rule, reopened, b.rows[j])))
  }

  /** A step breaks the spacing if and only if it is one of these two. */
  lemma StepSpacedExactly(rule: Rule, b: Board, step: AlertStep)
    requires SpacedApart(rule, b.rows) && SightsHold(rule, b) && Timely(b, step)
    ensures SpacedApart(rule, StepBoard(rule, b, step).rows)
            <==> !LateCreate(rule, b, step) && !LateAcknowledgement(rule, b, step)
  {
    match step
    case Create(c, createdAt) => CreateSpacedExactly(rule, b, c, createdAt);
    case SaveAcknowledgement(u) => AcknowledgementSpacedExactly(rule, b, u);
    case _ =>
  }

  lemma CreateSpacedExactly(rule: Rule, b: Board, c: nat, createdAt: real)
    requires SpacedApart(rule, b.rows) && SightsHold(rule, b) && Timely(b, Create(c, createdAt))
    ensures SpacedApart(rule, StepBoard(rule, b, Create(c, createdAt)).rows) <==> !LateCreate(rule, b, Create(c, createdAt))
  {
    if c in b.looks {
      var rows := b.rows + [Alert(Active, createdAt)];
      if LateCreate(rule, b, Create(c, createdAt)) {
        var i :| 0 <= i < |b.rows| && i !in b.looks[c].seen && Unresolved(b.rows[i])
                 && createdAt - b.rows[i].triggeredAt <= rule.cooldown;
        assert TooClose(rule, rows[i], rows[|b.rows|]);
      }
    }
  }

  lemma AcknowledgementSpacedExactly(rule: Rule, b: Board, u: nat)
    requires SpacedApart(rule, b.rows)
    ensures SpacedApart(rule, StepBoard(rule, b, SaveAcknowledgement(u)).rows)
            <==> !LateAcknowledgement(rule, b, SaveAcknowledgement(u))
  {
    if u in b.acks && b.acks[u] < |b.rows| {
      var i := b.acks[u];
      var rows := StepBoard(rule, b, SaveAcknowledgement(u)).rows;
      if LateAcknowledgement(rule, b, SaveAcknowledgement(u)) {
        var j :| 0 <= j < |b.rows|
                 && ((j < i && TooClose(rule, b.rows[j], rows[i])) || (j > i && TooClose(rule, rows[i], b.rows[j])));
        assert TooClose(rule, rows[if j < i then j else i], rows[if j < i then i else j]);
      } else {
        forall k, j | 0 <= k < j < |rows| ensures !TooClose(rule, rows[k], rows[j]) {
          assert !TooClose(rule, b.rows[k], b.rows[j]);
        }
      }
    }
  }

  /** No step of the run is one of these two. */
  ghost predicate NoneLate(rule: Rule, b: Board, steps: seq<AlertStep>) {
    forall k :: 0 <= k < |steps| ==>
                  var before := RunBoard(rule, b, steps[..k]);
                  Timely(before, steps[k]) && !LateCreate(rule, before, steps[k])
                  && !LateAcknowledgement(rule, before, steps[k])
  }

  /** In every run without them two unresolved alerts of a rule and device are triggered more than
      the cooldown apart, however many checks, resolutions and acknowledgements overlap. */
  lemma {:induction false} UnresolvedAlertsSpaced(rule: Rule, b: Board, steps: seq<AlertStep>)
    requires SpacedApart(rule, b.rows) && SightsHold(rule, b) && NoneLate(rule, b, steps)
    ensures SpacedApart(rule, RunBoard(rule, b, steps).rows) && SightsHold(rule, RunBoard(rule, b, steps))
  {
    hide StepBoard, Timely, LateCreate, LateAcknowledgement, SpacedApart, SightsHold;
    if steps != [] {
      var front := Front(steps);
      assert steps[..|front|] == front;
      forall k | 0 <= k < |front| ensures RunBoard(rule, b, front[..k]) == RunBoard(rule, b, steps[..k]) {
        assert front[..k] == steps[..k];
      }
      UnresolvedAlertsSpaced(rule, b, front);
      StepKeepsSights(rule, RunBoard(rule, b, front), Last(steps));
      StepSpacedExactly(rule, RunBoard(rule, b, front), Last(steps));
    }
  }

  /** A create or an acknowledgement directly follows its own look or reading. */
  predicate Follows(first: AlertStep, second: AlertStep) {
    && (second.Create? ==> first.Look? && first.checker == second.checker && first.now <= second.createdAt)
    && (second.SaveAcknowledgement? ==> first.OpenAcknowledgement? && first.user == second.user)
  }

  predicate OneAtATime(steps: seq<AlertStep>) {
    && (steps != [] ==> !steps[0].Create? && !steps[0].SaveAcknowledgement?)
    && forall k :: 0 < k < |steps| ==> Follows(steps[k - 1], steps[k])
  }

  lemma FollowingStepIsNotLate(rule: Rule, b: Board, first: AlertStep, second: AlertStep)
    requires Follows(first, second)
    ensures var between := StepBoard(rule, b, first);
            Timely(between, second) && !LateCreate(rule, between, second) && !LateAcknowledgement(rule, between, second)
  {
  }

  /** If checks and acknowledgements run one at a time the spacing holds in every run. */
  lemma SerialAlertsSpaced(rule: Rule, b: Board, steps: seq<AlertStep>)
    requires SpacedApart(rule, b.rows) && SightsHold(rule, b) && OneAtATime(steps)
    ensures SpacedApart(rule, RunBoard(rule, b, steps).rows)
  {
    hide StepBoard, Timely, LateCreate, LateAcknowledgement, SpacedApart, SightsHold;
    forall k | 0 <= k < |steps|
      ensures var before := RunBoard(rule, b, steps[..k]);
              Timely(before, steps[k]) && !LateCreate(rule, before, steps[k])
              && !LateAcknowledgement(rule, before, steps[k])
    {
      if steps[k].Create? || steps[k].SaveAcknowledgement? {
        assert Front(steps[..k]) == steps[..k - 1] && Last(steps[..k]) == steps[k - 1];
        FollowingStepIsNotLate(rule, RunBoard(rule, b, steps[..k - 1]), steps[k - 1], steps[k]);
      } else {
        OtherStepIsNotLate(rule, RunBoard(rule, b, steps[..k]), steps[k]);
      }
    }
    UnresolvedAlertsSpaced(rule, b, steps);
  }

  lemma OtherStepIsNotLate(rule: Rule, b: Board, step: AlertStep)
    requires !step.Create? && !step.SaveAcknowledgement?
    ensures Timely(b, step) && !LateCreate(rule, b, step) && !LateAcknowledgement(rule, b, step)
  {
  }

  lemma RunFour(rule: Rule, b: Board, s0: AlertStep, s1: AlertStep, s2: AlertStep, s3: AlertStep)
    ensures RunBoard(rule, b, [s0, s1, s2, s3])
            == StepBoard(rule, StepBoard(rule, StepBoard(rule, StepBoard(rule, b, s0), s1), s2), s3)
  {
    hide StepBoard;
    assert Front([s0, s1, s2, s3]) == [s0, s1, s2] && Front([s0, s1, s2]) == [s0, s1];
    assert Front([s0, s1]) == [s0] && Front([s0]) == [];
    assert RunBoard(rule, b, [s0]) == StepBoard(rule, b, s0);
    assert RunBoard(rule, b, [s0, s1]) == StepBoard(rule, RunBoard(rule, b, [s0]), s1);
    assert RunBoard(rule, b, [s0, s1, s2]) == StepBoard(rule, RunBoard(rule, b, [s0, s1]), s2);
    assert RunBoard(rule, b, [s0, s1, s2, s3]) == StepBoard(rule, RunBoard(rule, b, [s0, s1, s2]), s3);
  }

  /** Two checks that both look before either creates leave two alerts of the same instant. */
  lemma OverlappingChecksClash(rule: Rule, now: real)
    requires rule.cooldown >= 0.0
    ensures var steps := [Look(1, now), Look(2, now), Create(1, now), Create(2, now)];
            var b := RunBoard(rule, Board([], map[], map[]), steps);
            b.rows == [Alert(Active, now), Alert(Active, now)] && !SpacedApart(rule, b.rows)
  {
    RunFour(rule, Board([], map[], map[]), Look(1, now), Look(2, now), Create(1, now), Create(2, now));
    var rows := [Alert(Active, now), Alert(Active, now)];
    assert [] + [Alert(Active, now)] == [Alert(Active, now)];
    assert TooClose(rule, rows[0], rows[1]);
  }

  /** An acknowledgement read before its alert was resolved reopens it beside the next one. */
  lemma StaleAcknowledgementClashes(rule: Rule, now: real)
    requires rule.cooldown >= 0.0
    ensures var start := Board([Alert(Active, now)], map[], map[7 := 0]);
            var steps := [ResolveRow(0), Look(1, now), Create(1, now), SaveAcknowledgement(7)];
            var b := RunBoard(rule, start, steps);
            b.rows == [Alert(AlertAcknowledged, now), Alert(Active, now)] && !SpacedApart(rule, b.rows)
  {
    var start := Board([Alert(Active, now)], map[], map[7 := 0]);
    RunFour(rule, start, ResolveRow(0), Look(1, now), Create(1, now), SaveAcknowledgement(7));
    var rows := [Alert(AlertAcknowledged, now), Alert(Active, now)];
    assert [Alert(Resolved, now)] + [Alert(Active, now)] == [Alert(Resolved, now), Alert(Active, now)];
    assert !Recent([Alert(Resolved, now)], now - rule.cooldown);
    assert TooClose(rule, rows[0], rows[1]);
  }

  // ---------------------------------------------------------------- whole checks

  /** trigger_alert with nothing in between. */
  function Fired(rule: Rule, rows: seq<Alert>, now: real, createdAt: real): seq<Alert> {
    if Recent(rows, now - rule.cooldown) then rows else rows + [Alert(Active, createdAt)]
  }

  /** resolve_alert with nothing in between. */
  function ResolveAll(rows: seq<Alert>): (rs: seq<Alert>)
    ensures |rs| == |rows| && forall i :: 0 <= i < |rows| ==> rs[i] == rows[i].(status := Resolved)
  {
    if rows == [] then [] else [rows[0].(status := Resolved)] + ResolveAll(rows[1..])
  }

  /** A whole check is its look directly followed by its create. */
  lemma FiredIsLookThenCreate(rule: Rule, b: Board, c: nat, now: real, createdAt: real)
    ensures StepBoard(rule, StepBoard(rule, b, Look(c, now)), Create(c, createdAt)).rows
            == Fired(rule, b.rows, now, createdAt)
  {
  }

  /** A reading that fires leaves an unresolved alert no older than the cooldown; one that does
      not fire leaves none at all. */
  lemma ReadingDecides(rule: Rule, rows: seq<Alert>, now: real, createdAt: real)
    requires now <= createdAt && rule.cooldown >= 0.0
    ensures Recent(Fired(rule, rows, now, createdAt), now - rule.cooldown)
    ensures forall a :: a in ResolveAll(rows) ==> !Unresolved(a)
  {
    if !Recent(rows, now - rule.cooldown) {
      var created := Alert(Active, createdAt);
      assert created in rows + [created];
    }
  }

  /** The alert rows of one rule and device, as trigger_alert and resolve_alert update them. */
  class AlertTable {
    const rule: Rule
    var alerts: seq<Alert>

    constructor (rule: Rule)
      ensures this.rule == rule && alerts == []
    {
      this.rule := rule;
      alerts := [];
    }

    /** trigger_alert */
    method Trigger(now: real, createdAt: real) returns (created: bool)
      modifies this
      ensures alerts == Fired(rule, old(alerts), now, createdAt)
      ensures created <==> |alerts| == |old(alerts)| + 1
    {
      var limit := now - rule.cooldown;
      var recent := false;
      for i := 0 to |alerts|
        invariant alerts == old(alerts)
        invariant recent <==> Recent(alerts[..i], limit)
      {
        assert alerts[..i + 1] == alerts[..i] + [alerts[i]];
        recent := recent || (Unresolved(alerts[i]) && alerts[i].triggeredAt >= limit);
      }
      assert alerts[..|alerts|] == alerts;
      if recent {
        return false;
      }
      alerts := alerts + [Alert(Active, createdAt)];
      return true;
    }

    /** resolve_alert: only the rows that are not resolved yet are written. */
    method ResolveOpen()
      modifies this
      ensures alerts == ResolveAll(old(alerts))
    {
      for i := 0 to |alerts|
        invariant |alerts| == |old(alerts)|
        invariant forall k :: 0 <= k < i ==> alerts[k] == old(alerts)[k].(status := Resolved)
        invariant forall k :: i <= k < |alerts| ==> alerts[k] == old(alerts)[k]
      {
        if Unresolved(alerts[i]) {
          alerts := alerts[i := alerts[i].(status := Resolved)];
        }
      }
    }

    /** check_alerts_for_payload for this rule and device. */
    method Check(
      samples: seq<Sample>, value: real, windowNow: real, checkNow: real, gap: real, now: real, createdAt: real)
      modifies this
      ensures alerts == if Fires(rule, samples, value, windowNow, checkNow, gap)
                        then Fired(rule, old(alerts), now, createdAt) else ResolveAll(old(alerts))
    {
      var fires := EvaluateCondition(rule, samples, value, windowNow, checkNow, gap);
      if fires {
        var _ := Trigger(now, createdAt);
      } else {
        ResolveOpen();
      }
    }
  }
}
