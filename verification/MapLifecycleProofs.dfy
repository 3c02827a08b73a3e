/** Deployable means tested: over every sequence of edits, template resets, tests,
    confirmations, rollbacks, clones and connection changes. */
module MapLifecycleProofs {

  import opened Common
  import opened DatapointMaps
  import opened MapProofs
  import opened MapLifecycle
  import TextRules

  // ------------------------------------------------------ what a pass reports

  function Members<T>(s: seq<T>): set<T> {
    set x | x in s
  }

  /** A list has as many distinct members as entries exactly when no entry repeats. */
  lemma {:induction false} DistinctBySize<T>(s: seq<T>)
    ensures |Members(s)| <= |s|
    ensures |Members(s)| == |s| <==> forall i, j :: 0 <= i < j < |s| ==> s[i] != s[j]
  {
    if s != [] {
      var front := Front(s);
      DistinctBySize(front);
      if Last(s) in front {
        assert Members(s) == Members(front);
        var i :| 0 <= i < |front| && front[i] == Last(s);
        assert s[i] == s[|s| - 1];
      } else {
        assert Members(s) == Members(front) + {Last(s)};
        assert forall i :: 0 <= i < |front| ==> s[i] in front;
      }
    }
  }

  function KeysOf(signals: seq<Signal>): (ks: seq<Option<string>>)
    ensures |ks| == |signals| && forall i :: 0 <= i < |ks| ==> ks[i] == signals[i].key
  {
    seq(|signals|, i requires 0 <= i < |signals| => signals[i].key)
  }

  lemma KeysOfMembers(signals: seq<Signal>)
    ensures Members(KeysOf(signals)) == ReturnedKeys(signals)
  {
    var ks := KeysOf(signals);
    forall k | k in ReturnedKeys(signals) ensures k in Members(ks) {
      var i :| 0 <= i < |signals| && signals[i].key == k;
      assert ks[i] == k;
    }
  }

  /** Read successfully or with a warning, and nothing blocks it. */
  predicate Good(s: Signal) {
    s.status in {SignalSuccess, SignalWarning} && !s.blocking
  }

  lemma GoodIsUsable()
    ensures forall s :: Good(s) <==> Usable(s)
  {
  }

  predicate Reported(r: TestResult, p: Point) {
    exists s :: s in r.signals && s.key == Some(p.key) && Good(s)
  }

  predicate Known(points: seq<Point>, s: Signal) {
    Good(s) && exists p :: p in points && s.key == Some(p.key)
  }

  /** The test reported every signal of the map exactly once, as usable, and no other. */
  predicate ReportsExactly(r: TestResult, points: seq<Point>) {
    && (forall i, j :: 0 <= i < j < |r.signals| ==> r.signals[i].key != r.signals[j].key)
    && (forall p :: p in points ==> Reported(r, p))
    && (forall s :: s in r.signals ==> Known(points, s))
  }

  lemma PassKeysDiffer(r: TestResult, points: seq<Point>)
    requires Passing(r, points)
    ensures forall i, j :: 0 <= i < j < |r.signals| ==> r.signals[i].key != r.signals[j].key
  {
    hide Usable, MappedKeys;
    var ks := KeysOf(r.signals);
    KeysOfMembers(r.signals);
    DistinctBySize(ks);
    assert forall i, j :: 0 <= i < j < |ks| ==> ks[i] != ks[j];
  }

  /** A passing test reports every mapped key exactly once, as usable, and no other key. */
  lemma PassReportsEachKeyOnce(r: TestResult, points: seq<Point>)
    requires Passing(r, points)
    ensures ReportsExactly(r, points)
  {
    hide Usable, Good;
    GoodIsUsable();
    PassKeysDiffer(r, points);
    forall p | p in points ensures Reported(r, p) {
      assert Some(p.key) in MappedKeys(points);
    }
    forall s | s in r.signals ensures Known(points, s) {
      assert s.key in ReturnedKeys(r.signals);
    }
  }

  // --------------------------------------------------------- deployable is tested

  /** This step records a live test of the equipment that the Hub accepts. */
  predicate AcceptedTest(sums: Sums, fleet: Fleet, step: Step, id: DeviceId) {
    && step.RecordTest? && step.device == id && id in fleet && step.worker in fleet[id].readings
    && fleet[id].mapping.Some?
    && var read := fleet[id].readings[step.worker];
       Accepted(sums, read.mapping, SubjectRead(read, read.mapping.datapoints), step.result)
  }

  /** What the recorded test covered: the settings and signals as its request read them. */
  function Covered(fleet: Fleet, step: Step): Tested
    requires step.RecordTest? && step.device in fleet && step.worker in fleet[step.device].readings
  {
    var read := fleet[step.device].readings[step.worker];
    SubjectRead(read, read.mapping.datapoints)
  }

  /** What the last accepted live test of the equipment in the run covered. */
  function LastTested(sums: Sums, lex: Lexer, fleet: Fleet, steps: seq<Step>, id: DeviceId): Option<Tested> {
    if steps == [] then None
    else
      var before := Run(sums, lex, fleet, Front(steps));
      if AcceptedTest(sums, before, Last(steps), id) then Some(Covered(before, Last(steps)))
      else LastTested(sums, lex, fleet, Front(steps), id)
  }

  /** Checksums only ever name the last accepted test. */
  predicate Backed(sums: Sums, m: Mapping, tested: Option<Tested>) {
    && (m.testedChecksum != "" ==> tested.Some? && m.testedChecksum == sums.mappingSum(tested.value))
    && (m.confirmedChecksum != "" ==> m.confirmedChecksum == m.testedChecksum)
    && (m.status == Confirmed ==>
          m.revisions != [] && Last(m.revisions).datapoints == m.datapoints
          && Last(m.revisions).confirmedChecksum == m.confirmedChecksum)
    && forall i :: 0 <= i < |m.revisions| ==> m.revisions[i].number == i + 1
                                              && m.revisions[i].pointsChecksum == sums.pointsSum(m.revisions[i].datapoints)
  }

  ghost predicate AllBacked(sums: Sums, fleet: Fleet, id: DeviceId, tested: Option<Tested>) {
    id in fleet && fleet[id].mapping.Some? ==> Backed(sums, fleet[id].mapping.value, tested)
  }

  lemma EnsuredBacked(sums: Sums, lex: Lexer, d: Device, tested: Option<Tested>)
    requires d.mapping.Some? ==> Backed(sums, d.mapping.value, tested)
    ensures Ensured(lex, d).Some? ==> Backed(sums, Ensured(lex, d).value, tested)
  {
    hide FromRegisterMap;
  }

  lemma SavedBacked(sums: Sums, lex: Lexer, d: Device, team: TeamId, rows: seq<Row>, tested: Option<Tested>)
    requires d.mapping.Some? ==> Backed(sums, d.mapping.value, tested)
    ensures Saved(lex, d, team, rows).Some? ==> Backed(sums, Saved(lex, d, team, rows).value, tested)
  {
    hide Normalize, Ensured;
    EnsuredBacked(sums, lex, d, tested);
  }

  lemma RecordedBacked(sums: Sums, m: Mapping, read: Mapping, now: Tested, r: TestResult, tested: Option<Tested>)
    requires Backed(sums, m, tested)
    ensures Backed(sums, Recorded(sums, read, now, r).(revisions := m.revisions),
                   if Accepted(sums, read, now, r) then Some(now) else tested)
  {
    hide Passing;
  }

  lemma ConfirmationBacked(sums: Sums, m: Mapping, now: Tested, tested: Option<Tested>)
    requires Faithful(sums) && Backed(sums, m, tested)
    ensures Confirmation(sums, m, now).Some? ==> Backed(sums, Confirmation(sums, m, now).value, tested)
  {
  }

  lemma MappingAfterBacked(sums: Sums, lex: Lexer, fleet: Fleet, step: Step, tested: Option<Tested>)
    requires Faithful(sums) && step.device in fleet && AllBacked(sums, fleet, step.device, tested)
    ensures MappingAfter(sums, lex, fleet, step).Some? ==>
              Backed(sums, MappingAfter(sums, lex, fleet, step).value,
                     if AcceptedTest(sums, fleet, step, step.device) then Some(Covered(fleet, step)) else tested)
    ensures AcceptedTest(sums, fleet, step, step.device) ==> MappingAfter(sums, lex, fleet, step).Some?
  {
    hide Saved, Ensured, FromRegisterMap, Recorded, Accepted, Confirmation, Faithful, Backed, StoredRows;
    var d := fleet[step.device];
    EnsuredBacked(sums, lex, d, tested);
    match step
    case Save(_, team, rows) => SavedBacked(sums, lex, d, team, rows, tested);
    case RecordTest(_, w, r) =>
      if w in d.readings && d.mapping.Some? {
        RecordedBacked(sums, d.mapping.value, d.readings[w].mapping, Covered(fleet, step), r, tested);
      }
    case Confirm(_, team, w) =>
      if w in d.readings && d.mapping.Some? {
        ConfirmationBacked(sums, d.mapping.value, SubjectRead(d.readings[w], d.mapping.value.datapoints), tested);
      }
    case RollBack(_, team, k) =>
      if Ensured(lex, d).Some? && 1 <= k <= |Ensured(lex, d).value.revisions| {
        SavedBacked(sums, lex, d, team, StoredRows(Ensured(lex, d).value.revisions[k - 1].datapoints), tested);
      }
    case Clone(source, _, team) =>
      if source in fleet && Ensured(lex, fleet[source]).Some? {
        SavedBacked(sums, lex, d, team, StoredRows(Ensured(lex, fleet[source]).value.datapoints), tested);
      }
    case StartTest(_) => TestingBacked(sums, d, tested);
    case ResetForTemplate(_, _) => RedraftBacked(sums, lex, d, tested);
    case _ =>
  }

  lemma TestingBacked(sums: Sums, d: Device, tested: Option<Tested>)
    requires d.mapping.Some? ==> Backed(sums, d.mapping.value, tested)
    ensures d.mapping.Some? ==> Backed(sums, d.mapping.value.(status := Testing), tested)
  {
  }

  lemma RedraftBacked(sums: Sums, lex: Lexer, d: Device, tested: Option<Tested>)
    requires Ensured(lex, d).Some? ==> Backed(sums, Ensured(lex, d).value, tested)
    ensures Ensured(lex, d).Some? ==>
              forall points :: Backed(sums, Redrafted(Ensured(lex, d).value, points), tested)
  {
    hide Ensured;
  }

  lemma StepBacked(sums: Sums, lex: Lexer, fleet: Fleet, step: Step, id: DeviceId, tested: Option<Tested>)
    requires Faithful(sums) && AllBacked(sums, fleet, id, tested)
    ensures AllBacked(sums, Do(sums, lex, fleet, step), id,
                      if AcceptedTest(sums, fleet, step, id) then Some(Covered(fleet, step)) else tested)
  {
    hide MappingAfter, Ensured, Accepted, Faithful, Backed, Covered;
    if step.device == id && id in fleet {
      EnsuredBacked(sums, lex, fleet[id], tested);
      MappingAfterBacked(sums, lex, fleet, step, tested);
    }
  }

  lemma {:induction false} RunBacked(sums: Sums, lex: Lexer, fleet: Fleet, steps: seq<Step>, id: DeviceId)
    requires Faithful(sums) && AllBacked(sums, fleet, id, None)
    ensures AllBacked(sums, Run(sums, lex, fleet, steps), id, LastTested(sums, lex, fleet, steps, id))
  {
    hide Do, Backed, AcceptedTest, Faithful;
    if steps != [] {
      RunBacked(sums, lex, fleet, Front(steps), id);
      StepBacked(sums, lex, Run(sums, lex, fleet, Front(steps)), Last(steps), id,
                 LastTested(sums, lex, fleet, Front(steps), id));
    }
  }

  /** Test k of the run was accepted, and none after it. */
  ghost predicate LastAccepted(sums: Sums, lex: Lexer, fleet: Fleet, steps: seq<Step>, id: DeviceId, k: nat) {
    && k < |steps| && AcceptedTest(sums, Run(sums, lex, fleet, steps[..k]), steps[k], id)
    && forall j :: k < j < |steps| ==> !AcceptedTest(sums, Run(sums, lex, fleet, steps[..j]), steps[j], id)
  }

  lemma {:induction false} LastTestedAt(sums: Sums, lex: Lexer, fleet: Fleet, steps: seq<Step>, id: DeviceId)
    returns (k: nat)
    requires LastTested(sums, lex, fleet, steps, id).Some?
    ensures LastAccepted(sums, lex, fleet, steps, id, k)
    ensures LastTested(sums, lex, fleet, steps, id) == Some(Covered(Run(sums, lex, fleet, steps[..k]), steps[k]))
  {
    hide AcceptedTest, Run, Covered;
    var front := Front(steps);
    assert steps[..|front|] == front;
    if AcceptedTest(sums, Run(sums, lex, fleet, front), Last(steps), id) {
      k := |front|;
    } else {
      k := LastTestedAt(sums, lex, fleet, front, id);
      assert front[..k] == steps[..k];
      forall j | k < j < |steps| ensures !AcceptedTest(sums, Run(sums, lex, fleet, steps[..j]), steps[j], id) {
        if j < |front| {
          assert front[..j] == steps[..j];
        }
      }
    }
  }

  lemma RegisterMapEmpty(ps: seq<Point>)
    ensures ToRegisterMap(ps) == [] <==> ps == []
  {
    hide Register;
  }

  /** What is deployed for site-defined equipment is empty unless its map is confirmed, holds
      signals, and was confirmed under the current protocol, connection and signals. */
  lemma DeployableExactly(sums: Sums, d: Device)
    requires d.siteDefined
    ensures Effective(sums, d) != [] <==>
            && d.mapping.Some? && d.mapping.value.status == Confirmed && d.mapping.value.datapoints != []
            && d.mapping.value.confirmedChecksum != ""
            && d.mapping.value.confirmedChecksum
               == sums.mappingSum(Tested(d.protocol, d.connection, d.mapping.value.datapoints))
  {
    hide ToRegisterMap;
    if d.mapping.Some? {
      RegisterMapEmpty(d.mapping.value.datapoints);
    }
  }

  /** Equipment with a fixed template is deployed with the template's registers. */
  lemma FixedTemplateDeploys(sums: Sums, d: Device)
    requires !d.siteDefined
    ensures Effective(sums, d) == d.template
  {
  }

  /** What is deployed reads back as the signals of the map, all of them and in order, with their
      texts cleaned. */
  lemma DeployedReadsBack(sums: Sums, lex: Lexer, d: Device)
    requires d.siteDefined && Effective(sums, d) != [] && NormalList(d.mapping.value.datapoints)
    requires CodesReadBack(lex, d.mapping.value.datapoints)
    ensures FromRegisterMap(lex, Effective(sums, d)) == Ok(RetextAll(d.mapping.value.datapoints))
    ensures AllCanonical(d.mapping.value.datapoints) ==>
              FromRegisterMap(lex, Effective(sums, d)) == Ok(d.mapping.value.datapoints)
  {
    hide NormalList, CodesReadBack, FromRegisterMap, ToRegisterMap, AllCanonical;
    RegisterMapRoundTrip(lex, d.mapping.value.datapoints);
    RegisterMapRoundTripExactly(lex, d.mapping.value.datapoints);
  }

  /** Deployable means tested: whenever site-defined equipment has a non-empty confirmed
      register map, its protocol, connection and signals are exactly those of its last
      accepted live test, that test reported every one of these signals exactly once with none
      blocking, and what is deployed reads back as exactly these signals. */
  lemma DeployableMeansTested(sums: Sums, lex: Lexer, fleet: Fleet, steps: seq<Step>, id: DeviceId) returns (k: nat)
    requires Faithful(sums)
    requires id in fleet ==> fleet[id].mapping.None?
    requires var now := Run(sums, lex, fleet, steps);
             id in now && now[id].siteDefined && Effective(sums, now[id]) != []
    ensures var now := Run(sums, lex, fleet, steps);
            && now[id].mapping.Some? && LastAccepted(sums, lex, fleet, steps, id, k)
            && Covered(Run(sums, lex, fleet, steps[..k]), steps[k]) == Subject(now[id], now[id].mapping.value.datapoints)
            && steps[k].result.succeeded && ReportsExactly(steps[k].result, now[id].mapping.value.datapoints)
    ensures var now := Run(sums, lex, fleet, steps);
            var covered := Covered(Run(sums, lex, fleet, steps[..k]), steps[k]).datapoints;
            (id in fleet ==> fleet[id].readings == map[]) && CodesReadBack(lex, covered) ==>
              FromRegisterMap(lex, Effective(sums, now[id])) == Ok(RetextAll(covered))
  {
    hide Run, Effective, LastTested, Passing, ReportsExactly, NormalList, CodesReadBack, FromRegisterMap;
    var now := Run(sums, lex, fleet, steps);
    DeployableExactly(sums, now[id]);
    RunBacked(sums, lex, fleet, steps, id);
    k := LastTestedAt(sums, lex, fleet, steps, id);
    PassReportsEachKeyOnce(steps[k].result, now[id].mapping.value.datapoints);
    if (id in fleet ==> fleet[id].readings == map[]) && CodesReadBack(lex, now[id].mapping.value.datapoints) {
      DeviceRunHoldsNormal(sums, lex, fleet, steps, id);
      DeployedReadsBack(sums, lex, now[id]);
    }
  }

  /** A confirmed map always has its own points as the latest revision: numbered 1..n, and the
      one a team map or template submission is taken from. */
  lemma ConfirmedHasRevision(sums: Sums, lex: Lexer, fleet: Fleet, steps: seq<Step>, id: DeviceId)
    requires Faithful(sums)
    requires id in fleet ==> fleet[id].mapping.None?
    ensures var now := Run(sums, lex, fleet, steps);
            id in now && now[id].mapping.Some? ==>
              var m := now[id].mapping.value;
              && (forall i :: 0 <= i < |m.revisions| ==> m.revisions[i].number == i + 1)
              && (m.status == Confirmed ==>
                    m.revisions != [] && Last(m.revisions).datapoints == m.datapoints
                    && Last(m.revisions).confirmedChecksum == m.confirmedChecksum)
  {
    hide Run, LastTested;
    RunBacked(sums, lex, fleet, steps, id);
  }

  // --------------------------------------------------------------- lost edits

  predicate Edits(step: Step) {
    step.Save? || step.ResetForTemplate? || step.RollBack? || step.Clone?
  }

  /** The record saves the whole row from a reading older than the last edit. */
  predicate LateRecord(fleet: Fleet, step: Step, id: DeviceId)
    requires id in fleet && fleet[id].mapping.Some?
  {
    && step.RecordTest? && step.device == id && step.worker in fleet[id].readings
    && fleet[id].readings[step.worker].mapping.datapoints != fleet[id].mapping.value.datapoints
  }

  /** Apart from edits, exactly such a record changes the signals of a map. */
  lemma SignalsKeptExactly(sums: Sums, lex: Lexer, fleet: Fleet, step: Step, id: DeviceId)
    requires id in fleet && fleet[id].mapping.Some? && !(Edits(step) && step.device == id)
    ensures var after := Do(sums, lex, fleet, step);
            && id in after && after[id].mapping.Some?
            && (after[id].mapping.value.datapoints == fleet[id].mapping.value.datapoints <==> !LateRecord(fleet, step, id))
  {
    hide Saved, FromRegisterMap, Accepted;
  }

  lemma StepKeepsReading(sums: Sums, lex: Lexer, fleet: Fleet, step: Step, id: DeviceId, w: nat)
    requires id in fleet && w in fleet[id].readings && fleet[id].mapping.Some? && step != ReadDevice(id, w)
    ensures var after := Do(sums, lex, fleet, step);
            && id in after && after[id].mapping.Some?
            && w in after[id].readings && after[id].readings[w] == fleet[id].readings[w]
  {
    hide Saved, FromRegisterMap, Recorded, Confirmation;
  }

  lemma {:induction false} RunKeepsReading(
    sums: Sums, lex: Lexer, fleet: Fleet, steps: seq<Step>, id: DeviceId, w: nat)
    requires id in fleet && w in fleet[id].readings && fleet[id].mapping.Some? && ReadDevice(id, w) !in steps
    ensures var after := Run(sums, lex, fleet, steps);
            && id in after && after[id].mapping.Some?
            && w in after[id].readings && after[id].readings[w] == fleet[id].readings[w]
  {
    hide Do;
    if steps != [] {
      RunKeepsReading(sums, lex, fleet, Front(steps), id, w);
      StepKeepsReading(sums, lex, Run(sums, lex, fleet, Front(steps)), Last(steps), id, w);
    }
  }

  /** Whatever was saved, rolled back or confirmed since the recording of a test read the map, its
      save puts the signals back to the ones it read. */
  lemma LateRecordLosesEdits(
    sums: Sums, lex: Lexer, fleet: Fleet, id: DeviceId, w: nat, between: seq<Step>, r: TestResult)
    requires id in fleet && fleet[id].siteDefined && fleet[id].mapping.Some? && ReadDevice(id, w) !in between
    ensures var edited := Run(sums, lex, Do(sums, lex, fleet, ReadDevice(id, w)), between);
            var late := Do(sums, lex, edited, RecordTest(id, w, r));
            && id in late && late[id].mapping.Some?
            && late[id].mapping.value.datapoints == fleet[id].mapping.value.datapoints
  {
    hide Run, FromRegisterMap, Accepted;
    RunKeepsReading(sums, lex, Do(sums, lex, fleet, ReadDevice(id, w)), between, id, w);
  }

  // ------------------------------------------------------------------- rollback

  lemma StoredKey(p: Point)
    ensures RegisterRowKey(Stored(p), p)
  {
    hide TypeName, DisplayName, DirectionName, AccessName, Bound, CodeValues, TextRules.Titled, Truthy, Or;
  }

  lemma StoredWire(p: Point)
    ensures RegisterRowWire(Stored(p), p)
  {
    hide TypeName, DisplayName, DirectionName, AccessName, Bound, CodeValues, TextRules.Titled, Truthy, Or;
  }

  lemma StoredRest(p: Point)
    ensures RegisterRowRest(Stored(p), p)
  {
    hide TypeName, DisplayName, DirectionName, AccessName, Bound, CodeValues;
  }

  lemma {:induction false} StoredRowsRead(lex: Lexer, ps: seq<Point>)
    requires (forall p :: p in ps ==> NormalPoint(p)) && CodesReadBack(lex, ps)
    ensures AllRead(lex, StoredRows(ps), RetextAll(ps))
  {
    hide NormalPoint, ReadsBackCode, Reads, Stored, Retext, RegisterRowKey, RegisterRowWire, RegisterRowRest;
    if ps != [] {
      assert ps[0] in ps;
      StoredKey(ps[0]);
      StoredWire(ps[0]);
      StoredRest(ps[0]);
      RegisterRowMeans(lex, Stored(ps[0]), ps[0]);
      StoredRowsRead(lex, ps[1..]);
    }
  }

  /** Normalising is idempotent up to one cleaning of the texts. */
  lemma NormalizeAgain(lex: Lexer, ps: seq<Point>)
    requires NormalList(ps) && CodesReadBack(lex, ps)
    ensures Normalize(lex, StoredRows(ps)) == Ok(RetextAll(ps))
    ensures Normalize(lex, StoredRows(ps)) == Ok(ps) <==> AllCanonical(ps)
  {
    hide NormalPoint, ReadsBackCode, StoredRows, Canonical, NormalizeRows, Reads;
    StoredRowsRead(lex, ps);
    DistinctAfterRetext(ps);
    NormalizeRowsExactly(lex, StoredRows(ps), {}, RetextAll(ps));
    RetextAllExactly(ps);
  }

  /** The signals a map holds are none at all or a normalised list, and every revision holds a
      normalised list. */
  predicate HoldsNormal(m: Mapping) {
    && (m.datapoints == [] || NormalList(m.datapoints))
    && (m.testedChecksum != "" ==> m.datapoints != [])
    && forall i :: 0 <= i < |m.revisions| ==> NormalList(m.revisions[i].datapoints)
  }

  predicate DeviceHoldsNormal(d: Device) {
    && (d.mapping.Some? ==> HoldsNormal(d.mapping.value))
    && forall w :: w in d.readings ==> HoldsNormal(d.readings[w].mapping)
  }

  predicate FleetHoldsNormal(fleet: Fleet) {
    forall id :: id in fleet ==> DeviceHoldsNormal(fleet[id])
  }

  lemma RegisterMapHoldsNormal(lex: Lexer, t: RegisterMap)
    ensures FromRegisterMap(lex, t).Ok? ==>
              FromRegisterMap(lex, t).value == [] || NormalList(FromRegisterMap(lex, t).value)
  {
    hide Normalize, RawsOfMap, NormalList;
    NormalizedIsNormal(lex, RawsOfMap(t));
  }

  lemma EnsuredHoldsNormal(lex: Lexer, d: Device)
    requires d.mapping.Some? ==> HoldsNormal(d.mapping.value)
    ensures Ensured(lex, d).Some? ==> HoldsNormal(Ensured(lex, d).value)
  {
    hide FromRegisterMap, NormalList;
    RegisterMapHoldsNormal(lex, d.template);
  }

  lemma SavedHoldsNormal(lex: Lexer, d: Device, team: TeamId, rows: seq<Row>)
    requires d.mapping.Some? ==> HoldsNormal(d.mapping.value)
    ensures Saved(lex, d, team, rows).Some? ==> HoldsNormal(Saved(lex, d, team, rows).value)
  {
    hide Normalize, NormalList, Ensured;
    EnsuredHoldsNormal(lex, d);
    NormalizedIsNormal(lex, rows);
  }

  /** A transaction keeps a map normal by itself: a clone is normalised anew. */
  lemma DeviceStepHoldsNormal(sums: Sums, lex: Lexer, fleet: Fleet, step: Step, id: DeviceId)
    requires id in fleet ==> DeviceHoldsNormal(fleet[id])
    ensures id in Do(sums, lex, fleet, step) ==> DeviceHoldsNormal(Do(sums, lex, fleet, step)[id])
  {
    hide Saved, Ensured, FromRegisterMap, NormalList, Normalize, StoredRows;
    if step.device == id && id in fleet {
      var d := fleet[id];
      EnsuredHoldsNormal(lex, d);
      RegisterMapHoldsNormal(lex, d.template);
      match step
      case Save(_, team, rows) => SavedHoldsNormal(lex, d, team, rows);
      case RollBack(_, team, k) =>
        if Ensured(lex, d).Some? && 1 <= k <= |Ensured(lex, d).value.revisions| {
          SavedHoldsNormal(lex, d, team, StoredRows(Ensured(lex, d).value.revisions[k - 1].datapoints));
        }
      case Clone(source, _, team) =>
        if source in fleet && Ensured(lex, fleet[source]).Some? {
          SavedHoldsNormal(lex, d, team, StoredRows(Ensured(lex, fleet[source]).value.datapoints));
        }
      case _ =>
    }
  }

  lemma {:induction false} DeviceRunHoldsNormal(sums: Sums, lex: Lexer, fleet: Fleet, steps: seq<Step>, id: DeviceId)
    requires id in fleet ==> DeviceHoldsNormal(fleet[id])
    ensures id in Run(sums, lex, fleet, steps) ==> DeviceHoldsNormal(Run(sums, lex, fleet, steps)[id])
  {
    hide Do, DeviceHoldsNormal;
    if steps != [] {
      DeviceRunHoldsNormal(sums, lex, fleet, Front(steps), id);
      DeviceStepHoldsNormal(sums, lex, Run(sums, lex, fleet, Front(steps)), Last(steps), id);
    }
  }

  lemma RunHoldsNormal(sums: Sums, lex: Lexer, fleet: Fleet, steps: seq<Step>)
    requires FleetHoldsNormal(fleet)
    ensures FleetHoldsNormal(Run(sums, lex, fleet, steps))
  {
    hide Run, DeviceHoldsNormal;
    forall id | id in Run(sums, lex, fleet, steps) ensures DeviceHoldsNormal(Run(sums, lex, fleet, steps)[id]) {
      DeviceRunHoldsNormal(sums, lex, fleet, steps, id);
    }
  }

  /** Rolling back, after any run, restores the points of the chosen revision with their texts
      cleaned, as a draft that cannot be deployed before it is tested and confirmed again. */
  lemma RollbackRestores(sums: Sums, lex: Lexer, fleet: Fleet, steps: seq<Step>, id: DeviceId, k: nat)
    requires FleetHoldsNormal(fleet)
    requires var now := Run(sums, lex, fleet, steps);
             && id in now && now[id].siteDefined && now[id].mapping.Some?
             && 1 <= k <= |now[id].mapping.value.revisions|
             && CodesReadBack(lex, now[id].mapping.value.revisions[k - 1].datapoints)
    ensures var now := Run(sums, lex, fleet, steps);
            var after := Do(sums, lex, now, RollBack(id, now[id].team, k));
            var points := now[id].mapping.value.revisions[k - 1].datapoints;
            && after[id].mapping == Some(Redrafted(now[id].mapping.value, RetextAll(points)))
            && (AllCanonical(points) ==> RetextAll(points) == points)
            && Effective(sums, after[id]) == []
  {
    hide Run, Normalize, StoredRows, NormalPoint, ReadsBackCode, Canonical, Retext;
    RunHoldsNormal(sums, lex, fleet, steps);
    var points := Run(sums, lex, fleet, steps)[id].mapping.value.revisions[k - 1].datapoints;
    NormalizeAgain(lex, points);
    RetextAllExactly(points);
  }

  // ------------------------------------------------ from a passing test to deployment

  lemma {:induction false} DistinctKeysSize(ps: seq<Point>)
    requires forall i, j :: 0 <= i < j < |ps| ==> ps[i].key != ps[j].key
    ensures |MappedKeys(ps)| == |ps|
  {
    if ps != [] {
      var front := Front(ps);
      DistinctKeysSize(front);
      assert MappedKeys(ps) == MappedKeys(front) + {Some(Last(ps).key)};
      assert Some(Last(ps).key) !in MappedKeys(front);
    }
  }

  /** For signals with distinct keys, a test passes if and only if it reports every one of them
      exactly once, as usable, and no other. */
  lemma PassesExactly(r: TestResult, points: seq<Point>)
    requires points != [] && forall i, j :: 0 <= i < j < |points| ==> points[i].key != points[j].key
    ensures Passing(r, points) <==> ReportsExactly(r, points)
  {
    hide Usable, Good;
    GoodIsUsable();
    if Passing(r, points) {
      PassReportsEachKeyOnce(r, points);
    }
    if ReportsExactly(r, points) {
      var ks := KeysOf(r.signals);
      KeysOfMembers(r.signals);
      DistinctBySize(ks);
      assert |ReturnedKeys(r.signals)| == |r.signals|;
      ReportedKeys(r, points);
      DistinctKeysSize(points);
      assert Reported(r, points[0]);
    }
  }

  lemma ReportedKeys(r: TestResult, points: seq<Point>)
    requires ReportsExactly(r, points)
    ensures ReturnedKeys(r.signals) == MappedKeys(points)
    ensures forall s :: s in r.signals ==> Usable(s)
  {
    hide Usable, Good;
    GoodIsUsable();
    forall s | s in r.signals ensures s.key in MappedKeys(points) && Usable(s) {
      assert Known(points, s);
    }
    forall p | p in points ensures Some(p.key) in ReturnedKeys(r.signals) {
      assert Reported(r, p);
    }
  }

  /** A recorded test leads to awaiting confirmation if and only if it succeeded, was sent for exactly
      the settings and signals its recording read, and reported each signal once as usable. */
  lemma RecordedExactly(sums: Sums, lex: Lexer, fleet: Fleet, id: DeviceId, w: nat, r: TestResult)
    requires id in fleet && fleet[id].mapping.Some? && w in fleet[id].readings
    requires NormalList(fleet[id].readings[w].mapping.datapoints)
    ensures
      var read := fleet[id].readings[w];
      var points := read.mapping.datapoints;
      var after := Do(sums, lex, fleet, RecordTest(id, w, r));
      && id in after && after[id].mapping.Some?
      && var m := after[id].mapping.value;
         var counts := r.succeeded && ReportsExactly(r, points)
                       && r.checksum == sums.mappingSum(Tested(read.protocol, read.connection, points));
         && m.status == (if counts then AwaitingConfirmation else NeedsAttention)
         && m.testedChecksum == (if counts then r.checksum else "") && m.confirmedChecksum == ""
         && m.datapoints == points && m.lastValidation == Some(r) && m.revisions == fleet[id].mapping.value.revisions
  {
    hide Passing, ReportsExactly;
    var points := fleet[id].readings[w].mapping.datapoints;
    NormalKeysDiffer(points);
    PassesExactly(r, points);
  }

  lemma NormalKeysDiffer(ps: seq<Point>)
    requires NormalList(ps)
    ensures ps != [] && forall i, j :: 0 <= i < j < |ps| ==> ps[i].key != ps[j].key
  {
    hide NormalPoint;
  }

  /** A confirmation is accepted if and only if the team owns the equipment and the map either awaits it
      with a test of exactly the current settings, or is confirmed for exactly these already. */
  lemma ConfirmedExactly(sums: Sums, lex: Lexer, fleet: Fleet, id: DeviceId, team: TeamId, w: nat)
    requires id in fleet && fleet[id].mapping.Some? && w in fleet[id].readings
    ensures
      var m := fleet[id].mapping.value;
      var read := fleet[id].readings[w];
      var sum := sums.mappingSum(Tested(read.protocol, read.connection, m.datapoints));
      var after := Do(sums, lex, fleet, Confirm(id, team, w));
      var again := fleet[id].team == team && m.status == Confirmed && m.confirmedChecksum == sum;
      var first := fleet[id].team == team && m.status == AwaitingConfirmation && m.testedChecksum != ""
                   && m.testedChecksum == sum;
      && id in after && after[id].mapping.Some?
      && (Confirmation(sums, m, Tested(read.protocol, read.connection, m.datapoints)).Some? && fleet[id].team == team
          <==> again || first)
      && (!again && !first ==> after == fleet) && (again ==> after[id] == fleet[id])
      && (first ==> after[id].mapping.value.status == Confirmed && after[id].mapping.value.confirmedChecksum == sum
                    && after[id].mapping.value.datapoints == m.datapoints
                    && after[id].mapping.value.testedChecksum == m.testedChecksum
                    && after[id].mapping.value.revisions != [])
  {
  }

  /** So a test that counts, confirmed by the team with nothing changed in between, makes the map
      deployable. */
  lemma TestedAndConfirmedDeploys(sums: Sums, lex: Lexer, fleet: Fleet, id: DeviceId, w: nat, r: TestResult)
    requires Faithful(sums) && id in fleet && fleet[id].siteDefined && fleet[id].mapping.Some?
    requires NormalList(fleet[id].mapping.value.datapoints)
    requires r.succeeded && ReportsExactly(r, fleet[id].mapping.value.datapoints)
    requires r.checksum == sums.mappingSum(Subject(fleet[id], fleet[id].mapping.value.datapoints))
    ensures
      var read := Do(sums, lex, fleet, ReadDevice(id, w));
      var recorded := Do(sums, lex, read, RecordTest(id, w, r));
      var confirmed := Do(sums, lex, recorded, Confirm(id, fleet[id].team, w));
      && id in confirmed && Effective(sums, confirmed[id]) != []
      && confirmed[id].mapping.value.datapoints == fleet[id].mapping.value.datapoints
  {
    hide NormalList, ReportsExactly, ToRegisterMap, Faithful, Effective, Recorded, Confirmation;
    var read := Do(sums, lex, fleet, ReadDevice(id, w));
    RecordedExactly(sums, lex, read, id, w, r);
    var recorded := Do(sums, lex, read, RecordTest(id, w, r));
    ConfirmedExactly(sums, lex, recorded, id, fleet[id].team, w);
    var confirmed := Do(sums, lex, recorded, Confirm(id, fleet[id].team, w));
    NormalKeysDiffer(fleet[id].mapping.value.datapoints);
    SumNotBlank(sums, Subject(fleet[id], fleet[id].mapping.value.datapoints));
    DeployableExactly(sums, confirmed[id]);
  }

  lemma SumNotBlank(sums: Sums, a: Tested)
    requires Faithful(sums)
    ensures sums.mappingSum(a) != ""
  {
  }

  // -------------------------------------------------------------- edits and teams

  predicate ByTeam(step: Step) {
    step.Save? || step.ResetForTemplate? || step.Confirm? || step.RollBack? || step.Clone?
  }

  /** No team changes another team's equipment, or clones from it. */
  lemma OtherTeamsChangeNothing(sums: Sums, lex: Lexer, fleet: Fleet, step: Step)
    requires ByTeam(step) && step.device in fleet
    requires fleet[step.device].team != step.team
             || (step.Clone? && step.source in fleet && fleet[step.source].team != step.team)
    ensures Do(sums, lex, fleet, step) == fleet
  {
    hide Normalize, FromRegisterMap, Confirmation, StoredRows;
  }

  /** Saving stores the normalised list as a draft that is not deployable, or changes nothing. */
  lemma SavedExactly(sums: Sums, lex: Lexer, fleet: Fleet, id: DeviceId, team: TeamId, rows: seq<Row>)
    requires id in fleet && fleet[id].siteDefined && fleet[id].mapping.Some?
    ensures
      var after := Do(sums, lex, fleet, Save(id, team, rows));
      if fleet[id].team != team || Normalize(lex, rows).Err? then after == fleet
      else
        && id in after && after[id].mapping.Some? && Effective(sums, after[id]) == []
        && var m := after[id].mapping.value;
           && m.datapoints == Normalize(lex, rows).value && NormalList(m.datapoints) && m.status == Draft
           && m.testedChecksum == "" && m.confirmedChecksum == "" && m.lastValidation.None?
           && m.revisions == fleet[id].mapping.value.revisions
  {
    hide Normalize, NormalList, ToRegisterMap;
    NormalizedIsNormal(lex, rows);
  }

  /** A clone takes the confirmed signals of a team's other equipment with the same protocol, with
      their texts cleaned, as a draft. */
  lemma ClonedExactly(sums: Sums, lex: Lexer, fleet: Fleet, source: DeviceId, id: DeviceId)
    requires source in fleet && id in fleet && fleet[source].team == fleet[id].team
    requires fleet[source].siteDefined && fleet[source].mapping.Some? && fleet[id].siteDefined && fleet[id].mapping.Some?
    requires NormalList(fleet[source].mapping.value.datapoints)
    requires CodesReadBack(lex, fleet[source].mapping.value.datapoints)
    ensures
      var from := fleet[source].mapping.value;
      var after := Do(sums, lex, fleet, Clone(source, id, fleet[id].team));
      if fleet[source].protocol != fleet[id].protocol || from.status != Confirmed then after == fleet
      else id in after && after[id].mapping == Some(Redrafted(fleet[id].mapping.value, RetextAll(from.datapoints)))
  {
    hide Normalize, NormalList, StoredRows, CodesReadBack, FromRegisterMap;
    NormalizeAgain(lex, fleet[source].mapping.value.datapoints);
  }

  /** Starting a live test marks a map that holds signals as being tested, which is not deployable. */
  lemma StartedExactly(sums: Sums, lex: Lexer, fleet: Fleet, id: DeviceId)
    requires id in fleet
    ensures
      var d := fleet[id];
      var after := Do(sums, lex, fleet, StartTest(id));
      if d.siteDefined && d.mapping.Some? && d.mapping.value.datapoints != [] then
        id in after && after[id] == d.(mapping := Some(d.mapping.value.(status := Testing))) && Effective(sums, after[id]) == []
      else after == fleet
  {
    hide ToRegisterMap;
  }

  /** Choosing another template resets the map to the template's signals as a draft. */
  lemma ResetExactly(sums: Sums, lex: Lexer, fleet: Fleet, id: DeviceId)
    requires id in fleet && fleet[id].siteDefined && fleet[id].mapping.Some?
    ensures
      var after := Do(sums, lex, fleet, ResetForTemplate(id, fleet[id].team));
      match FromRegisterMap(lex, fleet[id].template)
      case Err(_) => after == fleet
      case Ok(points) =>
        && id in after && after[id].mapping.Some? && Effective(sums, after[id]) == []
        && after[id].mapping.value.datapoints == points && after[id].mapping.value.status == Draft
        && after[id].mapping.value.revisions == fleet[id].mapping.value.revisions
  {
    hide FromRegisterMap, ToRegisterMap;
  }
}
