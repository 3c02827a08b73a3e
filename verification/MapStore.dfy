/** The datapoint map row as the source updates it, field by field; each method is proved
    against MapLifecycle. */
module MapStore {

  import opened Common
  import opened DatapointMaps
  import opened MapLifecycle
  import Proofs = MapLifecycleProofs

  class MappingRow {
    const sums: Sums
    var datapoints: seq<Point>
    var status: MapStatus
    var lastValidation: Option<TestResult>
    var testedChecksum: Checksum
    var confirmedChecksum: Checksum
    var revisions: seq<Revision>

    ghost function Value(): Mapping
      reads this
    {
      Mapping(datapoints, status, lastValidation, testedChecksum, confirmedChecksum, revisions)
    }

    constructor (sums: Sums, starter: seq<Point>)
      ensures this.sums == sums && Value() == EMPTY.(datapoints := starter)
    {
      this.sums := sums;
      datapoints, status, lastValidation := starter, Draft, None;
      testedChecksum, confirmedChecksum, revisions := "", "", [];
    }

    /** The reset save and reset_for_template share. */
    method Redraft(points: seq<Point>)
      modifies this
      ensures Value() == Redrafted(old(Value()), points)
    {
      datapoints := points;
      status := Draft;
      lastValidation := None;
      testedChecksum := "";
      confirmedChecksum := "";
    }

    /** save_device_datapoint_map on an existing row. */
    method Save(lex: Lexer, rows: seq<Row>) returns (saved: bool)
      modifies this
      ensures saved == Normalize(lex, rows).Ok?
      ensures Value() == if saved then Redrafted(old(Value()), Normalize(lex, rows).value) else old(Value())
    {
      hide Normalize;
      var normalized := Normalize(lex, rows);
      if normalized.Err? {
        return false;
      }
      Redraft(normalized.value);
      return true;
    }

    /** The computation of "successful", signal by signal. */
    method Successful(signals: seq<Signal>) returns (ok: bool)
      ensures forall r: TestResult :: r.signals == signals ==> ok == Passing(r, datapoints)
    {
      var keys: seq<Option<string>> := [];
      var usable := true;
      for i := 0 to |signals|
        invariant keys == Proofs.KeysOf(signals[..i])
        invariant usable <==> forall k :: 0 <= k < i ==> Usable(signals[k])
      {
        keys := keys + [signals[i].key];
        usable := usable && Usable(signals[i]);
      }
      assert signals[..|signals|] == signals;
      Proofs.KeysOfMembers(signals);
      ok := signals != [] && |signals| == |datapoints| && |keys| == |Proofs.Members(keys)|
            && Proofs.Members(keys) == MappedKeys(datapoints) && usable;
    }

    /** record_device_datapoint_validation */
    method RecordValidation(now: Tested, result: TestResult)
      modifies this
      ensures Value() == Recorded(sums, old(Value()), now, result)
    {
      lastValidation := Some(result);
      var successful := Successful(result.signals);
      var currentChecksum := sums.mappingSum(now);
      if result.succeeded && successful && result.checksum == currentChecksum {
        status := AwaitingConfirmation;
        testedChecksum := result.checksum;
      } else {
        status := NeedsAttention;
        testedChecksum := "";
      }
      confirmedChecksum := "";
    }

    method AddRevision()
      modifies this`revisions
      ensures Value() == WithRevision(sums, old(Value()))
    {
      var points := sums.pointsSum(datapoints);
      if revisions == [] || Last(revisions).pointsChecksum != points
         || Last(revisions).confirmedChecksum != confirmedChecksum {
        var number := if revisions == [] then 1 else Last(revisions).number + 1;
        revisions := revisions + [Revision(number, datapoints, points, confirmedChecksum)];
      }
    }

    /** confirm_device_datapoint_map */
    method ConfirmMap(now: Tested) returns (confirmed: bool)
      modifies this
      ensures confirmed == Confirmation(sums, old(Value()), now).Some?
      ensures Value() == if confirmed then Confirmation(sums, old(Value()), now).value else old(Value())
    {
      var currentChecksum := sums.mappingSum(now);
      if status == Confirmed && confirmedChecksum == currentChecksum {
        return true;
      }
      if status != AwaitingConfirmation {
        return false;
      }
      if testedChecksum == "" || testedChecksum != currentChecksum {
        return false;
      }
      status := Confirmed;
      confirmedChecksum := currentChecksum;
      AddRevision();
      return true;
    }
  }
}
