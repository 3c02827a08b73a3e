/** The CSV import of datapoint maps, row by row, against normalising all rows at once. */
module CsvImport {

  import opened Common
  import opened TextRules
  import opened DatapointMaps
  import opened MapProofs

  /** One CSV row normalised by itself. */
  function RowPoint(lex: Lexer, row: CsvRow): Result<Point, Fault> {
    var rows := [Dictionary(RawOfCsv(row))];
    match Normalize(lex, rows)
    case Err(e) => Err(e)
    case Ok(ps) => NormalizeRowsExactly(lex, rows, {}, ps); Ok(ps[0])
  }

  lemma RowPointReads(lex: Lexer, row: CsvRow, p: Point)
    ensures RowPoint(lex, row) == Ok(p) <==> Reads(lex, Dictionary(RawOfCsv(row)), p)
  {
    hide PointOf, KeyOf, ValidKey, RawOfCsv;
    var rows := [Dictionary(RawOfCsv(row))];
    NormalizeRowsExactly(lex, rows, {}, [p]);
    if RowPoint(lex, row).Ok? {
      NormalizeRowsExactly(lex, rows, {}, Normalize(lex, rows).value);
    }
  }

  /** A fault with its row number in the file, whose header is row 1; 0 is the whole file. */
  datatype Reported = Reported(row: nat, fault: Fault)

  datatype Imported = Imported(points: seq<Point>, faults: seq<Reported>)

  function Keys(ps: seq<Point>): set<string> {
    set p | p in ps :: p.key
  }

  function ImportRow(lex: Lexer, soFar: Imported, number: nat, row: CsvRow): Imported {
    if BlankRow(row) then soFar
    else match RowPoint(lex, row)
      case Err(e) => soFar.(faults := soFar.faults + [Reported(number, e)])
      case Ok(p) =>
        if p.key in Keys(soFar.points) then soFar.(faults := soFar.faults + [Reported(number, DuplicateKey(p.key))])
        else soFar.(points := soFar.points + [p])
  }

  function ImportRows(lex: Lexer, rows: seq<CsvRow>): Imported {
    if rows == [] then Imported([], [])
    else ImportRow(lex, ImportRows(lex, Front(rows)), |rows| + 1, Last(rows))
  }

  function Finished(i: Imported): Result<seq<Point>, seq<Reported>> {
    var sized := if |i.points| > MAX_SIGNALS then i.faults + [Reported(0, TooManySignals)] else i.faults;
    var faults := if i.points == [] && sized == [] then sized + [Reported(0, NoSignals)] else sized;
    if faults == [] then Ok(i.points) else Err(faults)
  }

  /** datapoints_from_csv after the header is accepted. */
  method FromCsv(lex: Lexer, rows: seq<CsvRow>) returns (result: Result<seq<Point>, seq<Reported>>)
    ensures result == Finished(ImportRows(lex, rows))
  {
    var normalized: seq<Point> := [];
    var errors: seq<Reported> := [];
    var seen: map<string, nat> := map[];
    for i := 0 to |rows|
      invariant Imported(normalized, errors) == ImportRows(lex, rows[..i])
      invariant seen.Keys == Keys(normalized)
    {
      hide RowPoint, BlankRow;
      var row := rows[i];
      assert Front(rows[..i + 1]) == rows[..i] && Last(rows[..i + 1]) == row;
      if BlankRow(row) {
        continue;
      }
      var one := RowPoint(lex, row);
      if one.Err? {
        errors := errors + [Reported(i + 2, one.error)];
        continue;
      }
      if one.value.key in seen {
        errors := errors + [Reported(i + 2, DuplicateKey(one.value.key))];
        continue;
      }
      seen := seen[one.value.key := i + 2];
      normalized := normalized + [one.value];
    }
    assert rows[..|rows|] == rows;
    if |normalized| > MAX_SIGNALS {
      errors := errors + [Reported(0, TooManySignals)];
    }
    if normalized == [] && errors == [] {
      errors := errors + [Reported(0, NoSignals)];
    }
    result := if errors != [] then Err(errors) else Ok(normalized);
  }

  lemma {:induction false} CsvRawsSnoc(rows: seq<CsvRow>)
    requires rows != []
    ensures CsvRaws(rows) ==
            CsvRaws(Front(rows)) + if BlankRow(Last(rows)) then [] else [Dictionary(RawOfCsv(Last(rows)))]
  {
    hide RawOfCsv, BlankRow;
    if |rows| == 1 {
      assert rows[1..] == [] && Front(rows) == [];
    } else {
      CsvRawsSnoc(rows[1..]);
      assert Front(rows)[1..] == Front(rows[1..]);
    }
  }

  /** The import reports nothing and collects ps exactly when ps is what the rows read as,
      with distinct keys. */
  lemma {:induction false} ImportExactly(lex: Lexer, rows: seq<CsvRow>, ps: seq<Point>)
    ensures ImportRows(lex, rows) == Imported(ps, []) <==> AllRead(lex, CsvRaws(rows), ps) && DistinctKeys(ps)
  {
    hide RowPoint, BlankRow, RawOfCsv, Reads, PointOf;
    if rows != [] {
      CsvRawsSnoc(rows);
      var row := Last(rows);
      if BlankRow(row) {
        ImportExactly(lex, Front(rows), ps);
      } else if ps == [] {
        assert |CsvRaws(rows)| > 0;
      } else {
        ImportExactly(lex, Front(rows), Front(ps));
        RowPointReads(lex, row, Last(ps));
        assert Front(ps) + [Last(ps)] == ps;
        AllReadSnoc(lex, CsvRaws(Front(rows)), Dictionary(RawOfCsv(row)), ps);
        DistinctSnoc(ps);
      }
    }
  }

  lemma AllReadSnoc(lex: Lexer, rows: seq<Row>, row: Row, ps: seq<Point>)
    requires ps != []
    ensures AllRead(lex, rows + [row], ps) <==> AllRead(lex, rows, Front(ps)) && Reads(lex, row, Last(ps))
  {
    hide Reads;
    if AllRead(lex, rows + [row], ps) {
      forall i | 0 <= i < |rows| ensures Reads(lex, rows[i], Front(ps)[i]) {
        assert Reads(lex, (rows + [row])[i], ps[i]);
      }
      assert Reads(lex, (rows + [row])[|rows|], ps[|rows|]);
    }
  }

  lemma DistinctSnoc(ps: seq<Point>)
    requires ps != []
    ensures DistinctKeys(ps) <==> DistinctKeys(Front(ps)) && Last(ps).key !in Keys(Front(ps))
  {
    if DistinctKeys(Front(ps)) && Last(ps).key !in Keys(Front(ps)) {
      forall i | 0 <= i < |ps| - 1 ensures ps[i].key != Last(ps).key {
        assert Front(ps)[i] in Front(ps);
      }
    }
  }

  /** Row-by-row import succeeds exactly when normalising all rows at once does, with the
      same result. */
  lemma CsvImportExactly(lex: Lexer, rows: seq<CsvRow>, ps: seq<Point>)
    ensures Finished(ImportRows(lex, rows)) == Ok(ps) <==> Normalize(lex, CsvRaws(rows)) == Ok(ps)
  {
    hide ImportRow, AllRead, DistinctKeys, CsvRaws, NormalizeRows;
    ImportExactly(lex, rows, ps);
    NormalizeRowsExactly(lex, CsvRaws(rows), {}, ps);
    AllReadLength(lex, CsvRaws(rows), ps);
  }

  lemma AllReadLength(lex: Lexer, rows: seq<Row>, ps: seq<Point>)
    ensures AllRead(lex, rows, ps) ==> |rows| == |ps|
  {
  }

  /** Row i (counted from 0) cannot be taken: it fails by itself or repeats a key taken before. */
  predicate Untakeable(lex: Lexer, rows: seq<CsvRow>, i: nat)
    requires i < |rows|
  {
    && !BlankRow(rows[i])
    && match RowPoint(lex, rows[i])
       case Err(_) => true
       case Ok(p) => p.key in Keys(ImportRows(lex, rows[..i]).points)
  }

  /** Every row that cannot be taken is reported under its own number, and nothing else is. */
  lemma {:induction false} ReportsExactly(lex: Lexer, rows: seq<CsvRow>, i: nat)
    requires i < |rows|
    ensures Untakeable(lex, rows, i) <==> exists r :: r in ImportRows(lex, rows).faults && r.row == i + 2
    ensures forall r :: r in ImportRows(lex, rows).faults ==> 2 <= r.row < |rows| + 2
  {
    hide RowPoint, BlankRow;
    var front := Front(rows);
    var before := ImportRows(lex, front).faults;
    var now := ImportRows(lex, rows).faults;
    if i < |front| {
      ReportsExactly(lex, front, i);
      assert front[..i] == rows[..i];
      assert forall r :: r in now && r !in before ==> r.row == |rows| + 1;
    } else {
      assert rows[..i] == front;
      if front != [] {
        ReportsExactly(lex, front, 0);
      }
      if Untakeable(lex, rows, i) {
        assert Last(now) in now;
      }
    }
  }

  // -------------------------------------------------------------- CSV round trip

  lemma {:induction false} CsvRawsOfWritten(lex: Lexer, ps: seq<Point>)
    requires forall p :: p in ps ==> NormalPoint(p) && ReadsBack(lex, p)
    ensures AllRead(lex, CsvRaws(ToCsv(lex, ps)), RetextAll(ps))
  {
    hide NormalPoint, ReadsBack, Reads, CsvOf, RawOfCsv, Retext, BlankRow;
    if ps != [] {
      assert ps[0] in ps;
      CsvReads(lex, ps[0]);
      NormalKey(ps[0]);
      CsvNotBlank(lex, ps[0]);
      CsvRawsOfWritten(lex, ps[1..]);
    }
  }

  lemma NormalKey(p: Point)
    requires NormalPoint(p)
    ensures ValidKey(p.key)
  {
  }

  /** CSV round trip: writing a normalised list and importing the rows returns it with its
      texts cleaned; the very same list exactly when every text field is canonical. */
  lemma CsvRoundTrip(lex: Lexer, ps: seq<Point>)
    requires NormalList(ps) && forall p :: p in ps ==> ReadsBack(lex, p)
    ensures Finished(ImportRows(lex, ToCsv(lex, ps))) == Ok(RetextAll(ps))
    ensures Finished(ImportRows(lex, ToCsv(lex, ps))) == Ok(ps) <==> AllCanonical(ps)
  {
    hide NormalPoint, ReadsBack, Reads, CsvOf, RawOfCsv, Retext, ImportRow, Canonical, CsvRaws, ToCsv;
    var rows := ToCsv(lex, ps);
    CsvRawsOfWritten(lex, ps);
    DistinctAfterRetext(ps);
    NormalizeRowsExactly(lex, CsvRaws(rows), {}, RetextAll(ps));
    CsvImportExactly(lex, rows, RetextAll(ps));
    RetextAllExactly(ps);
  }

  // ------------------------------------------------------ the loops of the source

  /** normalize_datapoints */
  method NormalizeDatapoints(lex: Lexer, datapoints: seq<Row>) returns (result: Result<seq<Point>, Fault>)
    ensures result == Normalize(lex, datapoints)
  {
    hide PointOf, KeyOf, ValidKey;
    if datapoints == [] {
      return Err(NoSignals);
    }
    if |datapoints| > MAX_SIGNALS {
      return Err(TooManySignals);
    }
    var normalized: seq<Point> := [];
    var seen: set<string> := {};
    assert datapoints[0..] == datapoints;
    PrefixedNothing(NormalizeRows(lex, datapoints, {}));
    for i := 0 to |datapoints|
      invariant NormalizeRows(lex, datapoints, {}) == Prefixed(normalized, NormalizeRows(lex, datapoints[i..], seen))
    {
      var raw := datapoints[i];
      assert datapoints[i..][0] == raw && datapoints[i..][1..] == datapoints[i + 1..];
      if raw.NotADict? {
        return Err(InvalidRow);
      }
      var key := KeyOf(lex, raw.dict);
      if !ValidKey(key) {
        return Err(BadKey);
      }
      if key in seen {
        return Err(DuplicateKey(key));
      }
      seen := seen + {key};
      var point := PointOf(lex, raw.dict, key);
      if point.Err? {
        return Err(point.error);
      }
      PrefixedSnoc(normalized, point.value, NormalizeRows(lex, datapoints[i + 1..], seen));
      normalized := normalized + [point.value];
    }
    assert normalized + [] == normalized;
    return Ok(normalized);
  }

  function Prefixed(ps: seq<Point>, r: Result<seq<Point>, Fault>): Result<seq<Point>, Fault> {
    match r
    case Err(e) => Err(e)
    case Ok(qs) => Ok(ps + qs)
  }

  lemma PrefixedNothing(r: Result<seq<Point>, Fault>)
    ensures Prefixed([], r) == r
  {
    if r.Ok? {
      assert [] + r.value == r.value;
    }
  }

  lemma PrefixedSnoc(ps: seq<Point>, p: Point, r: Result<seq<Point>, Fault>)
    ensures Prefixed(ps, Prefixed([p], r)) == Prefixed(ps + [p], r)
  {
    if r.Ok? {
      assert ps + ([p] + r.value) == ps + [p] + r.value;
    }
  }

  /** datapoints_to_register_map */
  method DatapointsToRegisterMap(datapoints: seq<Point>) returns (result: RegisterMap)
    ensures result == ToRegisterMap(datapoints)
  {
    hide Register;
    result := [];
    for i := 0 to |datapoints|
      invariant result == ToRegisterMap(datapoints[..i])
    {
      assert Front(datapoints[..i + 1]) == datapoints[..i] && Last(datapoints[..i + 1]) == datapoints[i];
      result := Put(result, datapoints[i].key, Dictionary(Register(datapoints[i])));
    }
    assert datapoints[..|datapoints|] == datapoints;
  }
}
