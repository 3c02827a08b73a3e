/** What the datapoint normaliser promises: the shape of its results, the two printer/parser
    round trips, and the row-by-row import. */
module MapProofs {

  import opened Common
  import opened TextRules
  import opened DatapointMaps

  // ----------------------------------------------- what normalising amounts to

  /** A row that the normaliser reads as p. */
  predicate Reads(lex: Lexer, row: Row, p: Point) {
    && row.Dictionary? && ValidKey(p.key) && KeyOf(lex, row.dict) == p.key
    && PointOf(lex, row.dict, p.key) == Ok(p)
  }

  predicate AllRead(lex: Lexer, rows: seq<Row>, ps: seq<Point>) {
    |rows| == |ps| && forall i :: 0 <= i < |ps| ==> Reads(lex, rows[i], ps[i])
  }

  predicate DistinctKeys(ps: seq<Point>) {
    forall i, j :: 0 <= i < j < |ps| ==> ps[i].key != ps[j].key
  }

  predicate Unseen(ps: seq<Point>, seen: set<string>) {
    forall p :: p in ps ==> p.key !in seen
  }

  lemma PointKeepsKey(lex: Lexer, d: Dict, key: string)
    ensures PointOf(lex, d, key).Ok? ==> PointOf(lex, d, key).value.key == key
  {
    hide WireOf, ScalingOf, DirectionOf, LimitsOf;
  }

  /** Normalising returns a list exactly when it reads every row in turn and the keys are new
      and distinct. */
  lemma {:induction false} NormalizeRowsExactly(lex: Lexer, rows: seq<Row>, seen: set<string>, ps: seq<Point>)
    ensures NormalizeRows(lex, rows, seen) == Ok(ps) <==>
            AllRead(lex, rows, ps) && DistinctKeys(ps) && Unseen(ps, seen)
  {
    hide PointOf, KeyOf, ValidKey;
    if rows != [] && ps != [] && rows[0].Dictionary? {
      var key := KeyOf(lex, rows[0].dict);
      assert ps == [ps[0]] + ps[1..];
      NormalizeRowsExactly(lex, rows[1..], seen + {key}, ps[1..]);
      PointKeepsKey(lex, rows[0].dict, key);
    }
  }

  // ------------------------------------------------------- normalised signals

  /** What every signal that leaves the normaliser satisfies. */
  predicate NormalPoint(p: Point) {
    && ValidKey(p.key) && CleanKey(p.key) == p.key
    && 0 <= p.address <= 65535 && NormalWire(p.wire) && NormalScaling(p.scaling)
    && !Inverted(p.limits.normalMin, p.limits.normalMax) && !Inverted(p.limits.safetyMin, p.limits.safetyMax)
    && Fits(p.title, 200) && Fits(p.unit, 32) && Fits(p.alert, 300)
  }

  predicate NormalWire(w: Wire) {
    && 1 <= w.readCode <= 4 && w.count == RegisterCount(w.dataType)
    && (w.access.ReadWrite? <==> w.writeCode.Some?) && (w.writeCode.Some? ==> WriteCode(w.writeCode.value))
  }

  predicate NormalScaling(s: Scaling) {
    s.multiplier != 0.0 && |s.invalidValues| <= 8
  }

  /** Stripped and then cut: no blank in front, but a cut may leave one at the end. */
  predicate Fits(s: string, limit: nat) {
    |s| <= limit && (s == "" || !Space(s[0]))
  }

  lemma StripFits(s: string, limit: nat)
    ensures Fits(Cut(Strip(s), limit), limit)
  {
    StripFixes(s);
  }

  lemma {:induction false} CodesLength(lex: Lexer, vs: seq<Value>)
    ensures CodesOf(lex, vs).Ok? ==> |CodesOf(lex, vs).value| == |vs|
  {
    if vs != [] {
      CodesLength(lex, vs[1..]);
    }
  }

  lemma CodesAtMostEight(lex: Lexer, d: Dict)
    ensures InvalidCodes(lex, d).Ok? ==> |InvalidCodes(lex, d).value| <= 8
  {
    var raw := Or(GetOr(d, FInvalidValues, GetOr(d, FCamelInvalidValues, Items([]))), Items([]));
    var listed := if raw.Text? then Items(Texts(StripWords(Split(raw.text)))) else raw;
    if listed.Items? {
      CodesLength(lex, listed.items);
    }
  }

  lemma LimitsInOrder(lex: Lexer, d: Dict)
    ensures LimitsOf(lex, d).Ok? ==>
              var l := LimitsOf(lex, d).value;
              !Inverted(l.normalMin, l.normalMax) && !Inverted(l.safetyMin, l.safetyMax)
  {
  }

  lemma WireIsNormal(lex: Lexer, d: Dict)
    ensures WireOf(lex, d).Ok? ==> NormalWire(WireOf(lex, d).value)
  {
    hide TypeOf, AccessOf, DisplayOf;
  }

  lemma ScalingIsNormal(lex: Lexer, d: Dict)
    ensures ScalingOf(lex, d).Ok? ==> NormalScaling(ScalingOf(lex, d).value)
  {
    CodesAtMostEight(lex, d);
  }

  lemma ReadPointIsNormal(lex: Lexer, row: Row, p: Point)
    ensures Reads(lex, row, p) ==> NormalPoint(p)
  {
    hide WireOf, ScalingOf, DirectionOf, LimitsOf, CleanKey, ValidKey;
    if Reads(lex, row, p) {
      var d := row.dict;
      CleanKeyStable(Str(lex, Or(Get(d, FKey), Text(""))));
      WireIsNormal(lex, d);
      ScalingIsNormal(lex, d);
      LimitsInOrder(lex, d);
      StripFits(Str(lex, Or(Get(d, FLabel), Text(Titled(p.key, false)))), 200);
      StripFits(Str(lex, Or(Get(d, FUnit), Text(""))), 32);
      StripFits(Str(lex, Or(Get(d, FAlertSuggestion), Text(""))), 300);
    }
  }

  /** A list the normaliser can return. */
  predicate NormalList(ps: seq<Point>) {
    && 1 <= |ps| <= MAX_SIGNALS && DistinctKeys(ps)
    && forall p :: p in ps ==> NormalPoint(p)
  }

  lemma NormalizedIsNormal(lex: Lexer, rows: seq<Row>)
    ensures Normalize(lex, rows).Ok? ==> NormalList(Normalize(lex, rows).value)
  {
    hide NormalizeRows, NormalPoint, Reads;
    if Normalize(lex, rows).Ok? {
      var ps := Normalize(lex, rows).value;
      NormalizeRowsExactly(lex, rows, {}, ps);
      forall i | 0 <= i < |ps| ensures NormalPoint(ps[i]) {
        ReadPointIsNormal(lex, rows[i], ps[i]);
      }
    }
  }

  // ---------------------------------------------------------- writing and reading

  /** The numbers of a signal survive being written as text and read back. */
  predicate ReadsBackWhole(lex: Lexer, n: int) {
    lex.readInt(lex.show(Whole(n))) == Some(n) && lex.show(Whole(n)) != ""
  }

  predicate ReadsBackReal(lex: Lexer, r: real) {
    lex.readFloat(lex.show(Number(r))) == Finite(r) && lex.show(Number(r)) != ""
  }

  predicate ReadsBackOptional(lex: Lexer, r: Option<real>) {
    r.Some? ==> ReadsBackReal(lex, r.value)
  }

  /** A code is all digits exactly when it is whole; no printed code holds a comma. */
  predicate ReadsBackCode(lex: Lexer, c: Code) {
    && (lex.digits(lex.show(CodeValue(c))) <==> c.IntCode?) && PlainWord(lex.show(CodeValue(c)))
    && match c case IntCode(n) => ReadsBackWhole(lex, n) case FloatCode(r) => ReadsBackReal(lex, r)
  }

  predicate ReadsBack(lex: Lexer, p: Point) {
    && ReadsBackWhole(lex, p.address) && ReadsBackWhole(lex, p.wire.readCode) && ReadsBackWhole(lex, p.wire.count)
    && (p.wire.writeCode.Some? ==> ReadsBackWhole(lex, p.wire.writeCode.value))
    && ReadsBackReal(lex, p.scaling.multiplier) && ReadsBackReal(lex, p.scaling.offset)
    && (forall c :: c in p.scaling.invalidValues ==> ReadsBackCode(lex, c))
    && ReadsBackOptional(lex, p.limits.normalMin) && ReadsBackOptional(lex, p.limits.normalMax)
    && ReadsBackOptional(lex, p.limits.safetyMin) && ReadsBackOptional(lex, p.limits.safetyMax)
  }

  /** A signal whose text fields a round trip leaves alone. */
  predicate Canonical(p: Point) {
    p.title != "" && Trimmed(p.title) && Trimmed(p.unit) && Trimmed(p.alert)
  }

  /** What one round trip makes of a signal: its texts stripped, a missing label invented. */
  function Retext(p: Point): Point {
    p.(title := Cut(Strip(if p.title == "" then Titled(p.key, false) else p.title), 200),
       unit := Cut(Strip(p.unit), 32), alert := Cut(Strip(p.alert), 300))
  }

  lemma StripWithin(s: string, limit: nat)
    requires Fits(s, limit)
    ensures Cut(Strip(s), limit) == Strip(s)
    ensures Strip(s) == "" <==> s == ""
  {
    if s == "" {
      assert Strip(s) == "";
    } else {
      StripKeeps(s);
    }
  }

  lemma TitledFits(key: string)
    requires ValidKey(key)
    ensures Fits(Titled(key, false), 200) && Titled(key, false) != ""
  {
    TitledLength(key, false);
  }

  /** A round trip changes exactly the signals that are not canonical, and makes them so. */
  lemma RetextExactly(p: Point)
    requires NormalPoint(p)
    ensures Retext(p) == p <==> Canonical(p)
    ensures Canonical(Retext(p))
    ensures NormalPoint(Retext(p))
  {
    hide ValidKey, CleanKey, NormalWire, NormalScaling, Inverted, Strip, Titled;
    var title := if p.title == "" then Titled(p.key, false) else p.title;
    TitledFits(p.key);
    StripWithin(title, 200);
    StripWithin(p.unit, 32);
    StripWithin(p.alert, 300);
    StripFixes(p.title);
    StripFixes(title);
    StripFixes(p.unit);
    StripFixes(p.alert);
    assert forall s: string :: Trimmed(s) ==> s == "" || !Space(s[0]);
    StripFits(title, 200);
    StripFits(p.unit, 32);
    StripFits(p.alert, 300);
  }

  // names

  lemma TypeNameReads(t: DataType)
    ensures TypeNamed(Lower(TypeName(t))) == Some(t) && TypeName(t) != ""
  {
    LowerFixes(TypeName(t));
  }

  lemma DirectionNameReads(d: Direction)
    ensures DirectionNamed(Lower(DirectionName(d))) == Some(d) && DirectionName(d) != ""
  {
    LowerFixes(DirectionName(d));
  }

  lemma DisplayNameReads(d: Display)
    ensures DisplayNamed(DisplayName(d)) == Some(d) && DisplayName(d) != ""
  {
  }

  lemma AccessNameReads(a: Access)
    ensures AccessNamed(AccessName(a)) == Some(a) && AccessName(a) != ""
  {
  }

  // codes

  lemma CodeReads(lex: Lexer, c: Code)
    requires ReadsBackCode(lex, c)
    ensures CodeOf(lex, CodeValue(c)) == Ok(c) && CodeOf(lex, Text(lex.show(CodeValue(c)))) == Ok(c)
  {
    hide PlainWord;
  }

  lemma {:induction false} CodeValuesRead(lex: Lexer, cs: seq<Code>)
    requires forall c :: c in cs ==> ReadsBackCode(lex, c)
    ensures CodesOf(lex, CodeValues(cs)) == Ok(cs) && |CodeValues(cs)| == |cs|
  {
    hide ReadsBackCode, CodeOf, CodeValue;
    if cs != [] {
      assert cs[0] in cs;
      CodeReads(lex, cs[0]);
      CodeValuesRead(lex, cs[1..]);
      assert [cs[0]] + cs[1..] == cs;
    }
  }

  lemma {:induction false} ShownCodesRead(lex: Lexer, cs: seq<Code>)
    requires forall c :: c in cs ==> ReadsBackCode(lex, c)
    ensures forall w :: w in ShowCodes(lex, cs) ==> PlainWord(w)
    ensures CodesOf(lex, Texts(ShowCodes(lex, cs))) == Ok(cs)
    ensures |ShowCodes(lex, cs)| == |Texts(ShowCodes(lex, cs))| == |cs|
  {
    hide CodeOf, CodeValue, PlainWord, ReadsBackReal, ReadsBackWhole;
    if cs != [] {
      assert cs[0] in cs;
      CodeReads(lex, cs[0]);
      ShownCodesRead(lex, cs[1..]);
      assert [cs[0]] + cs[1..] == cs;
      assert ShowCodes(lex, cs)[1..] == ShowCodes(lex, cs[1..]);
    }
  }

  lemma JoinedCodesRead(lex: Lexer, d: Dict, cs: seq<Code>)
    requires |cs| <= 8 && forall c :: c in cs ==> ReadsBackCode(lex, c)
    requires Get(d, FInvalidValues) == Text(Join(ShowCodes(lex, cs)))
    ensures InvalidCodes(lex, d) == Ok(cs)
  {
    ShownCodesRead(lex, cs);
    JoinSplits(ShowCodes(lex, cs));
  }

  lemma ListedCodesRead(lex: Lexer, d: Dict, cs: seq<Code>)
    requires |cs| <= 8 && forall c :: c in cs ==> ReadsBackCode(lex, c)
    requires Get(d, FInvalidValues) == Items(CodeValues(cs))
    ensures InvalidCodes(lex, d) == Ok(cs)
  {
    CodeValuesRead(lex, cs);
  }

  // ------------------------------------------------- one signal there and back

  predicate Holds(d: Dict, f: Field, v: Value) {
    f in d && d[f] == v
  }

  function ToRaw(p: Point): Dict {
    RawOfRegister(p.key, Register(p))
  }

  lemma RegisterFields(p: Point)
    ensures var c := Register(p);
            && Holds(c, FLabel, Text(p.title)) && Holds(c, FAddress, Whole(p.address)) && Holds(c, FUnit, Text(p.unit))
            && Holds(c, FAlertSuggestion, Text(p.alert)) && Holds(c, FEnergyDirection, Text(DirectionName(p.direction)))
  {
    hide TypeName, DisplayName, DirectionName, Bound, CodeValues;
  }

  lemma RegisterCodeFields(p: Point)
    ensures var c := Register(p);
            && Holds(c, FCamelReadFunctionCode, Whole(p.wire.readCode)) && Holds(c, FFunctionCode, Whole(p.wire.readCode))
            && Get(c, FCamelWriteFunctionCode) == (if p.wire.writeCode.Some? then Whole(p.wire.writeCode.value) else Null)
  {
    hide TypeName, DisplayName, DirectionName, Bound, CodeValues;
  }

  lemma RegisterWireFields(p: Point)
    ensures var c := Register(p);
            && Holds(c, FType, Text(TypeName(p.wire.dataType))) && Holds(c, FCamelObjectsCount, Whole(p.wire.count))
            && Holds(c, FWritable, Flag(p.wire.access.ReadWrite?))
            && Holds(c, FDisplayType, Text(DisplayName(p.wire.display)))
  {
    hide TypeName, DisplayName, DirectionName, Bound, CodeValues;
  }

  lemma RegisterMoreFields(p: Point)
    ensures var c := Register(p);
            && Holds(c, FMultiplier, Number(p.scaling.multiplier)) && Holds(c, FOffset, Number(p.scaling.offset))
            && Holds(c, FNormalMin, Bound(p.limits.normalMin)) && Holds(c, FNormalMax, Bound(p.limits.normalMax))
            && Holds(c, FSafetyMin, Bound(p.limits.safetyMin)) && Holds(c, FSafetyMax, Bound(p.limits.safetyMax))
            && GetOr(c, FCamelInvalidValues, Items([])) == Items(CodeValues(p.scaling.invalidValues))
  {
    hide TypeName, DisplayName, DirectionName, Bound;
  }

  /** What the raw row of a written entry says about each signal field. */
  predicate RegisterRow(d: Dict, p: Point) {
    RegisterRowKey(d, p) && RegisterRowWire(d, p) && RegisterRowRest(d, p)
  }

  predicate RegisterRowKey(d: Dict, p: Point) {
    && Holds(d, FKey, Text(p.key))
    && Or(Get(d, FLabel), Text(Titled(p.key, false))) == Or(Text(p.title), Text(Titled(p.key, false)))
    && Holds(d, FAddress, Whole(p.address))
  }

  predicate RegisterRowWire(d: Dict, p: Point) {
    && Holds(d, FReadFunctionCode, Whole(p.wire.readCode)) && Holds(d, FDataType, Text(TypeName(p.wire.dataType)))
    && Holds(d, FObjectsCount, Whole(p.wire.count)) && Holds(d, FAccess, Text(AccessName(p.wire.access)))
    && Holds(d, FWriteFunctionCode, if p.wire.writeCode.Some? then Whole(p.wire.writeCode.value) else Null)
    && Holds(d, FDisplayType, Text(DisplayName(p.wire.display)))
  }

  predicate RegisterRowRest(d: Dict, p: Point) {
    && Holds(d, FUnit, Text(p.unit)) && Holds(d, FAlertSuggestion, Text(p.alert))
    && Holds(d, FEnergyDirection, Text(DirectionName(p.direction)))
    && Holds(d, FMultiplier, Number(p.scaling.multiplier)) && Holds(d, FOffset, Number(p.scaling.offset))
    && Holds(d, FInvalidValues, Items(CodeValues(p.scaling.invalidValues)))
    && Holds(d, FNormalMin, Bound(p.limits.normalMin)) && Holds(d, FNormalMax, Bound(p.limits.normalMax))
    && Holds(d, FSafetyMin, Bound(p.limits.safetyMin)) && Holds(d, FSafetyMax, Bound(p.limits.safetyMax))
  }

  lemma RawKeyFields(key: string, c: Dict)
    ensures var d := RawOfRegister(key, c);
            && Holds(d, FKey, Text(key)) && Holds(d, FLabel, Or(Get(c, FLabel), Text(Titled(key, false))))
            && Holds(d, FAddress, GetOr(c, FAddress, Whole(0)))
  {
    hide Titled, ReadCodeOf, LegacyWriteCode, Or, Truthy, Get, GetOr;
  }

  lemma RawWireFields(key: string, c: Dict)
    ensures var d := RawOfRegister(key, c);
            && Holds(d, FReadFunctionCode, ReadCodeOf(c)) && Holds(d, FDataType, GetOr(c, FType, Text("uint16")))
            && Holds(d, FObjectsCount, Get(c, FCamelObjectsCount)) && Holds(d, FWriteFunctionCode, LegacyWriteCode(c))
            && Holds(d, FAccess, Text(if Truthy(Get(c, FWritable)) then "read_write" else "read_only"))
            && Holds(d, FDisplayType,
                     GetOr(c, FDisplayType, Text(if Get(c, FType) == Text("bool") then "status" else "value")))
  {
    hide Titled, ReadCodeOf, LegacyWriteCode, Or, Truthy, Get, GetOr;
  }

  lemma RawScalingFields(key: string, c: Dict)
    ensures var d := RawOfRegister(key, c);
            && Holds(d, FMultiplier, GetOr(c, FMultiplier, GetOr(c, FScale, Whole(1))))
            && Holds(d, FOffset, GetOr(c, FOffset, Whole(0)))
            && Holds(d, FInvalidValues, GetOr(c, FCamelInvalidValues, Items([])))
  {
    hide Titled, ReadCodeOf, LegacyWriteCode, Or, Truthy, Get, GetOr;
  }

  lemma RawTextFields(key: string, c: Dict)
    ensures var d := RawOfRegister(key, c);
            && Holds(d, FUnit, GetOr(c, FUnit, Text(""))) && Holds(d, FAlertSuggestion, GetOr(c, FAlertSuggestion, Text("")))
            && Holds(d, FEnergyDirection, GetOr(c, FEnergyDirection, Text("none")))
  {
    hide Titled, ReadCodeOf, LegacyWriteCode, Or, Truthy, Get, GetOr;
  }

  lemma RawLimitFields(key: string, c: Dict)
    ensures var d := RawOfRegister(key, c);
            && Holds(d, FNormalMin, Get(c, FNormalMin)) && Holds(d, FNormalMax, Get(c, FNormalMax))
            && Holds(d, FSafetyMin, GetOr(c, FSafetyMin, Get(c, FMin)))
            && Holds(d, FSafetyMax, GetOr(c, FSafetyMax, Get(c, FMax)))
  {
    hide Titled, ReadCodeOf, LegacyWriteCode, Or, Truthy, Get, GetOr;
  }

  lemma RegisterRowWireReads(p: Point)
    requires NormalWire(p.wire)
    ensures RegisterRowWire(ToRaw(p), p)
  {
    hide TypeName, DisplayName, DirectionName, Bound, Titled, CodeValues, Register, ReadCodeOf, LegacyWriteCode, Or;
    hide RawOfRegister;
    RawWireFields(p.key, Register(p));
    RegisterWireFields(p);
    RegisterCodes(p);
  }

  lemma RegisterRowKeyReads(p: Point)
    ensures RegisterRowKey(ToRaw(p), p)
  {
    hide TypeName, DisplayName, DirectionName, Bound, Titled, CodeValues, Register, ReadCodeOf, LegacyWriteCode, Or;
    hide RawOfRegister;
    RawKeyFields(p.key, Register(p));
    RegisterFields(p);
    OrTwice(Text(p.title), Text(Titled(p.key, false)));
  }

  lemma OrTwice(v: Value, w: Value)
    ensures Or(Or(v, w), w) == Or(v, w)
  {
  }

  lemma RegisterRowRestReads(p: Point)
    ensures RegisterRowRest(ToRaw(p), p)
  {
    hide TypeName, DisplayName, DirectionName, Bound, Titled, CodeValues, Register, ReadCodeOf, LegacyWriteCode, Or;
    hide Truthy, RawOfRegister;
    RawScalingFields(p.key, Register(p));
    RawTextFields(p.key, Register(p));
    RawLimitFields(p.key, Register(p));
    RegisterFields(p);
    RegisterMoreFields(p);
  }

  lemma RegisterCodes(p: Point)
    requires NormalWire(p.wire)
    ensures ReadCodeOf(Register(p)) == Whole(p.wire.readCode)
    ensures LegacyWriteCode(Register(p)) == if p.wire.writeCode.Some? then Whole(p.wire.writeCode.value) else Null
  {
    hide TypeName, DisplayName, DirectionName, Bound, Titled, CodeValues, Register;
    RegisterCodeFields(p);
    RegisterWireFields(p);
  }

  lemma RegisterWire(lex: Lexer, d: Dict, p: Point)
    requires NormalWire(p.wire) && RegisterRow(d, p)
    ensures WireOf(lex, d) == Ok(p.wire)
  {
    hide TypeNamed, TypeName, DisplayNamed, DisplayName, AccessNamed, AccessName, DirectionName, Lower;
    hide RegisterRowKey, RegisterRowRest;
    TypeNameReads(p.wire.dataType);
    DisplayNameReads(p.wire.display);
    AccessNameReads(p.wire.access);
  }

  lemma RegisterScaling(lex: Lexer, d: Dict, p: Point)
    requires RegisterRow(d, p)
    requires NormalScaling(p.scaling) && forall c :: c in p.scaling.invalidValues ==> ReadsBackCode(lex, c)
    ensures ScalingOf(lex, d) == Ok(p.scaling)
  {
    hide InvalidCodes, CodeValues, ReadsBackCode, RegisterRowKey, RegisterRowWire;
    ListedCodesRead(lex, d, p.scaling.invalidValues);
  }

  lemma RegisterLimits(lex: Lexer, d: Dict, p: Point)
    requires RegisterRow(d, p)
    requires !Inverted(p.limits.normalMin, p.limits.normalMax) && !Inverted(p.limits.safetyMin, p.limits.safetyMax)
    ensures LimitsOf(lex, d) == Ok(p.limits)
  {
    hide RegisterRowKey, RegisterRowWire;
  }

  lemma RegisterTexts(lex: Lexer, d: Dict, p: Point)
    requires RegisterRow(d, p) && ValidKey(p.key) && CleanKey(p.key) == p.key
    ensures KeyOf(lex, d) == p.key && DirectionOf(lex, d) == Some(p.direction)
    ensures TitleOf(lex, d, p.key) == Retext(p).title
    ensures TextOf(lex, d, FUnit, 32) == Retext(p).unit && TextOf(lex, d, FAlertSuggestion, 300) == Retext(p).alert
  {
    hide DirectionNamed, DirectionName, Lower, CleanKey, Strip, Titled, Cut, RegisterRowWire;
    DirectionNameReads(p.direction);
    TitledFits(p.key);
  }

  /** Any raw row that says this about a normalised signal is read as that signal. */
  lemma RegisterRowMeans(lex: Lexer, d: Dict, p: Point)
    requires NormalPoint(p) && RegisterRow(d, p)
    requires forall c :: c in p.scaling.invalidValues ==> ReadsBackCode(lex, c)
    ensures Reads(lex, Dictionary(d), Retext(p))
  {
    hide KeyOf, WireOf, ScalingOf, DirectionOf, LimitsOf, TitleOf, TextOf, CleanKey, ValidKey, Fits;
    hide NormalWire, NormalScaling, ReadsBackCode, Inverted, Cut, Strip, Titled, CodeValues;
    RegisterWire(lex, d, p);
    RegisterScaling(lex, d, p);
    RegisterLimits(lex, d, p);
    RegisterTexts(lex, d, p);
  }

  /** Writing a normalised signal into a register map and reading the entry returns it
      with its texts cleaned. */
  lemma RegisterReads(lex: Lexer, p: Point)
    requires NormalPoint(p) && forall c :: c in p.scaling.invalidValues ==> ReadsBackCode(lex, c)
    ensures Reads(lex, Dictionary(ToRaw(p)), Retext(p))
  {
    hide ToRaw, Reads, ReadsBackCode, RegisterRowKey, RegisterRowWire, RegisterRowRest;
    RegisterRowKeyReads(p);
    RegisterRowWireReads(p);
    RegisterRowRestReads(p);
    RegisterRowMeans(lex, ToRaw(p), p);
  }

  function ToCsvRaw(lex: Lexer, p: Point): Dict {
    RawOfCsv(CsvOf(lex, p))
  }

  /** What the raw row of a written CSV row says. */
  predicate CsvFields(lex: Lexer, d: Dict, p: Point) {
    CsvFieldsKey(lex, d, p) && CsvFieldsWire(lex, d, p) && CsvFieldsRest(lex, d, p)
  }

  predicate CsvFieldsKey(lex: Lexer, d: Dict, p: Point) {
    && Holds(d, FKey, Text(p.key)) && Holds(d, FLabel, Text(p.title))
    && Holds(d, FAddress, Text(lex.show(Whole(p.address))))
  }

  predicate CsvFieldsWire(lex: Lexer, d: Dict, p: Point) {
    && Holds(d, FReadFunctionCode, Text(lex.show(Whole(p.wire.readCode))))
    && Holds(d, FDataType, Text(TypeName(p.wire.dataType))) && Holds(d, FObjectsCount, Text(lex.show(Whole(p.wire.count))))
    && Holds(d, FAccess, Text(AccessName(p.wire.access))) && Holds(d, FDisplayType, Text(DisplayName(p.wire.display)))
    && Holds(d, FWriteFunctionCode,
             if p.wire.writeCode.Some? then Text(lex.show(Whole(p.wire.writeCode.value))) else Null)
  }

  predicate CsvFieldsRest(lex: Lexer, d: Dict, p: Point) {
    && Holds(d, FUnit, Text(p.unit))
    && Holds(d, FAlertSuggestion, Text(p.alert)) && Holds(d, FEnergyDirection, Text(DirectionName(p.direction)))
    && Holds(d, FMultiplier, Text(lex.show(Number(p.scaling.multiplier))))
    && Holds(d, FOffset, Text(lex.show(Number(p.scaling.offset))))
    && Holds(d, FInvalidValues, Text(Join(ShowCodes(lex, p.scaling.invalidValues))))
    && Holds(d, FNormalMin, Text(NumberCell(lex, p.limits.normalMin)))
    && Holds(d, FNormalMax, Text(NumberCell(lex, p.limits.normalMax)))
    && Holds(d, FSafetyMin, Text(NumberCell(lex, p.limits.safetyMin)))
    && Holds(d, FSafetyMax, Text(NumberCell(lex, p.limits.safetyMax)))
  }

  predicate HasCell(row: CsvRow, c: Column, text: string) {
    c in row && row[c] == text
  }

  lemma CsvCells(lex: Lexer, p: Point)
    ensures var r := CsvOf(lex, p);
            && HasCell(r, CKey, p.key) && HasCell(r, CLabel, p.title) && HasCell(r, CAddress, lex.show(Whole(p.address)))
  {
    hide TypeName, DisplayName, AccessName, DirectionName, Join, ShowCodes, NumberCell;
  }

  lemma CsvWireCells(lex: Lexer, p: Point)
    ensures var r := CsvOf(lex, p);
            && HasCell(r, CFunctionCode, lex.show(Whole(p.wire.readCode)))
            && HasCell(r, CDataType, TypeName(p.wire.dataType))
            && HasCell(r, CRegisterCount, lex.show(Whole(p.wire.count)))
            && HasCell(r, CAccess, AccessName(p.wire.access)) && HasCell(r, CDisplayType, DisplayName(p.wire.display))
            && HasCell(r, CWriteFunctionCode,
                       if p.wire.writeCode.Some? then lex.show(Whole(p.wire.writeCode.value)) else "")
  {
    hide TypeName, DisplayName, AccessName, DirectionName, Join, ShowCodes, NumberCell;
  }

  lemma CsvMoreCells(lex: Lexer, p: Point)
    ensures var r := CsvOf(lex, p);
            && HasCell(r, CUnit, p.unit) && HasCell(r, CAlertSuggestion, p.alert)
            && HasCell(r, CEnergyDirection, DirectionName(p.direction))
            && HasCell(r, CScale, lex.show(Number(p.scaling.multiplier)))
            && HasCell(r, COffset, lex.show(Number(p.scaling.offset)))
            && HasCell(r, CInvalidValues, Join(ShowCodes(lex, p.scaling.invalidValues)))
            && HasCell(r, CNormalMin, NumberCell(lex, p.limits.normalMin))
            && HasCell(r, CNormalMax, NumberCell(lex, p.limits.normalMax))
            && HasCell(r, CSafetyMin, NumberCell(lex, p.limits.safetyMin))
            && HasCell(r, CSafetyMax, NumberCell(lex, p.limits.safetyMax))
  {
    hide TypeName, DisplayName, AccessName, DirectionName, Join, ShowCodes, NumberCell;
  }

  lemma OrText(s: string, default: Value)
    ensures Or(Text(s), default) == if s != "" then Text(s) else default
  {
  }

  lemma RawOfCsvWire(row: CsvRow)
    ensures var d := RawOfCsv(row);
            && Holds(d, FReadFunctionCode, Or(Cell(row, CFunctionCode), Whole(3)))
            && Holds(d, FDataType, Or(Cell(row, CDataType), Text("uint16")))
            && Holds(d, FObjectsCount, Or(Cell(row, CRegisterCount), Null))
            && Holds(d, FAccess, Or(Cell(row, CAccess), Text("read_only")))
            && Holds(d, FDisplayType, Or(Cell(row, CDisplayType), Null))
            && Holds(d, FWriteFunctionCode, Or(Cell(row, CWriteFunctionCode), Null))
  {
    hide Or, Cell;
  }

  lemma RawOfCsvRest(row: CsvRow)
    ensures var d := RawOfCsv(row);
            && Holds(d, FUnit, Cell(row, CUnit)) && Holds(d, FAlertSuggestion, Cell(row, CAlertSuggestion))
            && Holds(d, FEnergyDirection, Cell(row, CEnergyDirection)) && Holds(d, FInvalidValues, Cell(row, CInvalidValues))
            && Holds(d, FMultiplier, Or(Cell(row, CScale), Whole(1))) && Holds(d, FOffset, Or(Cell(row, COffset), Whole(0)))
            && Holds(d, FNormalMin, Cell(row, CNormalMin)) && Holds(d, FNormalMax, Cell(row, CNormalMax))
            && Holds(d, FSafetyMin, Cell(row, CSafetyMin)) && Holds(d, FSafetyMax, Cell(row, CSafetyMax))
  {
    hide Or, Cell;
  }

  lemma CsvWireReads(lex: Lexer, p: Point)
    requires ReadsBack(lex, p)
    ensures CsvFieldsWire(lex, ToCsvRaw(lex, p), p)
  {
    hide TypeName, DisplayName, AccessName, DirectionName, Join, ShowCodes, NumberCell, ReadsBackCode, ReadsBackOptional;
    hide CsvOf, Or, RawOfCsv;
    CsvWireCells(lex, p);
    RawOfCsvWire(CsvOf(lex, p));
    OrText(lex.show(Whole(p.wire.readCode)), Whole(3));
    OrText(TypeName(p.wire.dataType), Text("uint16"));
    OrText(lex.show(Whole(p.wire.count)), Null);
    OrText(AccessName(p.wire.access), Text("read_only"));
    OrText(DisplayName(p.wire.display), Null);
    if p.wire.writeCode.Some? {
      OrText(lex.show(Whole(p.wire.writeCode.value)), Null);
    } else {
      OrText("", Null);
    }
    TypeNameReads(p.wire.dataType);
    DisplayNameReads(p.wire.display);
    AccessNameReads(p.wire.access);
  }

  lemma CsvKeyReads(lex: Lexer, p: Point)
    ensures CsvFieldsKey(lex, ToCsvRaw(lex, p), p)
  {
    hide TypeName, DisplayName, AccessName, DirectionName, Join, ShowCodes, NumberCell, CsvOf, Or, Truthy;
    CsvCells(lex, p);
  }

  lemma CsvRestReads(lex: Lexer, p: Point)
    requires ReadsBack(lex, p)
    ensures CsvFieldsRest(lex, ToCsvRaw(lex, p), p)
  {
    hide TypeName, DisplayName, AccessName, DirectionName, Join, ShowCodes, NumberCell, ReadsBackCode, ReadsBackOptional;
    hide CsvOf, RawOfCsv, Or;
    RawOfCsvRest(CsvOf(lex, p));
    OrText(lex.show(Number(p.scaling.multiplier)), Whole(1));
    OrText(lex.show(Number(p.scaling.offset)), Whole(0));
    CsvMoreCells(lex, p);
  }

  lemma CsvWire(lex: Lexer, d: Dict, p: Point)
    requires NormalWire(p.wire) && ReadsBack(lex, p) && CsvFields(lex, d, p)
    ensures WireOf(lex, d) == Ok(p.wire)
  {
    hide TypeNamed, TypeName, DisplayNamed, DisplayName, AccessNamed, AccessName, DirectionName, Lower, Join, ShowCodes;
    hide NumberCell, ReadsBackCode, ReadsBackReal, ReadsBackOptional, CsvFieldsKey, CsvFieldsRest;
    TypeNameReads(p.wire.dataType);
    DisplayNameReads(p.wire.display);
    AccessNameReads(p.wire.access);
  }

  lemma CsvScaling(lex: Lexer, d: Dict, p: Point)
    requires NormalScaling(p.scaling) && ReadsBack(lex, p) && CsvFields(lex, d, p)
    ensures ScalingOf(lex, d) == Ok(p.scaling)
  {
    hide InvalidCodes, ShowCodes, Join, ReadsBackCode, ReadsBackOptional, NumberCell, CsvFieldsKey, CsvFieldsWire;
    JoinedCodesRead(lex, d, p.scaling.invalidValues);
  }

  lemma NumberCellReads(lex: Lexer, r: Option<real>)
    requires ReadsBackOptional(lex, r)
    ensures Numeric(lex, Text(NumberCell(lex, r)), None) == Ok(r)
  {
  }

  lemma CsvLimits(lex: Lexer, d: Dict, p: Point)
    requires !Inverted(p.limits.normalMin, p.limits.normalMax) && !Inverted(p.limits.safetyMin, p.limits.safetyMax)
    requires ReadsBack(lex, p) && CsvFields(lex, d, p)
    ensures LimitsOf(lex, d) == Ok(p.limits)
  {
    hide CsvFieldsKey, CsvFieldsWire, Numeric, NumberCell, ReadsBackCode, ReadsBackReal, ReadsBackOptional;
    NumberCellReads(lex, p.limits.normalMin);
    NumberCellReads(lex, p.limits.normalMax);
    NumberCellReads(lex, p.limits.safetyMin);
    NumberCellReads(lex, p.limits.safetyMax);
  }

  lemma CsvTexts(lex: Lexer, d: Dict, p: Point)
    requires ValidKey(p.key) && CleanKey(p.key) == p.key && CsvFields(lex, d, p)
    ensures KeyOf(lex, d) == p.key && DirectionOf(lex, d) == Some(p.direction)
    ensures TitleOf(lex, d, p.key) == Retext(p).title
    ensures TextOf(lex, d, FUnit, 32) == Retext(p).unit && TextOf(lex, d, FAlertSuggestion, 300) == Retext(p).alert
  {
    hide ShowCodes, Join, DirectionNamed, DirectionName, Lower, CleanKey, Strip, Titled, Cut, NumberCell;
    hide CsvFieldsWire;
    DirectionNameReads(p.direction);
    TitledFits(p.key);
  }

  lemma ValidKeyStripped(key: string)
    requires ValidKey(key)
    ensures Strip(key) == key != ""
  {
    assert KeyChar(Last(key));
    StripFixes(key);
  }

  lemma CsvNotBlank(lex: Lexer, p: Point)
    requires ValidKey(p.key)
    ensures !BlankRow(CsvOf(lex, p))
  {
    hide CsvOf;
    CsvCells(lex, p);
    ValidKeyStripped(p.key);
    assert CsvOf(lex, p)[CKey] == p.key;
  }

  /** The same for a CSV row, as long as its numbers read back. */
  lemma CsvReads(lex: Lexer, p: Point)
    requires NormalPoint(p) && ReadsBack(lex, p)
    ensures Reads(lex, Dictionary(ToCsvRaw(lex, p)), Retext(p))
  {
    hide ToCsvRaw, KeyOf, WireOf, ScalingOf, DirectionOf, LimitsOf, TitleOf, TextOf, CleanKey, Fits;
    hide NormalWire, NormalScaling, ReadsBackCode, ReadsBackOptional, Inverted, Cut, Strip, Titled;
    hide ShowCodes, Join, TypeName, DisplayName, AccessName, DirectionName, NumberCell, CsvOf, CsvFieldsRest, CsvFieldsWire;
    CsvKeyReads(lex, p);
    CsvWireReads(lex, p);
    CsvRestReads(lex, p);
    CsvWire(lex, ToCsvRaw(lex, p), p);
    CsvScaling(lex, ToCsvRaw(lex, p), p);
    CsvLimits(lex, ToCsvRaw(lex, p), p);
    CsvTexts(lex, ToCsvRaw(lex, p), p);
  }

  // ------------------------------------------------------- whole lists, round trip

  function RetextAll(ps: seq<Point>): (rs: seq<Point>)
    ensures |rs| == |ps| && forall i :: 0 <= i < |ps| ==> rs[i] == Retext(ps[i])
  {
    if ps == [] then [] else [Retext(ps[0])] + RetextAll(ps[1..])
  }

  predicate AllCanonical(ps: seq<Point>) {
    forall p :: p in ps ==> Canonical(p)
  }

  lemma RetextAllExactly(ps: seq<Point>)
    requires forall p :: p in ps ==> NormalPoint(p)
    ensures RetextAll(ps) == ps <==> AllCanonical(ps)
    ensures AllCanonical(RetextAll(ps)) && forall p :: p in RetextAll(ps) ==> NormalPoint(p)
  {
    hide NormalPoint, Retext, Canonical;
    forall i | 0 <= i < |ps|
      ensures (Retext(ps[i]) == ps[i] <==> Canonical(ps[i])) && Canonical(Retext(ps[i])) && NormalPoint(Retext(ps[i]))
    {
      assert ps[i] in ps;
      RetextExactly(ps[i]);
    }
    if AllCanonical(ps) {
      assert forall i :: 0 <= i < |ps| ==> ps[i] in ps;
    }
  }

  predicate HasKey(m: RegisterMap, key: string) {
    exists i :: 0 <= i < |m| && m[i].0 == key
  }

  lemma {:induction false} PutAppends(m: RegisterMap, key: string, row: Row)
    requires !HasKey(m, key)
    ensures Put(m, key, row) == m + [(key, row)]
  {
    if m != [] {
      assert m[0].0 != key;
      assert forall i :: 0 <= i < |m[1..]| ==> m[1..][i] == m[i + 1];
      PutAppends(m[1..], key, row);
      assert m == [m[0]] + m[1..];
    }
  }

  /** With distinct keys the register map lists the signals in their order. */
  lemma {:induction false} MapListsPoints(ps: seq<Point>)
    requires DistinctKeys(ps)
    ensures |ToRegisterMap(ps)| == |ps|
    ensures forall i :: 0 <= i < |ps| ==> ToRegisterMap(ps)[i] == (ps[i].key, Dictionary(Register(ps[i])))
  {
    hide Register;
    if ps != [] {
      MapListsPoints(Front(ps));
      PutAppends(ToRegisterMap(Front(ps)), Last(ps).key, Dictionary(Register(Last(ps))));
    }
  }

  lemma {:induction false} RawsList(m: RegisterMap)
    requires forall i :: 0 <= i < |m| ==> m[i].1.Dictionary?
    ensures |RawsOfMap(m)| == |m|
    ensures forall i :: 0 <= i < |m| ==> RawsOfMap(m)[i] == Dictionary(RawOfRegister(m[i].0, m[i].1.dict))
  {
    hide RawOfRegister;
    if m != [] {
      RawsList(m[1..]);
    }
  }

  lemma DistinctAfterRetext(ps: seq<Point>)
    requires DistinctKeys(ps)
    ensures DistinctKeys(RetextAll(ps))
  {
  }

  /** The codes of a signal are told apart by the language's digit test. */
  predicate CodesReadBack(lex: Lexer, ps: seq<Point>) {
    forall p :: p in ps ==> forall c :: c in p.scaling.invalidValues ==> ReadsBackCode(lex, c)
  }

  /** Register map round trip: what comes back is the list with its texts cleaned. */
  lemma RegisterMapRoundTrip(lex: Lexer, ps: seq<Point>)
    requires NormalList(ps) && CodesReadBack(lex, ps)
    ensures FromRegisterMap(lex, ToRegisterMap(ps)) == Ok(RetextAll(ps))
  {
    hide RawOfRegister, Register, PointOf, KeyOf, ValidKey, NormalPoint, Retext, ReadsBackCode;
    var m := ToRegisterMap(ps);
    var rows := RawsOfMap(m);
    MapListsPoints(ps);
    RawsList(m);
    forall i | 0 <= i < |ps| ensures Reads(lex, rows[i], RetextAll(ps)[i]) {
      assert ps[i] in ps;
      RegisterReads(lex, ps[i]);
    }
    DistinctAfterRetext(ps);
    NormalizeRowsExactly(lex, rows, {}, RetextAll(ps));
  }

  /** It returns the very same list exactly when every text field is canonical; what one trip
      returns is canonical, so a second trip changes nothing. */
  lemma RegisterMapRoundTripExactly(lex: Lexer, ps: seq<Point>)
    requires NormalList(ps) && CodesReadBack(lex, ps)
    ensures FromRegisterMap(lex, ToRegisterMap(ps)) == Ok(ps) <==> AllCanonical(ps)
    ensures AllCanonical(RetextAll(ps)) && RetextAll(RetextAll(ps)) == RetextAll(ps)
  {
    hide FromRegisterMap, ToRegisterMap, NormalPoint, ReadsBackCode, Canonical;
    RegisterMapRoundTrip(lex, ps);
    RetextAllExactly(ps);
    RetextAllExactly(RetextAll(ps));
  }
}
