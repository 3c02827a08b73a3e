/** Draft, test, confirm, roll back and clone the datapoint map of site-defined equipment
    (apps/devices/datapoint_maps.py), with what the rest of the Hub may do in between. */
module MapLifecycle {

  import opened Common
  import opened DatapointMaps

  type DeviceId = nat
  type TeamId = nat
  type Checksum = string

  datatype MapStatus = Draft | Testing | AwaitingConfirmation | Confirmed | NeedsAttention

  datatype SignalStatus = SignalSuccess | SignalWarning | SignalOther

  /** One reported signal of a live test. */
  datatype Signal = Signal(key: Option<string>, status: SignalStatus, blocking: bool)

  /** A live test as it reports itself; checksum is the one its request was sent with. */
  datatype TestResult = TestResult(succeeded: bool, checksum: Checksum, signals: seq<Signal>)

  datatype Revision = Revision(number: nat, datapoints: seq<Point>, pointsChecksum: Checksum, confirmedChecksum: Checksum)

  datatype Mapping = Mapping(
    datapoints: seq<Point>, status: MapStatus, lastValidation: Option<TestResult>,
    testedChecksum: Checksum, confirmedChecksum: Checksum, revisions: seq<Revision>)

  /** Everything the mapping checksum covers. */
  datatype Tested = Tested(protocol: string, connection: string, datapoints: seq<Point>)

  /** What a request has read of the equipment and of its map before it writes. */
  datatype Reading = Reading(protocol: string, connection: string, mapping: Mapping)

  /** Equipment: siteDefined tells whether its template asks for a site map; readings holds what
      the requests that record a test or confirm have read and may still act on. */
  datatype Device = Device(
    team: TeamId, protocol: string, connection: string, siteDefined: bool, template: RegisterMap,
    mapping: Option<Mapping>, readings: map<nat, Reading>)

  /** mappingSum and pointsSum stand for SHA-256 over the canonical JSON of their argument. */
  datatype Sums = Sums(mappingSum: Tested -> Checksum, pointsSum: seq<Point> -> Checksum)

  ghost predicate Faithful(sums: Sums) {
    && (forall a, b :: sums.mappingSum(a) == sums.mappingSum(b) ==> a == b)
    && (forall a, b :: sums.pointsSum(a) == sums.pointsSum(b) ==> a == b)
    && (forall a :: sums.mappingSum(a) != "")
  }

  function Subject(d: Device, points: seq<Point>): Tested {
    Tested(d.protocol, d.connection, points)
  }

  /** What the request takes the equipment's settings to be, with the given signals. */
  function SubjectRead(read: Reading, points: seq<Point>): Tested {
    Tested(read.protocol, read.connection, points)
  }

  // -------------------------------------------------------------- one mapping

  const EMPTY := Mapping([], Draft, None, "", "", [])

  /** save and reset_for_template: the points change and every trace of a test goes. */
  function Redrafted(m: Mapping, points: seq<Point>): Mapping {
    Mapping(points, Draft, None, "", "", m.revisions)
  }

  function ReturnedKeys(signals: seq<Signal>): set<Option<string>> {
    set s | s in signals :: s.key
  }

  function MappedKeys(points: seq<Point>): set<Option<string>> {
    set p | p in points :: Some(p.key)
  }

  predicate Usable(s: Signal) {
    (s.status.SignalSuccess? || s.status.SignalWarning?) && !s.blocking
  }

  /** The computation of "successful" in record_device_datapoint_validation. */
  predicate Passing(r: TestResult, points: seq<Point>) {
    && r.signals != [] && |r.signals| == |points|
    && |r.signals| == |ReturnedKeys(r.signals)|
    && ReturnedKeys(r.signals) == MappedKeys(points)
    && forall s :: s in r.signals ==> Usable(s)
  }

  /** The test counts: it succeeded, passed and was made with the current settings. */
  predicate Accepted(sums: Sums, m: Mapping, now: Tested, r: TestResult) {
    r.succeeded && Passing(r, m.datapoints) && r.checksum == sums.mappingSum(now)
  }

  function Recorded(sums: Sums, m: Mapping, now: Tested, r: TestResult): Mapping {
    if Accepted(sums, m, now, r) then
      m.(status := AwaitingConfirmation, lastValidation := Some(r), testedChecksum := r.checksum, confirmedChecksum := "")
    else
      m.(status := NeedsAttention, lastValidation := Some(r), testedChecksum := "", confirmedChecksum := "")
  }

  predicate Confirmable(sums: Sums, m: Mapping, now: Tested) {
    m.status == AwaitingConfirmation && m.testedChecksum != "" && m.testedChecksum == sums.mappingSum(now)
  }

  function WithRevision(sums: Sums, m: Mapping): Mapping {
    var points := sums.pointsSum(m.datapoints);
    if m.revisions != [] && Last(m.revisions).pointsChecksum == points
       && Last(m.revisions).confirmedChecksum == m.confirmedChecksum
    then m
    else
      var number := if m.revisions == [] then 1 else Last(m.revisions).number + 1;
      m.(revisions := m.revisions + [Revision(number, m.datapoints, points, m.confirmedChecksum)])
  }

  /** confirm_device_datapoint_map: None stands for its two refusals. */
  function Confirmation(sums: Sums, m: Mapping, now: Tested): Option<Mapping> {
    var current := sums.mappingSum(now);
    if m.status == Confirmed && m.confirmedChecksum == current then Some(m)
    else if !Confirmable(sums, m, now) then None
    else Some(WithRevision(sums, m.(status := Confirmed, confirmedChecksum := current)))
  }

  // ------------------------------------------------------------- one equipment

  /** ensure_device_datapoint_map: None when the equipment has a fixed template or its
      starter map is not valid. */
  function Ensured(lex: Lexer, d: Device): Option<Mapping> {
    if !d.siteDefined then None
    else if d.mapping.Some? then d.mapping
    else match FromRegisterMap(lex, d.template)
      case Err(_) => None
      case Ok(points) => Some(EMPTY.(datapoints := points))
  }

  /** The raw row a normalised signal is when it is normalised again. */
  function Stored(p: Point): Dict {
    map[
      FKey := Text(p.key), FLabel := Text(p.title), FAddress := Whole(p.address),
      FReadFunctionCode := Whole(p.wire.readCode), FDataType := Text(TypeName(p.wire.dataType)),
      FObjectsCount := Whole(p.wire.count), FUnit := Text(p.unit), FMultiplier := Number(p.scaling.multiplier),
      FOffset := Number(p.scaling.offset), FInvalidValues := Items(CodeValues(p.scaling.invalidValues)),
      FEnergyDirection := Text(DirectionName(p.direction)), FAccess := Text(AccessName(p.wire.access)),
      FWriteFunctionCode := if p.wire.writeCode.Some? then Whole(p.wire.writeCode.value) else Null,
      FDisplayType := Text(DisplayName(p.wire.display)), FNormalMin := Bound(p.limits.normalMin),
      FNormalMax := Bound(p.limits.normalMax), FSafetyMin := Bound(p.limits.safetyMin),
      FSafetyMax := Bound(p.limits.safetyMax), FAlertSuggestion := Text(p.alert)]
  }

  function StoredRows(ps: seq<Point>): seq<Row> {
    if ps == [] then [] else [Dictionary(Stored(ps[0]))] + StoredRows(ps[1..])
  }

  /** save_device_datapoint_map */
  function Saved(lex: Lexer, d: Device, team: TeamId, rows: seq<Row>): Option<Mapping> {
    if d.team != team then None
    else match Normalize(lex, rows)
      case Err(_) => None
      case Ok(points) =>
        match Ensured(lex, d)
        case None => None
        case Some(m) => Some(Redrafted(m, points))
  }

  /** effective_register_map(require_confirmed=True) of site-defined equipment. */
  function Effective(sums: Sums, d: Device): RegisterMap {
    if !d.siteDefined then d.template
    else if d.mapping.None? then []
    else
      var m := d.mapping.value;
      if m.status != Confirmed then []
      else if m.confirmedChecksum == "" || m.confirmedChecksum != sums.mappingSum(Subject(d, m.datapoints)) then []
      else ToRegisterMap(m.datapoints)
  }

  // ----------------------------------------------------------------- the fleet

  /** Recording a test takes no lock: it reads the row and later saves the whole row. A confirmation
      locks the row, but the equipment's settings it compares with were read before. */
  datatype Step =
    | Ensure(device: DeviceId)
    | ReadDevice(device: DeviceId, worker: nat)
    | Save(device: DeviceId, team: TeamId, rows: seq<Row>)
    | ResetForTemplate(device: DeviceId, team: TeamId)
    | StartTest(device: DeviceId)
    | RecordTest(device: DeviceId, worker: nat, result: TestResult)
    | Confirm(device: DeviceId, team: TeamId, worker: nat)
    | RollBack(device: DeviceId, team: TeamId, revision: nat)
    | Clone(source: DeviceId, device: DeviceId, team: TeamId)
    | Reconnect(device: DeviceId, protocol: string, connection: string)
    | ChooseTemplate(device: DeviceId, siteDefined: bool, template: RegisterMap)

  type Fleet = map<DeviceId, Device>

  function Updated(fleet: Fleet, id: DeviceId, m: Option<Mapping>): Fleet {
    if id in fleet && m.Some? then fleet[id := fleet[id].(mapping := m)] else fleet
  }

  /** The mapping of the target after a step; None when the step leaves it alone. */
  function MappingAfter(sums: Sums, lex: Lexer, fleet: Fleet, step: Step): Option<Mapping> {
    if step.device !in fleet then None
    else
      var d := fleet[step.device];
      match step
      case Ensure(_) => Ensured(lex, d)
      case Save(_, team, rows) => Saved(lex, d, team, rows)
      case ResetForTemplate(_, team) =>
        if d.team != team || Ensured(lex, d).None? then None
        else
          var points := FromRegisterMap(lex, d.template);
          if points.Err? then None else Some(Redrafted(Ensured(lex, d).value, points.value))
      case StartTest(_) =>
        if !d.siteDefined || d.mapping.None? || d.mapping.value.datapoints == [] then None
        else Some(d.mapping.value.(status := Testing))
      case RecordTest(_, w, r) =>
        if w !in d.readings || d.mapping.None? then None
        else
          var read := d.readings[w];
          Some(Recorded(sums, read.mapping, SubjectRead(read, read.mapping.datapoints), r)
               .(revisions := d.mapping.value.revisions))
      case Confirm(_, team, w) =>
        if d.team != team || w !in d.readings || d.mapping.None? then None
        else Confirmation(sums, d.mapping.value, SubjectRead(d.readings[w], d.mapping.value.datapoints))
      case RollBack(_, team, k) =>
        var m := Ensured(lex, d);
        if d.team != team || m.None? || !(1 <= k <= |m.value.revisions|) then None
        else Saved(lex, d, team, StoredRows(m.value.revisions[k - 1].datapoints))
      case Clone(source, _, team) =>
        if source !in fleet || fleet[source].team != team || d.team != team || fleet[source].protocol != d.protocol
           || Ensured(lex, fleet[source]).None? || Ensured(lex, fleet[source]).value.status != Confirmed
        then None
        else Saved(lex, d, team, StoredRows(Ensured(lex, fleet[source]).value.datapoints))
      case ReadDevice(_, _) => None
      case Reconnect(_, _, _) => None
      case ChooseTemplate(_, _, _) => None
  }

  function Do(sums: Sums, lex: Lexer, fleet: Fleet, step: Step): Fleet {
    if step.device !in fleet then fleet
    else
      var d := fleet[step.device];
      match step
      case ReadDevice(id, w) =>
        var m := Ensured(lex, d);
        if m.None? then fleet
        else fleet[id := d.(mapping := m, readings := d.readings[w := Reading(d.protocol, d.connection, m.value)])]
      case Reconnect(id, protocol, connection) => fleet[id := d.(protocol := protocol, connection := connection)]
      case ChooseTemplate(id, siteDefined, template) => fleet[id := d.(siteDefined := siteDefined, template := template)]
      case _ => Updated(fleet, step.device, MappingAfter(sums, lex, fleet, step))
  }

  function Run(sums: Sums, lex: Lexer, fleet: Fleet, steps: seq<Step>): Fleet {
    if steps == [] then fleet else Do(sums, lex, Run(sums, lex, fleet, Front(steps)), Last(steps))
  }
}
