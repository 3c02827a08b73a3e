/** Datapoint maps of programmable equipment (apps/devices/datapoint_maps.py): the
    normaliser of user-entered signals and its two printer/parser pairs, the register map
    and the CSV rows. */
module DatapointMaps {

  import opened Common
  import opened TextRules

  // ------------------------------------------------------------- loose values

  /** A JSON value as a form, an import or a stored map may carry it. NotFinite is a float
      infinity or NaN. */
  datatype Value =
    | Null | Flag(flag: bool) | Whole(whole: int) | Number(number: real) | NotFinite
    | Text(text: string) | Items(items: seq<Value>)

  datatype Reading = Finite(number: real) | Unbounded | NotNumeric

  /** The language's own conversions: str of a value that is not text, int and float of a
      text, and whether a text without its leading signs is all digits. */
  datatype Lexer = Lexer(
    show: Value -> string, readInt: string -> Option<int>, readFloat: string -> Reading,
    digits: string -> bool)

  predicate Truthy(v: Value) {
    match v
    case Null => false
    case Flag(b) => b
    case Whole(n) => n != 0
    case Number(r) => r != 0.0
    case NotFinite => true
    case Text(s) => s != ""
    case Items(xs) => xs != []
  }

  function Or(v: Value, w: Value): Value {
    if Truthy(v) then v else w
  }

  predicate Absent(v: Value) {
    v.Null? || v == Text("")
  }

  function Str(lex: Lexer, v: Value): string {
    if v.Text? then v.text else lex.show(v)
  }

  function Truncate(r: real): int {
    if r >= 0.0 then r.Floor else -((-r).Floor)
  }

  function IntOf(lex: Lexer, v: Value): Option<int> {
    match v
    case Flag(b) => Some(if b then 1 else 0)
    case Whole(n) => Some(n)
    case Number(r) => Some(Truncate(r))
    case Text(s) => lex.readInt(s)
    case _ => None
  }

  function FloatOf(lex: Lexer, v: Value): Reading {
    match v
    case Flag(b) => Finite(if b then 1.0 else 0.0)
    case Whole(n) => Finite(n as real)
    case Number(r) => Finite(r)
    case NotFinite => Unbounded
    case Text(s) => lex.readFloat(s)
    case _ => NotNumeric
  }

  // ------------------------------------------------------------------- signals

  datatype DataType = Bool | Uint16 | Int16 | Uint32 | Int32 | Float32 | Uint64 | Int64 | Float64
  datatype Access = ReadOnly | ReadWrite
  datatype Display = ValueDisplay | Gauge | Trend | StatusDisplay
  datatype Direction = NoDirection | Import | Export | Net
  datatype Code = IntCode(int) | FloatCode(real)

  function TypeName(t: DataType): string {
    match t
    case Bool => "bool" case Uint16 => "uint16" case Int16 => "int16" case Uint32 => "uint32"
    case Int32 => "int32" case Float32 => "float32" case Uint64 => "uint64" case Int64 => "int64"
    case Float64 => "float64"
  }

  function TypeNamed(s: string): Option<DataType> {
    if s == "bool" then Some(Bool) else if s == "uint16" then Some(Uint16) else if s == "int16" then Some(Int16)
    else if s == "uint32" then Some(Uint32) else if s == "int32" then Some(Int32)
    else if s == "float32" then Some(Float32) else if s == "uint64" then Some(Uint64)
    else if s == "int64" then Some(Int64) else if s == "float64" then Some(Float64) else None
  }

  function AccessName(a: Access): string {
    match a case ReadOnly => "read_only" case ReadWrite => "read_write"
  }

  function AccessNamed(s: string): Option<Access> {
    if s == "read_only" then Some(ReadOnly) else if s == "read_write" then Some(ReadWrite) else None
  }

  function DisplayName(d: Display): string {
    match d case ValueDisplay => "value" case Gauge => "gauge" case Trend => "trend" case StatusDisplay => "status"
  }

  function DisplayNamed(s: string): Option<Display> {
    if s == "value" then Some(ValueDisplay) else if s == "gauge" then Some(Gauge)
    else if s == "trend" then Some(Trend) else if s == "status" then Some(StatusDisplay) else None
  }

  function DirectionName(d: Direction): string {
    match d case NoDirection => "none" case Import => "import" case Export => "export" case Net => "net"
  }

  function DirectionNamed(s: string): Option<Direction> {
    if s == "none" then Some(NoDirection) else if s == "import" then Some(Import)
    else if s == "export" then Some(Export) else if s == "net" then Some(Net) else None
  }

  /** default_register_count: the number of 16-bit objects of a signal. */
  function RegisterCount(t: DataType): int {
    match t
    case Uint64 | Int64 | Float64 => 4
    case Uint32 | Int32 | Float32 => 2
    case _ => 1
  }

  predicate WriteCode(c: int) {
    c == 5 || c == 6 || c == 15 || c == 16
  }

  /** How a signal is read and written. */
  datatype Wire = Wire(
    dataType: DataType, readCode: int, count: int, access: Access, writeCode: Option<int>, display: Display)

  /** How a raw reading becomes a value. */
  datatype Scaling = Scaling(multiplier: real, offset: real, invalidValues: seq<Code>)

  datatype Limits = Limits(
    normalMin: Option<real>, normalMax: Option<real>, safetyMin: Option<real>, safetyMax: Option<real>)

  /** A normalised signal. */
  datatype Point = Point(
    key: string, title: string, address: int, wire: Wire, unit: string, scaling: Scaling,
    direction: Direction, limits: Limits, alert: string)

  // --------------------------------------------------------------- normalising

  /** The names under which raw rows, stored registers and CSV rows carry their values. */
  datatype Field =
    | FKey | FLabel | FAddress | FReadFunctionCode | FFunctionCode | FCamelReadFunctionCode
    | FDataType | FType | FObjectsCount | FCamelObjectsCount | FUnit | FMultiplier | FScale | FOffset
    | FInvalidValues | FCamelInvalidValues | FEnergyDirection | FAccess | FWritable
    | FWriteFunctionCode | FCamelWriteFunctionCode | FDisplayType | FNormalMin | FNormalMax
    | FSafetyMin | FSafetyMax | FMin | FMax | FAlertSuggestion

  type Dict = map<Field, Value>

  function Get(d: Dict, f: Field): Value {
    if f in d then d[f] else Null
  }

  function GetOr(d: Dict, f: Field, default: Value): Value {
    if f in d then d[f] else default
  }

  datatype Row = NotADict | Dictionary(dict: Dict)

  datatype Fault =
    | NoSignals | TooManySignals | InvalidRow | BadKey | DuplicateKey(key: string) | NoAddress | BadType
    | BadInteger | OutOfRange | BadCount | BadAccess | BadWriteCode | BadDisplay | BadNumber | ZeroMultiplier
    | TooManyCodes | BadCode | BadDirection | NormalInverted | SafetyInverted

  /** _integer */
  function Integer(lex: Lexer, v: Value, low: int, high: int): Result<int, Fault> {
    var n := IntOf(lex, v);
    if n.None? then Err(BadInteger) else if low <= n.value <= high then Ok(n.value) else Err(OutOfRange)
  }

  /** _number with a default for an absent value */
  function Numeric(lex: Lexer, v: Value, default: Option<real>): Result<Option<real>, Fault> {
    if Absent(v) then Ok(default)
    else match FloatOf(lex, v)
      case Finite(r) => Ok(Some(r))
      case _ => Err(BadNumber)
  }

  function CodeOf(lex: Lexer, v: Value): Result<Code, Fault> {
    if lex.digits(Str(lex, v)) then
      var n := IntOf(lex, v);
      if n.Some? then Ok(IntCode(n.value)) else Err(BadCode)
    else match FloatOf(lex, v)
      case Finite(r) => Ok(FloatCode(r))
      case _ => Err(BadCode)
  }

  function CodesOf(lex: Lexer, vs: seq<Value>): Result<seq<Code>, Fault> {
    if vs == [] then Ok([])
    else match CodeOf(lex, vs[0])
      case Err(e) => Err(e)
      case Ok(c) =>
        match CodesOf(lex, vs[1..])
        case Err(e) => Err(e)
        case Ok(cs) => Ok([c] + cs)
  }

  function Texts(words: seq<string>): seq<Value> {
    if words == [] then [] else [Text(words[0])] + Texts(words[1..])
  }

  function InvalidCodes(lex: Lexer, d: Dict): Result<seq<Code>, Fault> {
    var raw := Or(GetOr(d, FInvalidValues, GetOr(d, FCamelInvalidValues, Items([]))), Items([]));
    var listed := if raw.Text? then Items(Texts(StripWords(Split(raw.text)))) else raw;
    if !listed.Items? || |listed.items| > 8 then Err(TooManyCodes) else CodesOf(lex, listed.items)
  }

  function KeyOf(lex: Lexer, d: Dict): string {
    CleanKey(Str(lex, Or(Get(d, FKey), Text(""))))
  }

  function TypeOf(lex: Lexer, d: Dict): Option<DataType> {
    TypeNamed(Lower(Str(lex, Or(Get(d, FDataType), Or(Get(d, FType), Text("uint16"))))))
  }

  function AccessOf(lex: Lexer, d: Dict): Option<Access> {
    AccessNamed(Str(lex, Or(Get(d, FAccess), Text(if Truthy(Get(d, FWritable)) then "read_write" else "read_only"))))
  }

  function WriteCodeOf(lex: Lexer, d: Dict, t: DataType, access: Access): Result<Option<int>, Fault> {
    if access.ReadOnly? then Ok(None)
    else
      var default := if t.Bool? then 5 else if RegisterCount(t) > 1 then 16 else 6;
      match Integer(lex, Or(Get(d, FWriteFunctionCode), Or(Get(d, FCamelWriteFunctionCode), Whole(default))), 5, 16)
      case Err(e) => Err(e)
      case Ok(c) => if WriteCode(c) then Ok(Some(c)) else Err(BadWriteCode)
  }

  function DisplayOf(lex: Lexer, d: Dict, t: DataType): Option<Display> {
    DisplayNamed(Str(lex, Or(Get(d, FDisplayType), Text(if t.Bool? then "status" else "value"))))
  }

  function DirectionOf(lex: Lexer, d: Dict): Option<Direction> {
    DirectionNamed(Lower(Str(lex, Or(Get(d, FEnergyDirection), Text("none")))))
  }

  predicate Inverted(low: Option<real>, high: Option<real>) {
    low.Some? && high.Some? && low.value > high.value
  }

  function TitleOf(lex: Lexer, d: Dict, key: string): string {
    Cut(Strip(Str(lex, Or(Get(d, FLabel), Text(Titled(key, false))))), 200)
  }

  function TextOf(lex: Lexer, d: Dict, f: Field, limit: nat): string {
    Cut(Strip(Str(lex, Or(Get(d, f), Text("")))), limit)
  }

  function WireOf(lex: Lexer, d: Dict): Result<Wire, Fault> {
    var t := TypeOf(lex, d);
    if t.None? then Err(BadType) else
    var read := Integer(lex, GetOr(d, FReadFunctionCode, GetOr(d, FFunctionCode, Whole(3))), 1, 4);
    if read.Err? then Err(read.error) else
    var rawCount := GetOr(d, FObjectsCount, Get(d, FCamelObjectsCount));
    var count := Integer(lex, if Absent(rawCount) then Whole(RegisterCount(t.value)) else rawCount, 1, 4);
    if count.Err? then Err(count.error) else
    if count.value != RegisterCount(t.value) then Err(BadCount) else
    var access := AccessOf(lex, d);
    if access.None? then Err(BadAccess) else
    var write := WriteCodeOf(lex, d, t.value, access.value);
    if write.Err? then Err(write.error) else
    var display := DisplayOf(lex, d, t.value);
    if display.None? then Err(BadDisplay) else
    Ok(Wire(t.value, read.value, count.value, access.value, write.value, display.value))
  }

  function ScalingOf(lex: Lexer, d: Dict): Result<Scaling, Fault> {
    var multiplier := Numeric(lex, GetOr(d, FMultiplier, GetOr(d, FScale, Whole(1))), Some(1.0));
    if multiplier.Err? then Err(multiplier.error) else
    if multiplier.value == Some(0.0) then Err(ZeroMultiplier) else
    var offset := Numeric(lex, GetOr(d, FOffset, Whole(0)), Some(0.0));
    if offset.Err? then Err(offset.error) else
    var codes := InvalidCodes(lex, d);
    if codes.Err? then Err(codes.error) else
    Ok(Scaling(Plain(multiplier.value, 1.0), Plain(offset.value, 0.0), codes.value))
  }

  function Plain(n: Option<real>, default: real): real {
    if n.Some? then n.value else default
  }

  function LimitsOf(lex: Lexer, d: Dict): Result<Limits, Fault> {
    var nl := Numeric(lex, Get(d, FNormalMin), None);
    if nl.Err? then Err(nl.error) else
    var nh := Numeric(lex, Get(d, FNormalMax), None);
    if nh.Err? then Err(nh.error) else
    var sl := Numeric(lex, GetOr(d, FSafetyMin, Get(d, FMin)), None);
    if sl.Err? then Err(sl.error) else
    var sh := Numeric(lex, GetOr(d, FSafetyMax, Get(d, FMax)), None);
    if sh.Err? then Err(sh.error) else
    if Inverted(nl.value, nh.value) then Err(NormalInverted)
    else if Inverted(sl.value, sh.value) then Err(SafetyInverted)
    else Ok(Limits(nl.value, nh.value, sl.value, sh.value))
  }

  /** One signal once its key is accepted: the remaining checks in the order of the source. */
  function PointOf(lex: Lexer, d: Dict, key: string): Result<Point, Fault> {
    if Absent(Get(d, FAddress)) then Err(NoAddress) else
    var wire := WireOf(lex, d);
    if wire.Err? then Err(wire.error) else
    var scaling := ScalingOf(lex, d);
    if scaling.Err? then Err(scaling.error) else
    var direction := DirectionOf(lex, d);
    if direction.None? then Err(BadDirection) else
    var limits := LimitsOf(lex, d);
    if limits.Err? then Err(limits.error) else
    var address := Integer(lex, Get(d, FAddress), 0, 65535);
    if address.Err? then Err(address.error) else
    Ok(Point(key, TitleOf(lex, d, key), address.value, wire.value, TextOf(lex, d, FUnit, 32), scaling.value,
             direction.value, limits.value, TextOf(lex, d, FAlertSuggestion, 300)))
  }

  function NormalizeRows(lex: Lexer, rows: seq<Row>, seen: set<string>): Result<seq<Point>, Fault> {
    if rows == [] then Ok([])
    else if rows[0].NotADict? then Err(InvalidRow)
    else
      var d := rows[0].dict;
      var key := KeyOf(lex, d);
      if !ValidKey(key) then Err(BadKey)
      else if key in seen then Err(DuplicateKey(key))
      else match PointOf(lex, d, key)
        case Err(e) => Err(e)
        case Ok(p) =>
          match NormalizeRows(lex, rows[1..], seen + {key})
          case Err(e) => Err(e)
          case Ok(ps) => Ok([p] + ps)
  }

  const MAX_SIGNALS: nat := 20

  /** normalize_datapoints */
  function Normalize(lex: Lexer, rows: seq<Row>): Result<seq<Point>, Fault> {
    if rows == [] then Err(NoSignals)
    else if |rows| > MAX_SIGNALS then Err(TooManySignals)
    else NormalizeRows(lex, rows, {})
  }

  // -------------------------------------------------------------- register map

  function Bound(n: Option<real>): Value {
    if n.Some? then Number(n.value) else Null
  }

  function CodeValue(c: Code): Value {
    match c case IntCode(n) => Whole(n) case FloatCode(r) => Number(r)
  }

  function CodeValues(cs: seq<Code>): seq<Value> {
    if cs == [] then [] else [CodeValue(cs[0])] + CodeValues(cs[1..])
  }

  /** One entry of datapoints_to_register_map. */
  function Register(p: Point): Dict {
    var config: Dict := map[
      FLabel := Text(p.title), FAddress := Whole(p.address), FFunctionCode := Whole(p.wire.readCode),
      FCamelReadFunctionCode := Whole(p.wire.readCode), FType := Text(TypeName(p.wire.dataType)),
      FCamelObjectsCount := Whole(p.wire.count), FUnit := Text(p.unit), FMultiplier := Number(p.scaling.multiplier),
      FOffset := Number(p.scaling.offset), FWritable := Flag(p.wire.access.ReadWrite?),
      FDisplayType := Text(DisplayName(p.wire.display)), FNormalMin := Bound(p.limits.normalMin),
      FNormalMax := Bound(p.limits.normalMax), FSafetyMin := Bound(p.limits.safetyMin), FSafetyMax := Bound(p.limits.safetyMax),
      FAlertSuggestion := Text(p.alert), FEnergyDirection := Text(DirectionName(p.direction))];
    var coded := if p.scaling.invalidValues == [] then config
                 else config[FCamelInvalidValues := Items(CodeValues(p.scaling.invalidValues))];
    if p.wire.writeCode.None? then coded else coded[FCamelWriteFunctionCode := Whole(p.wire.writeCode.value)]
  }

  /** A register map in insertion order; a repeated key overwrites its entry in place. */
  type RegisterMap = seq<(string, Row)>

  function Put(m: RegisterMap, key: string, row: Row): RegisterMap {
    if m == [] then [(key, row)]
    else if m[0].0 == key then [(key, row)] + m[1..]
    else [m[0]] + Put(m[1..], key, row)
  }

  function ToRegisterMap(ps: seq<Point>): RegisterMap {
    if ps == [] then [] else Put(ToRegisterMap(Front(ps)), Last(ps).key, Dictionary(Register(Last(ps))))
  }

  /** The whole number a value is equal to, if any; true and false are equal to 1 and 0. */
  function WholeOf(v: Value): Option<int> {
    match v
    case Flag(b) => Some(if b then 1 else 0)
    case Whole(n) => Some(n)
    case Number(r) => if r == r.Floor as real then Some(r.Floor) else None
    case _ => None
  }

  function ReadCodeOf(config: Dict): Value {
    var legacy := GetOr(config, FFunctionCode, Whole(3));
    var read := Get(config, FCamelReadFunctionCode);
    if !read.Null? then read
    else if WholeOf(legacy).Some? && 1 <= WholeOf(legacy).value <= 4 then legacy
    else if Get(config, FType) == Text("bool") then Whole(1) else Whole(3)
  }

  function LegacyWriteCode(config: Dict): Value {
    var legacy := GetOr(config, FFunctionCode, Whole(3));
    var write := Get(config, FCamelWriteFunctionCode);
    if write.Null? && WholeOf(legacy).Some? && WriteCode(WholeOf(legacy).value) then legacy else write
  }

  /** The raw row register_map_to_datapoints builds for one entry. */
  function RawOfRegister(key: string, config: Dict): Dict {
    map[
      FKey := Text(key), FLabel := Or(Get(config, FLabel), Text(Titled(key, false))),
      FAddress := GetOr(config, FAddress, Whole(0)), FReadFunctionCode := ReadCodeOf(config),
      FDataType := GetOr(config, FType, Text("uint16")), FObjectsCount := Get(config, FCamelObjectsCount),
      FUnit := GetOr(config, FUnit, Text("")), FMultiplier := GetOr(config, FMultiplier, GetOr(config, FScale, Whole(1))),
      FOffset := GetOr(config, FOffset, Whole(0)),
      FAccess := Text(if Truthy(Get(config, FWritable)) then "read_write" else "read_only"),
      FWriteFunctionCode := LegacyWriteCode(config),
      FDisplayType := GetOr(config, FDisplayType, Text(if Get(config, FType) == Text("bool") then "status" else "value")),
      FNormalMin := Get(config, FNormalMin), FNormalMax := Get(config, FNormalMax),
      FSafetyMin := GetOr(config, FSafetyMin, Get(config, FMin)), FSafetyMax := GetOr(config, FSafetyMax, Get(config, FMax)),
      FAlertSuggestion := GetOr(config, FAlertSuggestion, Text("")),
      FInvalidValues := GetOr(config, FCamelInvalidValues, Items([])),
      FEnergyDirection := GetOr(config, FEnergyDirection, Text("none"))]
  }

  function RawsOfMap(m: RegisterMap): seq<Row> {
    if m == [] then []
    else if m[0].1.NotADict? then RawsOfMap(m[1..])
    else [Dictionary(RawOfRegister(m[0].0, m[0].1.dict))] + RawsOfMap(m[1..])
  }

  /** register_map_to_datapoints */
  function FromRegisterMap(lex: Lexer, m: RegisterMap): Result<seq<Point>, Fault> {
    var rows := RawsOfMap(m);
    if rows == [] then Ok([]) else Normalize(lex, rows)
  }

  // ----------------------------------------------------------------- CSV rows

  datatype Column =
    | CKey | CLabel | CAddress | CFunctionCode | CDataType | CRegisterCount | CUnit | CScale | COffset | CAccess
    | CWriteFunctionCode | CDisplayType | CNormalMin | CNormalMax | CSafetyMin | CSafetyMax | CAlertSuggestion
    | CInvalidValues | CEnergyDirection

  type CsvRow = map<Column, string>

  function NumberCell(lex: Lexer, n: Option<real>): string {
    if n.Some? then lex.show(Number(n.value)) else ""
  }

  function ShowCodes(lex: Lexer, cs: seq<Code>): seq<string> {
    if cs == [] then [] else [lex.show(CodeValue(cs[0]))] + ShowCodes(lex, cs[1..])
  }

  /** One row of datapoints_to_csv. */
  function CsvOf(lex: Lexer, p: Point): CsvRow {
    map[
      CKey := p.key, CLabel := p.title, CAddress := lex.show(Whole(p.address)),
      CFunctionCode := lex.show(Whole(p.wire.readCode)), CDataType := TypeName(p.wire.dataType),
      CRegisterCount := lex.show(Whole(p.wire.count)), CUnit := p.unit, CScale := lex.show(Number(p.scaling.multiplier)),
      COffset := lex.show(Number(p.scaling.offset)), CAccess := AccessName(p.wire.access),
      CWriteFunctionCode := if p.wire.writeCode.Some? then lex.show(Whole(p.wire.writeCode.value)) else "",
      CDisplayType := DisplayName(p.wire.display), CNormalMin := NumberCell(lex, p.limits.normalMin),
      CNormalMax := NumberCell(lex, p.limits.normalMax), CSafetyMin := NumberCell(lex, p.limits.safetyMin),
      CSafetyMax := NumberCell(lex, p.limits.safetyMax), CAlertSuggestion := p.alert,
      CInvalidValues := Join(ShowCodes(lex, p.scaling.invalidValues)), CEnergyDirection := DirectionName(p.direction)]
  }

  function ToCsv(lex: Lexer, ps: seq<Point>): seq<CsvRow> {
    if ps == [] then [] else [CsvOf(lex, ps[0])] + ToCsv(lex, ps[1..])
  }

  function Cell(row: CsvRow, c: Column): Value {
    if c in row then Text(row[c]) else Null
  }

  /** The raw row datapoints_from_csv builds from one CSV row. */
  function RawOfCsv(row: CsvRow): Dict {
    map[
      FKey := Cell(row, CKey), FLabel := Cell(row, CLabel), FAddress := Cell(row, CAddress),
      FReadFunctionCode := Or(Cell(row, CFunctionCode), Whole(3)),
      FDataType := Or(Cell(row, CDataType), Text("uint16")),
      FObjectsCount := Or(Cell(row, CRegisterCount), Null), FUnit := Cell(row, CUnit),
      FMultiplier := Or(Cell(row, CScale), Whole(1)), FOffset := Or(Cell(row, COffset), Whole(0)),
      FAccess := Or(Cell(row, CAccess), Text("read_only")),
      FWriteFunctionCode := Or(Cell(row, CWriteFunctionCode), Null),
      FDisplayType := Or(Cell(row, CDisplayType), Null), FNormalMin := Cell(row, CNormalMin),
      FNormalMax := Cell(row, CNormalMax), FSafetyMin := Cell(row, CSafetyMin), FSafetyMax := Cell(row, CSafetyMax),
      FAlertSuggestion := Cell(row, CAlertSuggestion), FInvalidValues := Cell(row, CInvalidValues),
      FEnergyDirection := Cell(row, CEnergyDirection)]
  }

  predicate BlankRow(row: CsvRow) {
    forall c :: c in row ==> Strip(row[c]) == ""
  }

  function CsvRaws(rows: seq<CsvRow>): seq<Row> {
    if rows == [] then []
    else if BlankRow(rows[0]) then CsvRaws(rows[1..])
    else [Dictionary(RawOfCsv(rows[0]))] + CsvRaws(rows[1..])
  }
}
