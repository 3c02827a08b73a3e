/** The Command Center panel layout (apps/dashboard/command_center.py): stored layouts are
    brought to a normal form, submitted ones are validated. */
module CommandLayout {

  import opened Common

  datatype PanelId = BusinessImpact | OperationsTrend | NeedsAttention | AssetMix | DeviceFleet | SitesActions

  const GRID_COLUMNS := 12
  const MAX_GRID_ROW := 200
  const REGISTRY: seq<PanelId> := [BusinessImpact, OperationsTrend, NeedsAttention, AssetMix, DeviceFleet, SitesActions]

  datatype Panel = Panel(id: PanelId, x: int, y: int, w: int, h: int, hidden: bool, order: int)

  function Default(id: PanelId): Panel {
    match id
    case BusinessImpact => Panel(id, 0, 0, 12, 2, false, 0)
    case OperationsTrend => Panel(id, 0, 2, 8, 4, false, 1)
    case NeedsAttention => Panel(id, 8, 2, 4, 4, false, 2)
    case AssetMix => Panel(id, 0, 6, 4, 4, false, 3)
    case DeviceFleet => Panel(id, 4, 6, 4, 5, false, 4)
    case SitesActions => Panel(id, 8, 6, 4, 5, false, 5)
  }

  datatype Size = Size(minW: int, maxW: int, minH: int, maxH: int)

  function SizeOf(id: PanelId): Size {
    match id
    case BusinessImpact => Size(6, 12, 2, 4)
    case OperationsTrend => Size(6, 12, 3, 6)
    case NeedsAttention => Size(4, 12, 3, 6)
    case AssetMix => Size(3, 6, 3, 6)
    case DeviceFleet | SitesActions => Size(4, 8, 3, 7)
  }

  predicate InBounds(p: Panel) {
    var size := SizeOf(p.id);
    && 0 <= p.x < GRID_COLUMNS && 0 <= p.y <= MAX_GRID_ROW
    && size.minW <= p.w <= size.maxW && size.minH <= p.h <= size.maxH && p.x + p.w <= GRID_COLUMNS
  }

  // ------------------------------------------------------------ stored layouts

  /** A stored number: absent, an integer, or something else with what int() makes of it. */
  datatype Cell = Missing | Int(n: int) | Other(asInt: Option<int>)

  datatype Flag = NoFlag | Bool(b: bool) | OtherFlag(truthy: bool)

  /** One element of a stored or submitted panel list; id is None when it is not in the registry. */
  datatype Entry =
    | NotADict
    | Entry(id: Option<PanelId>, x: Cell, y: Cell, w: Cell, h: Cell, hidden: Flag, order: Cell, extraKeys: bool)

  datatype Layout = NotALayout | Layout(supported: bool, panels: seq<Entry>)

  function ToInt(c: Cell): Option<int> {
    match c case Missing => None case Int(n) => Some(n) case Other(n) => n
  }

  predicate Truthy(f: Flag) {
    match f case NoFlag => false case Bool(b) => b case OtherFlag(t) => t
  }

  /** The last entry of the id wins. */
  function StoredFor(entries: seq<Entry>, id: PanelId): Option<Entry> {
    if entries == [] then None
    else if Last(entries).Entry? && Last(entries).id == Some(id) then Some(Last(entries))
    else StoredFor(Front(entries), id)
  }

  function ReadEntry(e: Entry, id: PanelId): Panel
    requires e.Entry?
  {
    var x, y, w, h := ToInt(e.x), ToInt(e.y), ToInt(e.w), ToInt(e.h);
    var order := if e.order.Missing? then Some(Default(id).order) else ToInt(e.order);
    if x.None? || y.None? || w.None? || h.None? || order.None? then Default(id)
    else
      var p := Panel(id, x.value, y.value, w.value, h.value, Truthy(e.hidden), order.value);
      if InBounds(p) then p else Default(id)
  }

  function PanelFor(entries: seq<Entry>, id: PanelId): Panel {
    match StoredFor(entries, id)
    case None => Default(id)
    case Some(e) => if e.Entry? then ReadEntry(e, id) else Default(id)
  }

  function PanelsFor(entries: seq<Entry>, ids: seq<PanelId>): (ps: seq<Panel>)
    ensures |ps| == |ids| && forall i :: 0 <= i < |ids| ==> ps[i] == PanelFor(entries, ids[i])
  {
    if ids == [] then [] else [PanelFor(entries, ids[0])] + PanelsFor(entries, ids[1..])
  }

  /** list.sort by mobile order: stable. */
  function Insert(ps: seq<Panel>, p: Panel): seq<Panel> {
    if ps == [] then [p]
    else if Last(ps).order <= p.order then ps + [p]
    else Insert(Front(ps), p) + [Last(ps)]
  }

  function Sort(ps: seq<Panel>): seq<Panel> {
    if ps == [] then [] else Insert(Sort(Front(ps)), Last(ps))
  }

  function Renumber(ps: seq<Panel>): (rs: seq<Panel>)
    ensures |rs| == |ps| && forall i :: 0 <= i < |ps| ==> rs[i] == ps[i].(order := i)
  {
    seq(|ps|, i requires 0 <= i < |ps| => ps[i].(order := i))
  }

  function DefaultLayout(): seq<Panel> {
    PanelsFor([], REGISTRY)
  }

  /** normalize_layout */
  function Normalize(layout: Layout): seq<Panel> {
    if layout.NotALayout? || !layout.supported then DefaultLayout()
    else Renumber(Sort(PanelsFor(layout.panels, REGISTRY)))
  }

  // ---------------------------------------------------------- submitted layouts

  datatype Fault =
    | UnsupportedSchema | TooManyPanels | UnsupportedFields | BadIdentifier | NotIntegers | NotBoolean | BadGeometry
    | MissingPanel | OrderNotUnique | Overlapping

  /** One submitted panel, checked in the order of the source. */
  function Submitted(e: Entry, taken: map<PanelId, Panel>): Result<Panel, Fault> {
    if e.NotADict? || e.extraKeys then Err(UnsupportedFields)
    else if e.id.None? || e.id.value in taken then Err(BadIdentifier)
    else if !e.x.Int? || !e.y.Int? || !e.w.Int? || !e.h.Int? || !e.order.Int? then Err(NotIntegers)
    else if !e.hidden.Bool? then Err(NotBoolean)
    else
      var p := Panel(e.id.value, e.x.n, e.y.n, e.w.n, e.h.n, e.hidden.b, e.order.n);
      if InBounds(p) && 0 <= p.order < |REGISTRY| then Ok(p) else Err(BadGeometry)
  }

  function Collected(entries: seq<Entry>): Result<map<PanelId, Panel>, Fault> {
    if entries == [] then Ok(map[])
    else match Collected(Front(entries))
      case Err(e) => Err(e)
      case Ok(taken) =>
        match Submitted(Last(entries), taken)
        case Err(e) => Err(e)
        case Ok(p) => Ok(taken[p.id := p])
  }

  predicate Overlaps(a: Panel, b: Panel) {
    !(a.x + a.w <= b.x || b.x + b.w <= a.x || a.y + a.h <= b.y || b.y + b.h <= a.y)
  }

  predicate OrdersUnique(m: map<PanelId, Panel>, available: set<PanelId>)
    requires available <= m.Keys
  {
    forall a, b :: a in available && b in available && a != b ==> m[a].order != m[b].order
  }

  predicate VisibleApart(m: map<PanelId, Panel>, available: set<PanelId>)
    requires available <= m.Keys
  {
    forall a, b :: a in available && b in available && a != b && !m[a].hidden && !m[b].hidden ==> !Overlaps(m[a], m[b])
  }

  /** validate_layout_payload: base gives the panels the payload leaves out. A merge keeps the
      base's order of panels, so it is listed in that order before sorting. */
  function Validate(payload: Layout, available: set<PanelId>, base: Layout): Result<seq<Panel>, Fault> {
    if payload.NotALayout? || !payload.supported then Err(UnsupportedSchema)
    else if |payload.panels| > |REGISTRY| then Err(TooManyPanels)
    else match Collected(payload.panels)
      case Err(e) => Err(e)
      case Ok(m) =>
        if !(available <= m.Keys) then Err(MissingPanel)
        else if !OrdersUnique(m, available) then Err(OrderNotUnique)
        else if !VisibleApart(m, available) then Err(Overlapping)
        else Ok(Sort(Merged(Normalize(base), m)))
  }

  /** dict.update in the base's panel order. */
  function Merged(ps: seq<Panel>, m: map<PanelId, Panel>): (rs: seq<Panel>)
    ensures |rs| == |ps| && forall i :: 0 <= i < |ps| ==> rs[i] == if ps[i].id in m then m[ps[i].id] else ps[i]
  {
    if ps == [] then [] else [if ps[0].id in m then m[ps[0].id] else ps[0]] + Merged(ps[1..], m)
  }

  /** A validated panel as it is stored. */
  function Written(p: Panel): Entry {
    Entry(Some(p.id), Int(p.x), Int(p.y), Int(p.w), Int(p.h), Bool(p.hidden), Int(p.order), false)
  }

  function WrittenAll(ps: seq<Panel>): (es: seq<Entry>)
    ensures |es| == |ps| && forall i :: 0 <= i < |ps| ==> es[i] == Written(ps[i])
  {
    seq(|ps|, i requires 0 <= i < |ps| => Written(ps[i]))
  }

  function Stored(ps: seq<Panel>): Layout {
    Layout(true, WrittenAll(ps))
  }
}
