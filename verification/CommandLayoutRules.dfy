/** Which payloads the panel layout accepts, why it rejects one, and where stored panels are put:
    stated on the entries as they are submitted and stored. */
module CommandLayoutRules {

  import opened Common
  import opened CommandLayout
  import opened CommandLayoutProofs

  // ------------------------------------------------------- which payloads are accepted

  /** One submitted entry by itself: no other keys, a known panel, whole numbers, a true flag, within
      the panel's bounds and with a mobile order from 0 to 5. */
  predicate WellFormed(e: Entry) {
    && e.Entry? && !e.extraKeys && e.id.Some?
    && e.x.Int? && e.y.Int? && e.w.Int? && e.h.Int? && e.order.Int? && e.hidden.Bool?
    && InBounds(PanelOf(e)) && 0 <= e.order.n <= 5
  }

  /** The panel an entry describes. */
  function PanelOf(e: Entry): Panel
    requires e.Entry? && e.id.Some? && e.x.Int? && e.y.Int? && e.w.Int? && e.h.Int? && e.order.Int? && e.hidden.Bool?
  {
    Panel(e.id.value, e.x.n, e.y.n, e.w.n, e.h.n, e.hidden.b, e.order.n)
  }

  predicate EachWellFormed(entries: seq<Entry>) {
    forall i :: 0 <= i < |entries| ==> WellFormed(entries[i])
  }

  predicate NoneTwice(entries: seq<Entry>) {
    forall i, j :: 0 <= i < j < |entries| && entries[i].Entry? && entries[j].Entry? ==> entries[i].id != entries[j].id
  }

  lemma SubmittedExactly(e: Entry, taken: map<PanelId, Panel>)
    ensures Submitted(e, taken).Ok? <==> WellFormed(e) && e.id.value !in taken
    ensures Submitted(e, taken).Ok? ==> Submitted(e, taken).value == PanelOf(e)
  {
    hide InBounds;
  }

  /** m holds the panel of every entry under its id, and nothing else. */
  ghost predicate Holds(entries: seq<Entry>, m: map<PanelId, Panel>) {
    && EachWellFormed(entries) && NoneTwice(entries)
    && (forall i :: 0 <= i < |entries| ==> Keeps(m, entries[i]))
    && (forall id :: id in m ==> exists i :: 0 <= i < |entries| && Of(entries[i], id))
  }

  predicate Keeps(m: map<PanelId, Panel>, e: Entry) {
    WellFormed(e) && e.id.value in m && m[e.id.value] == PanelOf(e)
  }

  predicate Of(e: Entry, id: PanelId) {
    e.Entry? && e.id == Some(id)
  }

  lemma HoldsMore(front: seq<Entry>, e: Entry, m: map<PanelId, Panel>)
    requires Holds(front, m) && WellFormed(e) && e.id.value !in m
    ensures Holds(front + [e], m[e.id.value := PanelOf(e)])
  {
    hide InBounds;
    var entries := front + [e];
    var more := m[e.id.value := PanelOf(e)];
    forall i | 0 <= i < |front| ensures Keeps(more, entries[i]) && entries[i].id != e.id {
      assert Keeps(m, front[i]);
    }
    forall id | id in more ensures exists i :: 0 <= i < |entries| && Of(entries[i], id) {
      if id == e.id.value {
        assert Of(entries[|front|], id);
      } else {
        var i :| 0 <= i < |front| && Of(front[i], id);
        assert Of(entries[i], id);
      }
    }
  }

  lemma HoldsNot(front: seq<Entry>, e: Entry, m: map<PanelId, Panel>)
    requires Holds(front, m) && !(WellFormed(e) && e.id.value !in m)
    ensures !(EachWellFormed(front + [e]) && NoneTwice(front + [e]))
  {
    hide InBounds;
    var entries := front + [e];
    if WellFormed(e) {
      var i :| 0 <= i < |front| && Of(front[i], e.id.value);
      assert entries[i].id == entries[|front|].id;
    } else {
      assert !WellFormed(entries[|front|]);
    }
  }

  /** The entries are collected if and only if each is well formed and no panel comes twice. */
  lemma {:induction false} CollectedIfAndOnlyIf(entries: seq<Entry>)
    ensures Collected(entries).Ok? <==> EachWellFormed(entries) && NoneTwice(entries)
    ensures Collected(entries).Ok? ==> Holds(entries, Collected(entries).value)
  {
    hide WellFormed, Submitted, Holds;
    if entries == [] {
      EmptyHolds();
    } else {
      var front := Front(entries);
      assert entries == front + [Last(entries)];
      CollectedIfAndOnlyIf(front);
      if Collected(front).Ok? {
        var m := Collected(front).value;
        SubmittedExactly(Last(entries), m);
        if Submitted(Last(entries), m).Ok? {
          HoldsMore(front, Last(entries), m);
          HoldsMeans(entries, Collected(entries).value);
        } else {
          HoldsNot(front, Last(entries), m);
        }
      }
    }
  }

  lemma EmptyHolds()
    ensures Holds([], map[])
  {
  }

  lemma HoldsMeans(entries: seq<Entry>, m: map<PanelId, Panel>)
    requires Holds(entries, m)
    ensures EachWellFormed(entries) && NoneTwice(entries)
  {
  }

  predicate Offered(e: Entry, available: set<PanelId>) {
    e.Entry? && e.id.Some? && e.id.value in available
  }

  /** Two entries of available panels: different mobile orders and, unless one is hidden, no grid
      cell in common. */
  ghost predicate Compatible(e: Entry, f: Entry)
    requires WellFormed(e) && WellFormed(f)
  {
    && e.order.n != f.order.n
    && (e.hidden.b || f.hidden.b || forall cx, cy :: !(Covers(PanelOf(e), cx, cy) && Covers(PanelOf(f), cx, cy)))
  }

  /** What a payload must be, stated on its entries. */
  ghost predicate Acceptable(payload: Layout, available: set<PanelId>) {
    && payload.Layout? && payload.supported && |payload.panels| <= 6
    && EachWellFormed(payload.panels) && NoneTwice(payload.panels)
    && (forall id :: id in available ==> exists i :: 0 <= i < |payload.panels| && Of(payload.panels[i], id))
    && AllPairs(payload.panels, available)
  }

  lemma CompatibleMeans(e: Entry, f: Entry)
    requires WellFormed(e) && WellFormed(f)
    ensures Compatible(e, f) <==>
            var p, q := PanelOf(e), PanelOf(f);
            p.order != q.order && (p.hidden || q.hidden || !Overlaps(p, q))
    ensures Compatible(e, f) <==> Compatible(f, e)
  {
    hide Covers, Overlaps, InBounds;
    OverlapMeansSharedCell(PanelOf(e), PanelOf(f));
    OverlapSymmetric();
  }

  ghost predicate Pair(e: Entry, f: Entry) {
    WellFormed(e) && WellFormed(f) && Compatible(e, f)
  }

  lemma PairOfEntries(m: map<PanelId, Panel>, available: set<PanelId>, e: Entry, f: Entry)
    requires available <= m.Keys && OrdersUnique(m, available) && VisibleApart(m, available)
    requires Keeps(m, e) && Keeps(m, f) && Offered(e, available) && Offered(f, available) && e.id != f.id
    ensures Pair(e, f)
  {
    hide Compatible, WellFormed, Overlaps, InBounds;
    CompatibleMeans(e, f);
  }

  ghost predicate AllPairs(entries: seq<Entry>, available: set<PanelId>) {
    forall i, j :: 0 <= i < j < |entries| && Offered(entries[i], available) && Offered(entries[j], available) ==>
                     Pair(entries[i], entries[j])
  }

  lemma EntryOf(entries: seq<Entry>, m: map<PanelId, Panel>, id: PanelId) returns (i: nat)
    requires Holds(entries, m) && id in m
    ensures i < |entries| && Of(entries[i], id) && Keeps(m, entries[i])
  {
    hide WellFormed, EachWellFormed, NoneTwice;
    i :| 0 <= i < |entries| && Of(entries[i], id);
    assert Keeps(m, entries[i]);
  }

  lemma PairOfPanels(entries: seq<Entry>, m: map<PanelId, Panel>, available: set<PanelId>, a: PanelId, b: PanelId)
    requires Holds(entries, m) && available <= m.Keys && a in available && b in available && a != b
    requires AllPairs(entries, available)
    ensures m[a].order != m[b].order && (m[a].hidden || m[b].hidden || !Overlaps(m[a], m[b]))
  {
    hide Compatible, WellFormed, Overlaps, InBounds, Holds;
    var i := EntryOf(entries, m, a);
    var j := EntryOf(entries, m, b);
    assert Pair(entries[if i < j then i else j], entries[if i < j then j else i]);
    CompatibleMeans(entries[i], entries[j]);
  }

  lemma EntriesPair(entries: seq<Entry>, m: map<PanelId, Panel>, available: set<PanelId>)
    requires Holds(entries, m) && available <= m.Keys && OrdersUnique(m, available) && VisibleApart(m, available)
    ensures AllPairs(entries, available)
  {
    hide Pair, WellFormed, OrdersUnique, VisibleApart, Keeps;
    forall i, j | 0 <= i < j < |entries| && Offered(entries[i], available) && Offered(entries[j], available)
      ensures Pair(entries[i], entries[j])
    {
      assert Keeps(m, entries[i]) && Keeps(m, entries[j]);
      PairOfEntries(m, available, entries[i], entries[j]);
    }
  }

  lemma PanelsPair(entries: seq<Entry>, m: map<PanelId, Panel>, available: set<PanelId>)
    requires Holds(entries, m) && available <= m.Keys && AllPairs(entries, available)
    ensures OrdersUnique(m, available) && VisibleApart(m, available)
  {
    hide AllPairs, Holds, Overlaps;
    forall a, b | a in available && b in available && a != b
      ensures m[a].order != m[b].order && (m[a].hidden || m[b].hidden || !Overlaps(m[a], m[b]))
    {
      PairOfPanels(entries, m, available, a, b);
    }
  }

  /** The pairwise checks on the collected panels are the ones on the entries. */
  lemma PairsExactly(entries: seq<Entry>, m: map<PanelId, Panel>, available: set<PanelId>)
    requires Holds(entries, m) && available <= m.Keys
    ensures OrdersUnique(m, available) && VisibleApart(m, available) <==> AllPairs(entries, available)
  {
    hide AllPairs, Holds, OrdersUnique, VisibleApart;
    if AllPairs(entries, available) {
      PanelsPair(entries, m, available);
    }
    if OrdersUnique(m, available) && VisibleApart(m, available) {
      EntriesPair(entries, m, available);
    }
  }

  /** A payload is accepted if and only if it is that. */
  lemma AcceptedIfAndOnlyIf(payload: Layout, available: set<PanelId>, base: Layout)
    ensures Validate(payload, available, base).Ok? <==> Acceptable(payload, available)
  {
    hide Collected, Holds, EachWellFormed, NoneTwice, OrdersUnique, VisibleApart, Compatible, Sort, Merged, Normalize;
    if payload.Layout? && payload.supported && |payload.panels| <= 6 {
      CollectedIfAndOnlyIf(payload.panels);
      if Collected(payload.panels).Ok? {
        var m := Collected(payload.panels).value;
        CompleteExactly(payload.panels, m, available);
        AllWellFormed(payload.panels, m);
        if available <= m.Keys {
          PairsExactly(payload.panels, m, available);
        }
      }
    }
  }

  lemma AllWellFormed(entries: seq<Entry>, m: map<PanelId, Panel>)
    requires Holds(entries, m)
    ensures forall i :: 0 <= i < |entries| ==> WellFormed(entries[i])
  {
  }

  lemma CompleteExactly(entries: seq<Entry>, m: map<PanelId, Panel>, available: set<PanelId>)
    requires Holds(entries, m)
    ensures available <= m.Keys <==> forall id :: id in available ==> exists i :: 0 <= i < |entries| && Of(entries[i], id)
  {
    hide WellFormed;
    forall i | 0 <= i < |entries| ensures Keeps(m, entries[i]) {
    }
    if forall id :: id in available ==> exists i :: 0 <= i < |entries| && Of(entries[i], id) {
      forall id | id in available ensures id in m {
        var i :| 0 <= i < |entries| && Of(entries[i], id);
        assert Keeps(m, entries[i]);
      }
    }
  }

  /** A rejection names what is wrong. */
  lemma RejectionTellsWhy(payload: Layout, available: set<PanelId>, base: Layout)
    requires Validate(payload, available, base).Err?
    ensures match Validate(payload, available, base).error
            case UnsupportedSchema => payload.NotALayout? || !payload.supported
            case TooManyPanels => payload.Layout? && |payload.panels| > 6
            case MissingPanel => payload.Layout? && Collected(payload.panels).Ok?
                                 && exists id :: id in available && id !in Collected(payload.panels).value
            case OrderNotUnique => payload.Layout? && Collected(payload.panels).Ok?
                                   && var m := Collected(payload.panels).value;
                                      exists a, b :: a in available && b in available && a != b && a in m && b in m
                                                     && m[a].order == m[b].order
            case Overlapping => payload.Layout? && Collected(payload.panels).Ok?
                                && var m := Collected(payload.panels).value;
                                   exists a, b :: a in available && b in available && a != b && a in m && b in m
                                                  && !m[a].hidden && !m[b].hidden && Overlaps(m[a], m[b])
            case fault => payload.Layout? && exists e, taken :: e in payload.panels && Submitted(e, taken) == Err(fault)
  {
    hide Submitted, Overlaps, Sort, Merged, Normalize, Collected;
    if payload.Layout? && Collected(payload.panels).Err? {
      FaultOfEntry(payload.panels);
    }
  }

  lemma {:induction false} FaultOfEntry(entries: seq<Entry>)
    requires Collected(entries).Err?
    ensures exists e, taken :: e in entries && Submitted(e, taken) == Err(Collected(entries).error)
    ensures Collected(entries).error !in {UnsupportedSchema, TooManyPanels, MissingPanel, OrderNotUnique, Overlapping}
  {
    hide Submitted;
    if Collected(Front(entries)).Err? {
      FaultOfEntry(Front(entries));
      var e, taken :| e in Front(entries) && Submitted(e, taken) == Err(Collected(entries).error);
      assert e in entries;
    } else {
      var taken := Collected(Front(entries)).value;
      EntryFault(Last(entries), taken);
      assert Last(entries) in entries && Submitted(Last(entries), taken) == Err(Collected(entries).error);
    }
  }

  /** What an entry is rejected for. */
  lemma EntryFault(e: Entry, taken: map<PanelId, Panel>)
    requires Submitted(e, taken).Err?
    ensures match Submitted(e, taken).error
            case UnsupportedFields => e.NotADict? || e.extraKeys
            case BadIdentifier => e.Entry? && (e.id.None? || e.id.value in taken)
            case NotIntegers => e.Entry? && !(e.x.Int? && e.y.Int? && e.w.Int? && e.h.Int? && e.order.Int?)
            case NotBoolean => e.Entry? && !e.hidden.Bool?
            case BadGeometry =>
              && e.Entry? && e.id.Some? && e.x.Int? && e.y.Int? && e.w.Int? && e.h.Int? && e.order.Int? && e.hidden.Bool?
              && !(InBounds(PanelOf(e)) && 0 <= e.order.n <= 5)
            case _ => false
  {
  }

  // ------------------------------------------------------------------ the bounds

  /** Within the grid of twelve columns and 200 rows, and between the panel's own sizes. */
  lemma BoundsExactly(p: Panel)
    ensures InBounds(p) <==>
            && 0 <= p.x && p.x + p.w <= 12 && 0 <= p.y <= 200
            && match p.id
               case BusinessImpact => 6 <= p.w && 2 <= p.h <= 4
               case OperationsTrend => 6 <= p.w && 3 <= p.h <= 6
               case NeedsAttention => 4 <= p.w && 3 <= p.h <= 6
               case AssetMix => 3 <= p.w <= 6 && 3 <= p.h <= 6
               case DeviceFleet | SitesActions => 4 <= p.w <= 8 && 3 <= p.h <= 7
  {
  }

  // ------------------------------------------------------------- the default layout

  /** The default panels tile the grid down to row 10: every cell lies under exactly one of them, and
      only the two lower right ones reach row 10 itself. */
  lemma DefaultsTile(cx: int, cy: int)
    requires 0 <= cx < 12 && 0 <= cy < 10
    ensures exists id :: Covers(Default(id), cx, cy) && forall other :: Covers(Default(other), cx, cy) ==> other == id
    ensures forall id :: !Default(id).hidden && 0 <= Default(id).x && Default(id).x + Default(id).w <= 12
    ensures forall id :: Default(id).y + Default(id).h == (match id case BusinessImpact => 2
                                                           case OperationsTrend | NeedsAttention => 6
                                                           case AssetMix => 10 case _ => 11)
  {
    var id := if cy < 2 then BusinessImpact
              else if cy < 6 then (if cx < 8 then OperationsTrend else NeedsAttention)
              else if cx < 4 then AssetMix else if cx < 8 then DeviceFleet else SitesActions;
    assert Covers(Default(id), cx, cy);
    forall other | Covers(Default(other), cx, cy) ensures other == id {
      match other
      case BusinessImpact => case OperationsTrend => case NeedsAttention =>
      case AssetMix => case DeviceFleet => case SitesActions =>
    }
  }

  // -------------------------------------------------------------- what is read back

  /** The entry that counts for a panel: the last one stored under its id. */
  ghost predicate Counts(entries: seq<Entry>, id: PanelId, k: int) {
    && 0 <= k < |entries| && Of(entries[k], id) && forall j :: k < j < |entries| ==> !Of(entries[j], id)
  }

  lemma {:induction false} StoredIsLast(entries: seq<Entry>, id: PanelId, k: nat)
    requires Counts(entries, id, k)
    ensures StoredFor(entries, id) == Some(entries[k])
  {
    if k < |entries| - 1 {
      assert Front(entries)[k] == entries[k];
      StoredIsLast(Front(entries), id, k);
    }
  }

  /** A usable entry: every number reads, a missing mobile order is the default one, and the place is
      within the panel's bounds. */
  predicate Usable(e: Entry, id: PanelId) {
    && e.Entry? && ToInt(e.x).Some? && ToInt(e.y).Some? && ToInt(e.w).Some? && ToInt(e.h).Some?
    && (e.order.Missing? || ToInt(e.order).Some?)
    && InBounds(Panel(id, ToInt(e.x).value, ToInt(e.y).value, ToInt(e.w).value, ToInt(e.h).value, false, 0))
  }

  lemma {:induction false} StoredSomewhere(entries: seq<Entry>, id: PanelId)
    requires StoredFor(entries, id).Some?
    ensures exists k :: Counts(entries, id, k)
  {
    var front := Front(entries);
    if Of(Last(entries), id) {
      assert Counts(entries, id, |entries| - 1);
    } else {
      StoredSomewhere(front, id);
      var k :| Counts(front, id, k);
      assert Counts(entries, id, k);
    }
  }

  /** The panel read from an entry. */
  ghost predicate ReadFrom(p: Panel, e: Entry) {
    && e.Entry? && ToInt(e.x) == Some(p.x) && ToInt(e.y) == Some(p.y) && ToInt(e.w) == Some(p.w) && ToInt(e.h) == Some(p.h)
    && p.hidden == (e.hidden in {Bool(true), OtherFlag(true)}) && (if e.order.Missing? then p.order == Default(p.id).order else ToInt(e.order) == Some(p.order))
  }

  lemma EntryPlaces(entries: seq<Entry>, id: PanelId, k: nat)
    requires Counts(entries, id, k)
    ensures entries[k].Entry?
    ensures if Usable(entries[k], id) then ReadFrom(PanelFor(entries, id), entries[k])
            else PanelFor(entries, id) == Default(id)
  {
    StoredIsLast(entries, id, k);
    BoundsIgnoreRest();
  }

  lemma BoundsIgnoreRest()
    ensures forall p: Panel :: InBounds(p) <==> InBounds(p.(hidden := false, order := 0))
  {
  }

  lemma DefaultPlaces(entries: seq<Entry>, id: PanelId)
    requires forall k :: Counts(entries, id, k) ==> !Usable(entries[k], id)
    ensures PanelFor(entries, id) == Default(id)
  {
    hide Usable, Of;
    if StoredFor(entries, id).Some? {
      StoredSomewhere(entries, id);
      var k :| Counts(entries, id, k);
      EntryPlaces(entries, id, k);
    }
  }

  /** Every panel of a normalised layout is where the entry that counts puts it, or at its default
      place when there is none or it is not usable. */
  lemma NormalizedPlaces(entries: seq<Entry>, id: PanelId) returns (i: nat, read: Panel)
    ensures var ns := Normalize(Layout(true, entries)); i < |ns| && ns[i] == read.(order := i) && read.id == id
    ensures forall k :: Counts(entries, id, k) && Usable(entries[k], id) ==> ReadFrom(read, entries[k])
    ensures (forall k :: Counts(entries, id, k) ==> !Usable(entries[k], id)) ==> read == Default(id)
  {
    hide PanelFor, Sort, EachOnce, InBounds, Usable, PanelsFor, ReadFrom, Ids, Of;
    var es := PanelsFor(entries, REGISTRY);
    RegistryPanels(entries);
    RegistryEachOnce(es);
    SortKeeps(es);
    ListedPanel(entries, id);
    read := PanelFor(entries, id);
    i :| 0 <= i < |Sort(es)| && Sort(es)[i] == read;
    PanelForInBounds(entries, id);
    forall k | Counts(entries, id, k) && Usable(entries[k], id) ensures ReadFrom(read, entries[k]) {
      EntryPlaces(entries, id, k);
    }
    if forall k :: Counts(entries, id, k) ==> !Usable(entries[k], id) {
      DefaultPlaces(entries, id);
    }
  }
}
