/** What normalising and validating a panel layout promise. */
module CommandLayoutProofs {

  import opened Common
  import opened CommandLayout

  function Ids(ps: seq<Panel>): (ids: seq<PanelId>)
    ensures |ids| == |ps| && forall i :: 0 <= i < |ps| ==> ids[i] == ps[i].id
  {
    seq(|ps|, i requires 0 <= i < |ps| => ps[i].id)
  }

  predicate EachOnce(ps: seq<Panel>) {
    multiset(Ids(ps)) == multiset(REGISTRY)
  }

  predicate Ascending(ps: seq<Panel>) {
    forall i, j :: 0 <= i < j < |ps| ==> ps[i].order <= ps[j].order
  }

  lemma {:induction false} InsertMembers(ps: seq<Panel>, p: Panel)
    ensures multiset(Insert(ps, p)) == multiset(ps) + multiset{p}
  {
    if ps != [] && !(Last(ps).order <= p.order) {
      InsertMembers(Front(ps), p);
      assert ps == Front(ps) + [Last(ps)];
    }
  }

  lemma IdsSnoc(ps: seq<Panel>, p: Panel)
    ensures Ids(ps + [p]) == Ids(ps) + [p.id]
  {
  }

  lemma {:induction false} InsertIds(ps: seq<Panel>, p: Panel)
    ensures multiset(Ids(Insert(ps, p))) == multiset(Ids(ps)) + multiset{p.id}
  {
    hide Ids;
    IdsSnoc(ps, p);
    if ps == [] {
      assert Ids([]) == [];
      assert [] + [p] == [p];
    } else if !(Last(ps).order <= p.order) {
      var front := Front(ps);
      InsertIds(front, p);
      assert ps == front + [Last(ps)];
      IdsSnoc(front, Last(ps));
      IdsSnoc(Insert(front, p), Last(ps));
    }
  }

  lemma {:induction false} InsertSorts(ps: seq<Panel>, p: Panel)
    requires Ascending(ps)
    ensures Ascending(Insert(ps, p))
  {
    if ps != [] && !(Last(ps).order <= p.order) {
      var front := Front(ps);
      InsertSorts(front, p);
      InsertMembers(front, p);
      forall q | q in Insert(front, p) ensures q.order <= Last(ps).order {
        assert q in multiset(front) + multiset{p};
      }
    }
  }

  lemma {:induction false} SortSorts(ps: seq<Panel>)
    ensures Ascending(Sort(ps)) && multiset(Sort(ps)) == multiset(ps) && multiset(Ids(Sort(ps))) == multiset(Ids(ps))
    ensures |Sort(ps)| == |ps|
  {
    hide Ids, Insert;
    if ps != [] {
      SortSorts(Front(ps));
      InsertSorts(Sort(Front(ps)), Last(ps));
      InsertMembers(Sort(Front(ps)), Last(ps));
      InsertIds(Sort(Front(ps)), Last(ps));
      assert ps == Front(ps) + [Last(ps)];
      IdsSnoc(Front(ps), Last(ps));
    }
    assert |Sort(ps)| == |multiset(Sort(ps))|;
  }

  lemma SameMembers<T>(a: seq<T>, b: seq<T>)
    requires multiset(a) == multiset(b)
    ensures forall x :: x in a ==> x in b
    ensures forall x :: x in b ==> x in a
  {
    assert forall x :: x in a ==> x in multiset(a);
    assert forall x :: x in b ==> x in multiset(b);
  }

  /** Sorting a list with each panel once only reorders it. */
  lemma SortKeeps(ps: seq<Panel>)
    requires EachOnce(ps)
    ensures Ascending(Sort(ps)) && |Sort(ps)| == |ps| && EachOnce(Sort(ps))
    ensures (forall p :: p in Sort(ps) ==> p in ps) && (forall p :: p in ps ==> p in Sort(ps))
  {
    SortSorts(ps);
    SameMembers(Sort(ps), ps);
  }

  /** The normal form: every panel of the registry once, within its bounds, with the mobile
      orders 0, 1, 2 and so on. */
  predicate NormalForm(ps: seq<Panel>) {
    EachOnce(ps) && forall i :: 0 <= i < |ps| ==> InBounds(ps[i]) && ps[i].order == i
  }

  lemma PanelForInBounds(entries: seq<Entry>, id: PanelId)
    ensures InBounds(PanelFor(entries, id)) && PanelFor(entries, id).id == id
  {
    assert InBounds(Default(id));
  }

  lemma RegistryPanels(entries: seq<Entry>)
    ensures var ps := PanelsFor(entries, REGISTRY);
            Ids(ps) == REGISTRY && forall p :: p in ps ==> InBounds(p)
  {
    hide PanelFor, InBounds;
    forall id ensures InBounds(PanelFor(entries, id)) && PanelFor(entries, id).id == id {
      PanelForInBounds(entries, id);
    }
  }

  lemma SortedRenumbered(ps: seq<Panel>)
    requires Ids(ps) == REGISTRY && forall p :: p in ps ==> InBounds(p)
    ensures NormalForm(Renumber(Sort(ps)))
  {
    var sorted := Sort(ps);
    SortSorts(ps);
    forall i | 0 <= i < |sorted| ensures InBounds(sorted[i].(order := i)) {
      assert sorted[i] in multiset(ps);
      assert InBounds(sorted[i]);
    }
    assert Ids(Renumber(sorted)) == Ids(sorted);
  }

  lemma NormalizeIsNormal(layout: Layout)
    ensures NormalForm(Normalize(layout))
  {
    hide PanelFor, PanelsFor, InBounds, Sort, Renumber, Ids, DefaultLayout, NormalForm;
    DefaultIsNormal();
    if layout.Layout? {
      RegistryPanels(layout.panels);
      SortedRenumbered(PanelsFor(layout.panels, REGISTRY));
    }
  }

  lemma DefaultIsNormal()
    ensures NormalForm(DefaultLayout())
  {
    hide PanelFor;
    RegistryPanels([]);
    DefaultOrders();
  }

  lemma DefaultOrders()
    ensures forall i :: 0 <= i < |REGISTRY| ==>
                          PanelFor([], REGISTRY[i]) == Default(REGISTRY[i]) && Default(REGISTRY[i]).order == i
  {
  }

  // --------------------------------------------------------------- idempotence

  lemma TwiceCounted<T>(s: seq<T>, i: nat, j: nat)
    requires i < j < |s| && s[i] == s[j]
    ensures multiset(s)[s[i]] >= 2
  {
    assert s == s[..j] + ([s[j]] + s[j + 1..]);
    assert s[i] in s[..j];
  }

  lemma RegistryOnce(id: PanelId)
    ensures multiset(REGISTRY)[id] == 1
  {
  }

  /** Each id of the registry is found at exactly one place. */
  lemma FoundOnce(ps: seq<Panel>, id: PanelId) returns (i: nat)
    requires EachOnce(ps)
    ensures i < |ps| && ps[i].id == id
    ensures forall j :: 0 <= j < |ps| && j != i ==> ps[j].id != id
  {
    RegistryOnce(id);
    var ids := Ids(ps);
    assert id in multiset(ids);
    i :| 0 <= i < |ids| && ids[i] == id;
    forall j | 0 <= j < |ps| && j != i ensures ps[j].id != id {
      if ps[j].id == id {
        TwiceCounted(ids, if i < j then i else j, if i < j then j else i);
      }
    }
  }

  lemma EachOnceLength(ps: seq<Panel>)
    requires EachOnce(ps)
    ensures |ps| == |REGISTRY|
  {
    assert |multiset(Ids(ps))| == |Ids(ps)|;
  }

  lemma {:induction false} StoredForWritten(ps: seq<Panel>, i: nat)
    requires i < |ps| && forall j :: 0 <= j < |ps| && j != i ==> ps[j].id != ps[i].id
    ensures StoredFor(WrittenAll(ps), ps[i].id) == Some(Written(ps[i]))
  {
    if i < |ps| - 1 {
      StoredForWritten(Front(ps), i);
      assert Front(WrittenAll(ps)) == WrittenAll(Front(ps));
    }
  }

  lemma ReadIsWritten(ps: seq<Panel>, k: nat)
    requires EachOnce(ps) && (forall p :: p in ps ==> InBounds(p)) && k < |REGISTRY|
    ensures PanelsFor(WrittenAll(ps), REGISTRY)[k] in ps
  {
    hide InBounds, EachOnce, PanelFor, PanelsFor, WrittenAll, Ids;
    PanelForWritten(ps, REGISTRY[k]);
  }

  lemma WrittenIsRead(ps: seq<Panel>, p: Panel)
    requires EachOnce(ps) && (forall q :: q in ps ==> InBounds(q)) && p in ps
    ensures p in PanelsFor(WrittenAll(ps), REGISTRY)
  {
    hide InBounds, EachOnce, PanelFor, PanelsFor, WrittenAll, Ids;
    PanelForWritten(ps, p.id);
    ListedPanel(WrittenAll(ps), p.id);
  }

  /** Reading a written layout gives back each of its panels. */
  lemma WrittenReadsBack(ps: seq<Panel>)
    requires EachOnce(ps) && forall p :: p in ps ==> InBounds(p)
    ensures var es := PanelsFor(WrittenAll(ps), REGISTRY);
            && EachOnce(es)
            && (forall e :: e in es ==> e in ps) && (forall p :: p in ps ==> p in es)
  {
    hide InBounds, EachOnce, PanelFor, PanelsFor, WrittenAll, Ids;
    var es := PanelsFor(WrittenAll(ps), REGISTRY);
    RegistryPanels(WrittenAll(ps));
    RegistryEachOnce(es);
    forall e | e in es ensures e in ps {
      var k :| 0 <= k < |es| && es[k] == e;
      ReadIsWritten(ps, k);
    }
    forall p | p in ps ensures p in es {
      WrittenIsRead(ps, p);
    }
  }

  lemma ListedPanel(entries: seq<Entry>, id: PanelId)
    ensures PanelFor(entries, id) in PanelsFor(entries, REGISTRY)
  {
    hide PanelFor;
    InRegistry(id);
    var k :| 0 <= k < |REGISTRY| && REGISTRY[k] == id;
    assert PanelsFor(entries, REGISTRY)[k] == PanelFor(entries, id);
  }

  lemma RegistryEachOnce(ps: seq<Panel>)
    requires Ids(ps) == REGISTRY
    ensures EachOnce(ps)
  {
  }

  lemma InRegistry(id: PanelId)
    ensures exists k :: 0 <= k < |REGISTRY| && REGISTRY[k] == id
  {
    match id
    case BusinessImpact => assert REGISTRY[0] == id;
    case OperationsTrend => assert REGISTRY[1] == id;
    case NeedsAttention => assert REGISTRY[2] == id;
    case AssetMix => assert REGISTRY[3] == id;
    case DeviceFleet => assert REGISTRY[4] == id;
    case SitesActions => assert REGISTRY[5] == id;
  }

  lemma PanelForWritten(ps: seq<Panel>, id: PanelId)
    requires EachOnce(ps) && forall p :: p in ps ==> InBounds(p)
    ensures PanelFor(WrittenAll(ps), id) in ps
    ensures forall p :: p in ps && p.id == id ==> PanelFor(WrittenAll(ps), id) == p
  {
    hide InBounds, StoredFor, EachOnce;
    var i := FoundOnce(ps, id);
    StoredForWritten(ps, i);
    assert ps[i] in ps;
  }

  predicate DistinctOrders(ps: seq<Panel>) {
    forall i, j :: 0 <= i < j < |ps| ==> ps[i].order != ps[j].order
  }

  lemma {:induction false} AscendingFrom(ps: seq<Panel>, i: nat)
    requires Ascending(ps) && DistinctOrders(ps) && i < |ps| && forall p :: p in ps ==> 0 <= p.order
    ensures i <= ps[i].order
  {
    if i > 0 {
      AscendingFrom(ps, i - 1);
    }
  }

  lemma {:induction false} AscendingTo(ps: seq<Panel>, i: nat)
    requires Ascending(ps) && DistinctOrders(ps) && i < |ps| && forall p :: p in ps ==> p.order < |ps|
    ensures ps[i].order <= i
    decreases |ps| - i
  {
    if i + 1 < |ps| {
      AscendingTo(ps, i + 1);
    }
  }

  lemma OrdersDiffer(a: seq<Panel>, ns: seq<Panel>)
    requires EachOnce(a) && forall p :: p in a ==> 0 <= p.order < |ns| && p == ns[p.order]
    ensures DistinctOrders(a)
  {
    hide EachOnce;
    forall i, j | 0 <= i < j < |a| ensures a[i].order != a[j].order {
      if a[i].order == a[j].order {
        assert a[i] in a && a[j] in a;
        var k := FoundOnce(a, a[i].id);
      }
    }
  }

  /** A list with each panel once whose members all come from a normal form, sorted, is that
      normal form. */
  lemma SortedMembersAre(a: seq<Panel>, ns: seq<Panel>)
    requires NormalForm(ns) && EachOnce(a) && Ascending(a) && forall p :: p in a ==> p in ns
    ensures a == ns
  {
    hide InBounds, EachOnce, Ids;
    EachOnceLength(a);
    EachOnceLength(ns);
    forall p | p in a ensures 0 <= p.order < |a| && p == ns[p.order] {
      var i :| 0 <= i < |ns| && ns[i] == p;
    }
    OrdersDiffer(a, ns);
    forall i | 0 <= i < |a| ensures a[i] == ns[i] {
      AscendingFrom(a, i);
      AscendingTo(a, i);
      assert a[i] in a;
    }
  }

  /** The layouts that normalising returns unchanged are exactly the normal forms. */
  lemma NormalFormsAreFixed(ps: seq<Panel>)
    ensures Normalize(Stored(ps)) == ps <==> NormalForm(ps)
  {
    hide PanelFor, PanelsFor, InBounds, Sort, EachOnce, Ids, Renumber, Ascending;
    NormalizeIsNormal(Stored(ps));
    if NormalForm(ps) {
      var es := PanelsFor(WrittenAll(ps), REGISTRY);
      assert forall p :: p in ps ==> InBounds(p);
      WrittenReadsBack(ps);
      SortKeeps(es);
      SortedMembersAre(Sort(es), ps);
    }
  }

  /** normalize_layout is idempotent. */
  lemma NormalizeIdempotent(layout: Layout)
    ensures Normalize(Stored(Normalize(layout))) == Normalize(layout)
  {
    NormalizeIsNormal(layout);
    NormalFormsAreFixed(Normalize(layout));
  }

  // ---------------------------------------------------------- accepted payloads

  predicate Covers(p: Panel, cx: int, cy: int) {
    p.x <= cx < p.x + p.w && p.y <= cy < p.y + p.h
  }

  /** The rectangle test says exactly whether two panels share a grid cell. */
  lemma OverlapMeansSharedCell(a: Panel, b: Panel)
    requires InBounds(a) && InBounds(b)
    ensures Overlaps(a, b) <==> exists cx, cy :: Covers(a, cx, cy) && Covers(b, cx, cy)
  {
    if Overlaps(a, b) {
      assert Covers(a, Max(a.x, b.x), Max(a.y, b.y)) && Covers(b, Max(a.x, b.x), Max(a.y, b.y));
    }
  }

  lemma OverlapSymmetric()
    ensures forall a, b :: Overlaps(a, b) <==> Overlaps(b, a)
  {
  }

  /** The collected panels are the submitted entries, each under its own id and in bounds. */
  lemma {:induction false} CollectedExactly(entries: seq<Entry>)
    ensures Collected(entries).Ok? ==>
              var m := Collected(entries).value;
              && (forall id :: id in m ==> m[id].id == id && InBounds(m[id]) && Written(m[id]) in entries)
              && (forall e :: e in entries ==> e.Entry? && e.id.Some? && e.id.value in m && Written(m[e.id.value]) == e)
  {
    hide InBounds;
    if entries != [] && Collected(entries).Ok? {
      CollectedExactly(Front(entries));
      assert forall e :: e in entries ==> e == Last(entries) || e in Front(entries);
      assert forall e :: e in Front(entries) ==> e in entries;
      assert Last(entries) in entries;
    }
  }

  lemma MergedEachOnce(base: seq<Panel>, m: map<PanelId, Panel>)
    requires EachOnce(base) && (forall p :: p in base ==> InBounds(p))
    requires forall id :: id in m ==> m[id].id == id && InBounds(m[id])
    ensures EachOnce(Merged(base, m)) && forall p :: p in Merged(base, m) ==> InBounds(p)
  {
    hide InBounds;
    assert Ids(Merged(base, m)) == Ids(base);
    forall p | p in Merged(base, m) ensures InBounds(p) {
      var i :| 0 <= i < |base| && Merged(base, m)[i] == p;
      assert base[i] in base;
    }
  }

  /** An accepted payload holds every panel once and in bounds, every submitted panel as
      submitted, every available one among them. */
  lemma AcceptedIsComplete(payload: Layout, available: set<PanelId>, base: Layout)
    requires Validate(payload, available, base).Ok?
    ensures var ps := Validate(payload, available, base).value;
            && EachOnce(ps) && (forall p :: p in ps ==> InBounds(p))
            && (forall e :: e in payload.panels ==> exists p :: p in ps && Written(p) == e)
            && (forall p :: p in ps && p.id in available ==> Written(p) in payload.panels)
  {
    hide InBounds, Sort, Submitted, Collected, EachOnce, Normalize, OrdersUnique, VisibleApart, Merged;
    var m := Collected(payload.panels).value;
    var ns := Normalize(base);
    var merged := Merged(ns, m);
    CollectedExactly(payload.panels);
    assert Collected(payload.panels).Ok?;
    assert forall id :: id in m ==> m[id].id == id;
    assert forall id :: id in m ==> InBounds(m[id]);
    NormalizedPanels(base);
    MergedEachOnce(ns, m);
    SortKeeps(merged);
    MergedMembers(ns, m);
  }

  lemma NormalizedPanels(layout: Layout)
    ensures EachOnce(Normalize(layout)) && forall p :: p in Normalize(layout) ==> InBounds(p)
  {
    hide EachOnce, Normalize, InBounds;
    NormalizeIsNormal(layout);
  }

  lemma MergedMembers(ns: seq<Panel>, m: map<PanelId, Panel>)
    requires EachOnce(ns) && forall id :: id in m ==> m[id].id == id
    ensures forall p :: p in Merged(ns, m) && p.id in m ==> p == m[p.id]
    ensures forall id :: id in m ==> m[id] in Merged(ns, m)
  {
    hide EachOnce;
    var merged := Merged(ns, m);
    forall p | p in merged && p.id in m ensures p == m[p.id] {
      var i :| 0 <= i < |merged| && merged[i] == p;
    }
    forall id | id in m ensures m[id] in merged {
      var i := FoundOnce(ns, id);
      assert merged[i] == m[id];
    }
  }

  /** No grid cell of an accepted payload lies under two visible available panels. */
  lemma AcceptedSharesNoCell(
    payload: Layout, available: set<PanelId>, base: Layout, a: Panel, b: Panel, cx: int, cy: int)
    requires Validate(payload, available, base).Ok?
    requires a in Validate(payload, available, base).value && b in Validate(payload, available, base).value
    requires a.id in available && b.id in available && a.id != b.id && !a.hidden && !b.hidden
    ensures !(Covers(a, cx, cy) && Covers(b, cx, cy))
  {
    hide Sort, Merged, InBounds, Covers, Overlaps, Submitted, EachOnce;
    AcceptedIsComplete(payload, available, base);
    CollectedExactly(payload.panels);
    var m := Collected(payload.panels).value;
    WrittenInjective(a, m[a.id]);
    WrittenInjective(b, m[b.id]);
    OverlapMeansSharedCell(a, b);
  }

  lemma WrittenInjective(p: Panel, q: Panel)
    ensures Written(p) == Written(q) ==> p == q
  {
  }

  // ---------------------------------------------------- normalising what was accepted

  /** The place of the id in the list, or -1. */
  function PlaceOf(ids: seq<PanelId>, id: PanelId): (i: int)
    ensures if id in ids then 0 <= i < |ids| && ids[i] == id else i == -1
  {
    if ids == [] then -1 else if Last(ids) == id then |ids| - 1 else PlaceOf(Front(ids), id)
  }

  /** The lower mobile order, or the same one and the earlier place. */
  predicate Before(ids: seq<PanelId>, p: Panel, q: Panel) {
    p.order < q.order || (p.order == q.order && PlaceOf(ids, p.id) < PlaceOf(ids, q.id))
  }

  predicate SortedBy(ids: seq<PanelId>, ps: seq<Panel>) {
    forall i, j :: 0 <= i < j < |ps| ==> Before(ids, ps[i], ps[j])
  }

  lemma {:induction false} InsertStable(ids: seq<PanelId>, ps: seq<Panel>, p: Panel)
    requires SortedBy(ids, ps) && forall q :: q in ps ==> PlaceOf(ids, q.id) < PlaceOf(ids, p.id)
    ensures SortedBy(ids, Insert(ps, p))
  {
    hide PlaceOf;
    if ps != [] && !(Last(ps).order <= p.order) {
      var front := Front(ps);
      InsertStable(ids, front, p);
      InsertMembers(front, p);
      forall q | q in Insert(front, p) ensures Before(ids, q, Last(ps)) {
        assert q in multiset(front) + multiset{p};
      }
    }
  }

  /** Sorting is stable: panels of the same mobile order stay as they were listed. */
  lemma {:induction false} SortStable(ids: seq<PanelId>, ps: seq<Panel>)
    requires forall i, j :: 0 <= i < j < |ps| ==> PlaceOf(ids, ps[i].id) < PlaceOf(ids, ps[j].id)
    ensures SortedBy(ids, Sort(ps))
  {
    hide PlaceOf, Before;
    if ps != [] {
      SortStable(ids, Front(ps));
      SortSorts(Front(ps));
      SameMembers(Sort(Front(ps)), Front(ps));
      InsertStable(ids, Sort(Front(ps)), Last(ps));
    }
  }

  lemma ListedInPlace(ps: seq<Panel>)
    requires EachOnce(ps)
    ensures forall i :: 0 <= i < |ps| ==> PlaceOf(Ids(ps), ps[i].id) == i
  {
    hide EachOnce;
    forall i | 0 <= i < |ps| ensures PlaceOf(Ids(ps), ps[i].id) == i {
      var k := FoundOnce(ps, ps[i].id);
      assert Ids(ps)[i] == ps[i].id;
    }
  }

  /** Sorting a list with each panel once orders it by mobile order, ties as listed. */
  lemma ListSorted(ps: seq<Panel>)
    requires EachOnce(ps)
    ensures SortedBy(Ids(ps), Sort(ps))
  {
    hide EachOnce, PlaceOf, Sort, SortedBy;
    ListedInPlace(ps);
    SortStable(Ids(ps), ps);
  }

  /** Wherever the two panels stand in the list, the first stands before the second. */
  predicate StandsBefore(ns: seq<Panel>, first: PanelId, second: PanelId) {
    forall i, j :: 0 <= i < |ns| && 0 <= j < |ns| && ns[i].id == first && ns[j].id == second ==> i < j
  }

  lemma SortedStands(ids: seq<PanelId>, sorted: seq<Panel>, p: Panel, q: Panel)
    requires EachOnce(sorted) && SortedBy(ids, sorted) && p in sorted && q in sorted && p.id != q.id
    ensures StandsBefore(sorted, p.id, q.id) <==> Before(ids, p, q)
  {
    hide EachOnce, PlaceOf;
    var i := FoundOnce(sorted, p.id);
    var j := FoundOnce(sorted, q.id);
    assert sorted[i] == p && sorted[j] == q;
  }

  /** The same panels, renumbered; a panel stands before another exactly when it has the lower
      mobile order, or the same one and the earlier place in the registry. */
  predicate OnlyRenumbered(ps: seq<Panel>, ns: seq<Panel>) {
    && |ns| == |ps|
    && (forall p :: p in ps ==> exists i :: 0 <= i < |ns| && ns[i] == p.(order := i))
    && (forall p, q :: p in ps && q in ps && p.id != q.id ==> (StandsBefore(ns, p.id, q.id) <==> Before(REGISTRY, p, q)))
  }

  lemma RenumberOnly(sorted: seq<Panel>)
    requires EachOnce(sorted) && SortedBy(REGISTRY, sorted)
    ensures OnlyRenumbered(sorted, Renumber(sorted))
  {
    hide EachOnce, SortedBy, Before;
    var ns := Renumber(sorted);
    forall p, q | p in sorted && q in sorted && p.id != q.id
      ensures StandsBefore(ns, p.id, q.id) <==> Before(REGISTRY, p, q)
    {
      SortedStands(REGISTRY, sorted, p, q);
    }
    forall p | p in sorted ensures exists i :: 0 <= i < |ns| && ns[i] == p.(order := i) {
      var i :| 0 <= i < |sorted| && sorted[i] == p;
      assert ns[i] == p.(order := i);
    }
  }

  /** Panels read in registry order and sorted are ordered by mobile order, ties by registry. */
  lemma RegistrySorted(entries: seq<Entry>)
    ensures var es := PanelsFor(entries, REGISTRY); EachOnce(es) && SortedBy(REGISTRY, Sort(es))
  {
    hide PanelFor, PanelsFor, PlaceOf, Sort, SortedBy, InBounds, EachOnce, Ids;
    var es := PanelsFor(entries, REGISTRY);
    RegistryPanels(entries);
    RegistryEachOnce(es);
    ListSorted(es);
  }

  lemma SameRenumbered(es: seq<Panel>, ps: seq<Panel>, ns: seq<Panel>)
    requires OnlyRenumbered(es, ns) && |es| == |ps| && forall p :: p in ps ==> p in es
    ensures OnlyRenumbered(ps, ns)
  {
    hide StandsBefore, Before;
  }

  lemma NormalizingRenumbers(ps: seq<Panel>)
    requires EachOnce(ps) && forall p :: p in ps ==> InBounds(p)
    ensures OnlyRenumbered(ps, Normalize(Stored(ps)))
  {
    hide PanelsFor, PanelFor, InBounds, Sort, EachOnce, Renumber, OnlyRenumbered, SortedBy;
    var es := PanelsFor(WrittenAll(ps), REGISTRY);
    WrittenReadsBack(ps);
    SortKeeps(es);
    RegistrySorted(WrittenAll(ps));
    RenumberOnly(Sort(es));
    EachOnceLength(ps);
    EachOnceLength(es);
    SameRenumbered(Sort(es), ps, Normalize(Stored(ps)));
  }

  /** Normalising an accepted layout later keeps every panel's place, size and visibility; it
      orders the panels by mobile order, ties by the registry, and renumbers them. */
  lemma AcceptedSurvivesNormalizing(payload: Layout, available: set<PanelId>, base: Layout)
    requires Validate(payload, available, base).Ok?
    ensures var ps := Validate(payload, available, base).value;
            OnlyRenumbered(ps, Normalize(Stored(ps)))
  {
    hide Validate, Normalize, InBounds, EachOnce, OnlyRenumbered;
    AcceptedIsComplete(payload, available, base);
    NormalizingRenumbers(Validate(payload, available, base).value);
  }

  /** Two panels of an accepted layout keep their order through normalising if and only if their
      mobile orders differ or they are listed as in the registry. */
  lemma OrderKeptExactly(payload: Layout, available: set<PanelId>, base: Layout, i: nat, j: nat)
    requires Validate(payload, available, base).Ok?
    requires i < j < |Validate(payload, available, base).value|
    ensures var ps := Validate(payload, available, base).value;
            StandsBefore(Normalize(Stored(ps)), ps[i].id, ps[j].id)
            <==> ps[i].order != ps[j].order || PlaceOf(REGISTRY, ps[i].id) < PlaceOf(REGISTRY, ps[j].id)
  {
    hide Normalize, InBounds, EachOnce, Sort, StandsBefore, PlaceOf, Collected, VisibleApart, OrdersUnique, Merged;
    var ps := Validate(payload, available, base).value;
    AcceptedIsComplete(payload, available, base);
    AcceptedSurvivesNormalizing(payload, available, base);
    SortSorts(Merged(Normalize(base), Collected(payload.panels).value));
    var k := FoundOnce(ps, ps[i].id);
    assert ps[i].id != ps[j].id;
    assert ps[i] in ps && ps[j] in ps;
  }

  /** A stored layout that puts Business Impact last. */
  const IMPACT_LAST := Layout(true, [Written(Default(BusinessImpact).(order := 9))])

  lemma RenumberedStands(sorted: seq<Panel>, first: PanelId, second: PanelId, i: nat, j: nat)
    requires StandsBefore(sorted, first, second) && i < |sorted| && j < |sorted|
    requires Renumber(sorted)[i].id == first && Renumber(sorted)[j].id == second
    ensures i < j && Renumber(sorted)[j].order == j
  {
  }

  lemma ImpactLast(place: nat, last: nat)
    requires var ns := Normalize(IMPACT_LAST);
             place < |ns| && last < |ns| && ns[place].id == NeedsAttention && ns[last].id == BusinessImpact
    ensures place < last && Normalize(IMPACT_LAST)[last].order == last
  {
    hide PlaceOf, Sort, EachOnce, SortedBy, InBounds, PanelFor, PanelsFor, StandsBefore, Ids, Renumber, Written, WrittenAll;
    var es := PanelsFor(IMPACT_LAST.panels, REGISTRY);
    ImpactPanels();
    RegistrySorted(IMPACT_LAST.panels);
    SortKeeps(es);
    SortedStands(REGISTRY, Sort(es), Default(NeedsAttention), Default(BusinessImpact).(order := 9));
    RenumberedStands(Sort(es), NeedsAttention, BusinessImpact, place, last);
  }

  lemma ImpactPanels()
    ensures Default(BusinessImpact).(order := 9) in PanelsFor(IMPACT_LAST.panels, REGISTRY)
    ensures Default(NeedsAttention) in PanelsFor(IMPACT_LAST.panels, REGISTRY)
  {
    hide InBounds, PanelsFor;
    var stored := IMPACT_LAST.panels;
    assert Last(stored) == Written(Default(BusinessImpact).(order := 9)) && Front(stored) == [];
    assert StoredFor(stored, NeedsAttention) == None;
    ImpactRead();
    ListedPanel(stored, BusinessImpact);
    ListedPanel(stored, NeedsAttention);
  }

  lemma ImpactRead()
    ensures PanelFor(IMPACT_LAST.panels, BusinessImpact) == Default(BusinessImpact).(order := 9)
  {
  }

  lemma CollectsOne(p: Panel)
    requires InBounds(p) && 0 <= p.order < |REGISTRY|
    ensures Collected([Written(p)]) == Ok(map[p.id := p])
  {
    hide InBounds;
    assert Front([Written(p)]) == [] && Collected([]) == Ok(map[]);
    assert map[][p.id := p] == map[p.id := p];
  }

  lemma SameIdsEachOnce(ps: seq<Panel>, qs: seq<Panel>)
    requires EachOnce(ps) && Ids(qs) == Ids(ps)
    ensures EachOnce(qs)
  {
  }

  lemma MergedSorted(ns: seq<Panel>, m: map<PanelId, Panel>)
    requires EachOnce(ns) && forall id :: id in m ==> m[id].id == id
    ensures SortedBy(Ids(ns), Sort(Merged(ns, m)))
  {
    hide EachOnce, PlaceOf, Sort, SortedBy;
    var merged := Merged(ns, m);
    assert Ids(merged) == Ids(ns);
    assert EachOnce(merged) by { SameIdsEachOnce(ns, merged); }
    ListSorted(merged);
  }

  lemma TiedStands(ns: seq<Panel>, m: map<PanelId, Panel>, place: nat, last: nat, moved: Panel)
    requires EachOnce(ns) && (forall p :: p in ns ==> InBounds(p)) && InBounds(moved)
    requires place < last < |ns| && m == map[ns[place].id := moved]
    requires moved.id == ns[place].id && moved.id != ns[last].id && moved.order == ns[last].order
    ensures var sorted := Sort(Merged(ns, m));
            moved in sorted && ns[last] in sorted && StandsBefore(sorted, moved.id, ns[last].id)
  {
    hide Sort, EachOnce, StandsBefore, SortedBy, InBounds, PlaceOf;
    var merged := Merged(ns, m);
    MergedEachOnce(ns, m);
    MergedSorted(ns, m);
    SortKeeps(merged);
    ListedInPlace(ns);
    assert merged[place] == moved && merged[last] == ns[last];
    assert moved in merged && ns[last] in merged;
    SortedStands(Ids(ns), Sort(merged), moved, ns[last]);
  }

  lemma TiedRenumbered(ps: seq<Panel>, ns: seq<Panel>, p: Panel, q: Panel)
    requires OnlyRenumbered(ps, ns) && p in ps && q in ps
    requires p.order == q.order && p.id == NeedsAttention && q.id == BusinessImpact
    ensures StandsBefore(ns, BusinessImpact, NeedsAttention)
  {
    hide StandsBefore, PlaceOf;
    ImpactListedFirst();
    assert Before(REGISTRY, q, p);
  }

  lemma ImpactListedFirst()
    ensures PlaceOf(REGISTRY, BusinessImpact) < PlaceOf(REGISTRY, NeedsAttention)
  {
    hide PlaceOf;
    assert REGISTRY[0] == BusinessImpact && REGISTRY[2] == NeedsAttention;
  }

  /** A tie that normalising swaps: the payload leaves Business Impact out and gives Needs
      Attention the same mobile order. */
  lemma TiedPanelsSwap() returns (payload: Layout)
    ensures Validate(payload, {NeedsAttention}, IMPACT_LAST).Ok?
    ensures var ps := Validate(payload, {NeedsAttention}, IMPACT_LAST).value;
            StandsBefore(ps, NeedsAttention, BusinessImpact)
            && StandsBefore(Normalize(Stored(ps)), BusinessImpact, NeedsAttention)
  {
    hide Sort, EachOnce, Merged, StandsBefore, Normalize, SortedBy, Overlaps, Collected;
    var ns := Normalize(IMPACT_LAST);
    NormalizedPanels(IMPACT_LAST);
    var last := FoundOnce(ns, BusinessImpact);
    var place := FoundOnce(ns, NeedsAttention);
    EachOnceLength(ns);
    ImpactLast(place, last);
    var moved := Default(NeedsAttention).(order := last);
    payload := Layout(true, [Written(moved)]);
    CollectsOne(moved);
    var m := map[NeedsAttention := moved];
    var merged := Merged(ns, m);
    assert Validate(payload, {NeedsAttention}, IMPACT_LAST) == Ok(Sort(merged));
    MergedSorted(ns, m);
    TiedStands(ns, m, place, last, moved);
    AcceptedSurvivesNormalizing(payload, {NeedsAttention}, IMPACT_LAST);
    TiedRenumbered(Sort(merged), Normalize(Stored(Sort(merged))), moved, ns[last]);
  }
}
