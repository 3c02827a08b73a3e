/** Normalising and validating a panel layout as the loops of the source do, proved against
    CommandLayout. */
module CommandLayoutStore {

  import opened Common
  import opened CommandLayout
  import opened CommandLayoutProofs

  predicate Holds(stored: map<PanelId, Entry>, entries: seq<Entry>) {
    forall id :: StoredFor(entries, id) == if id in stored then Some(stored[id]) else None
  }

  /** normalize_layout */
  method NormalizeLayout(layout: Layout) returns (panels: seq<Panel>)
    ensures panels == Normalize(layout)
  {
    hide ReadEntry, Default;
    if layout.NotALayout? || !layout.supported {
      return DefaultLayout();
    }
    var stored: map<PanelId, Entry> := map[];
    for i := 0 to |layout.panels|
      invariant Holds(stored, layout.panels[..i])
      invariant forall id :: id in stored ==> stored[id].Entry?
    {
      var panel := layout.panels[i];
      assert Front(layout.panels[..i + 1]) == layout.panels[..i] && Last(layout.panels[..i + 1]) == panel;
      if panel.Entry? && panel.id.Some? {
        stored := stored[panel.id.value := panel];
      }
    }
    assert layout.panels[..|layout.panels|] == layout.panels;
    var normalized: seq<Panel> := [];
    for k := 0 to |REGISTRY|
      invariant |normalized| == k
      invariant forall j :: 0 <= j < k ==> normalized[j] == PanelFor(layout.panels, REGISTRY[j])
    {
      var id := REGISTRY[k];
      var entry := if id in stored then ReadEntry(stored[id], id) else Default(id);
      normalized := normalized + [entry];
    }
    assert normalized == PanelsFor(layout.panels, REGISTRY);
    panels := Sort(normalized);
    ghost var sorted := panels;
    for i := 0 to |panels|
      invariant |panels| == |sorted|
      invariant forall j :: 0 <= j < i ==> panels[j] == sorted[j].(order := j)
      invariant forall j :: i <= j < |panels| ==> panels[j] == sorted[j]
    {
      panels := panels[i := panels[i].(order := i)];
    }
    assert panels == Renumber(sorted);
  }

  /** The first loop of validate_layout_payload. */
  method Collect(entries: seq<Entry>) returns (result: Result<map<PanelId, Panel>, Fault>)
    ensures result == Collected(entries)
  {
    hide Submitted;
    var byId: map<PanelId, Panel> := map[];
    for i := 0 to |entries|
      invariant Collected(entries[..i]) == Ok(byId)
    {
      assert Front(entries[..i + 1]) == entries[..i] && Last(entries[..i + 1]) == entries[i];
      var one := Submitted(entries[i], byId);
      if one.Err? {
        CollectedFails(entries, i + 1);
        return Err(one.error);
      }
      byId := byId[one.value.id := one.value];
    }
    assert entries[..|entries|] == entries;
    return Ok(byId);
  }

  lemma {:induction false} CollectedFails(entries: seq<Entry>, i: nat)
    requires i <= |entries| && Collected(entries[..i]).Err?
    ensures Collected(entries) == Collected(entries[..i])
  {
    hide Submitted;
    if i < |entries| {
      assert Front(entries)[..i] == entries[..i];
      CollectedFails(Front(entries), i);
    } else {
      assert entries[..i] == entries;
    }
  }

  /** The pairwise tests over the available panels, listed in registry order. */
  method FindOverlap(m: map<PanelId, Panel>, available: set<PanelId>) returns (apart: bool)
    requires available <= m.Keys
    ensures apart == VisibleApart(m, available)
  {
    hide Overlaps;
    var visible: seq<PanelId> := [];
    for k := 0 to |REGISTRY|
      invariant forall id :: id in visible <==> id in REGISTRY[..k] && id in available && !m[id].hidden
      invariant forall i, j :: 0 <= i < j < |visible| ==> visible[i] != visible[j]
    {
      assert REGISTRY[..k + 1] == REGISTRY[..k] + [REGISTRY[k]];
      assert REGISTRY[k] !in REGISTRY[..k];
      if REGISTRY[k] in available && !m[REGISTRY[k]].hidden {
        visible := visible + [REGISTRY[k]];
      }
    }
    RegistryComplete();
    OverlapSymmetric();
    for i := 0 to |visible|
      invariant forall a, b :: 0 <= a < i && a < b < |visible| ==> !Overlaps(m[visible[a]], m[visible[b]])
    {
      for j := i + 1 to |visible|
        invariant forall b :: i < b < j ==> !Overlaps(m[visible[i]], m[visible[b]])
      {
        if Overlaps(m[visible[i]], m[visible[j]]) {
          return false;
        }
      }
    }
    forall a, b | a in available && b in available && a != b && !m[a].hidden && !m[b].hidden
      ensures !Overlaps(m[a], m[b])
    {
      assert a in visible && b in visible;
    }
    return true;
  }

  lemma RegistryComplete()
    ensures forall id: PanelId :: id in REGISTRY[..|REGISTRY|]
  {
    forall id: PanelId ensures id in REGISTRY {
      InRegistry(id);
    }
    assert REGISTRY[..|REGISTRY|] == REGISTRY;
  }
  /** validate_layout_payload */
  method ValidatePayload(payload: Layout, available: set<PanelId>, base: Layout)
    returns (result: Result<seq<Panel>, Fault>)
    ensures result == Validate(payload, available, base)
  {
    hide Collected, Normalize, Sort, Merged, VisibleApart, OrdersUnique;
    if payload.NotALayout? || !payload.supported {
      return Err(UnsupportedSchema);
    }
    if |payload.panels| > |REGISTRY| {
      return Err(TooManyPanels);
    }
    var byId := Collect(payload.panels);
    if byId.Err? {
      return Err(byId.error);
    }
    if !(available <= byId.value.Keys) {
      return Err(MissingPanel);
    }
    if !OrdersUnique(byId.value, available) {
      return Err(OrderNotUnique);
    }
    var apart := FindOverlap(byId.value, available);
    if !apart {
      return Err(Overlapping);
    }
    var normalized := NormalizeLayout(base);
    return Ok(Sort(Merged(normalized, byId.value)));
  }
}
