/** What the setup fold promises: it is idempotent, its timeline is numbered without gaps, and
    confirmed telemetry is lost only to a row saved late from an older reading, or on the
    equipment pages. */
module SetupProofs {

  import opened Common
  import opened SetupModel

  predicate Numbered(events: seq<Event>) {
    forall i :: 0 <= i < |events| ==> events[i].sequence == i + 1
  }

  /** t is s after some events were appended: nothing of the timeline is rewritten. */
  predicate Extends(s: Setup, t: Setup) {
    s.events <= t.events && (Numbered(s.events) ==> Numbered(t.events))
  }

  /** Confirmed equipment stays confirmed. */
  predicate KeepsConfirmed(s: Setup, t: Setup) {
    && |t.items| == |s.items|
    && forall i :: 0 <= i < |s.items| && s.items[i].state == TelemetryConfirmed ==>
                     t.items[i].state == TelemetryConfirmed && t.items[i].firstTelemetry == s.items[i].firstTelemetry
  }

  lemma LoggedStays(s: Setup, t: Setup, kind: Kind)
    requires Extends(s, t) && Logged(s, kind)
    ensures Logged(t, kind)
  {
    var e :| e in s.events && e.kind == kind;
    assert e in t.events;
  }

  // ------------------------------------------------------------ the item loops

  /** What the item loop has done from the i-th row on, and what it leaves alone. */
  lemma {:induction false} FoldItemsDoes(s: Setup, i: nat)
    requires i <= |s.items|
    ensures var t := FoldItems(s, i);
            && t == s.(items := t.items, events := t.events) && Extends(s, t) && |t.items| == |s.items|
            && (forall k :: 0 <= k < i ==> t.items[k] == s.items[k])
            && (forall k :: i <= k < |s.items| ==> t.items[k] == FoldedItem(s.items[k]))
    decreases |s.items| - i
  {
    hide FoldedItem, Answered, Live, JudgedKind;
    if i < |s.items| {
      var t := FoldItem(s, i);
      FoldItemsDoes(t, i + 1);
    }
  }

  predicate Quiet(it: Item) {
    !Answered(it) && !Live(it)
  }

  lemma {:induction false} QuietItemsFoldToThemselves(s: Setup, i: nat)
    requires i <= |s.items| && forall k :: i <= k < |s.items| ==> Quiet(s.items[k])
    ensures FoldItems(s, i) == s
    decreases |s.items| - i
  {
    hide Answered, Live, JudgedKind, Judged;
    if i < |s.items| {
      assert Quiet(s.items[i]);
      assert s.items[i := s.items[i]] == s.items;
      QuietItemsFoldToThemselves(s, i + 1);
    }
  }

  lemma FoldedIsQuiet(it: Item)
    ensures Quiet(FoldedItem(it))
    ensures it.state == TelemetryConfirmed ==> FoldedItem(it) == it
    ensures !InTrouble(it.state) || it.state.NeedsAttention? ==>
              FoldedItem(it).state == it.state || !(FoldedItem(it).state.ItemFailed? || FoldedItem(it).state.RolledBack?)
  {
  }

  function TimedOutItem(it: Item): Item {
    if Silent(it) then it.(state := NeedsAttention) else it
  }

  lemma {:induction false} TimeOutItemsDoes(s: Setup, i: nat)
    requires i <= |s.items|
    ensures var t := TimeOutItems(s, i);
            && t == s.(items := t.items, events := t.events) && Extends(s, t) && |t.items| == |s.items|
            && (forall k :: 0 <= k < i ==> t.items[k] == s.items[k])
            && (forall k :: i <= k < |s.items| ==> t.items[k] == TimedOutItem(s.items[k]))
    decreases |s.items| - i
  {
    hide LoggedFor;
    if i < |s.items| {
      TimeOutItemsDoes(TimeOutItem(s, i), i + 1);
    }
  }

  lemma {:induction false} HeardItemsDoNotTimeOut(s: Setup, i: nat)
    requires i <= |s.items| && forall k :: i <= k < |s.items| ==> !Silent(s.items[k])
    ensures TimeOutItems(s, i) == s
    decreases |s.items| - i
  {
    if i < |s.items| {
      HeardItemsDoNotTimeOut(s, i + 1);
    }
  }

  // -------------------------------------------------- safety of a single fold

  /** What reaches the item loop. */
  function BeforeItems(s: Setup, ev: Evidence): Setup {
    FoldRestore(FoldDiscovery(FoldPreflight(s, ev), ev), ev)
  }

  lemma AppendExtends(s: Setup, kind: Kind, item: Option<nat>, scan: string)
    ensures Extends(s, Append(s, kind, item, scan))
  {
  }

  lemma PreflightKeeps(s: Setup, ev: Evidence)
    ensures Extends(s, FoldPreflight(s, ev)) && FoldPreflight(s, ev).items == s.items
  {
    hide Logged, Extends;
    AppendExtends(s, PreflightCompleted, None, "");
    AppendExtends(s, PreflightFailed, None, "");
    SelfExtends(s);
  }

  lemma DiscoveryKeeps(s: Setup, ev: Evidence)
    ensures Extends(s, FoldDiscovery(s, ev)) && FoldDiscovery(s, ev).items == s.items
  {
    hide LoggedScan, Reported, ReportKind;
  }

  lemma SelfExtends(s: Setup)
    ensures Extends(s, s)
  {
  }

  lemma BeforeItemsKeeps(s: Setup, ev: Evidence)
    ensures Extends(s, BeforeItems(s, ev))
    ensures BeforeItems(s, ev).items == if ConfigIs(ev, CfgActive) then RestoreAll(s.items) else s.items
  {
    hide FoldPreflight, FoldDiscovery, RestoreAll, ConfigIs, Numbered;
    PreflightKeeps(s, ev);
    DiscoveryKeeps(FoldPreflight(s, ev), ev);
  }

  lemma RestoreKeeps(items: seq<Item>)
    ensures forall i :: 0 <= i < |items| ==>
                          && Restored(RestoreAll(items)[i]) == RestoreAll(items)[i]
                          && (items[i].state == TelemetryConfirmed ==> RestoreAll(items)[i] == items[i])
  {
  }

  lemma GatheredKeeps(s: Setup, ev: Evidence)
    ensures Extends(s, Gathered(s, ev)) && KeepsConfirmed(s, Gathered(s, ev))
    ensures forall i :: 0 <= i < |Gathered(s, ev).items| ==> Quiet(Gathered(s, ev).items[i])
    ensures ConfigIs(ev, CfgActive) ==>
              forall i :: 0 <= i < |Gathered(s, ev).items| ==> Restored(Gathered(s, ev).items[i]) == Gathered(s, ev).items[i]
  {
    hide FoldItems, FoldedItem, Quiet, BeforeItems, Restored, Numbered;
    var t := BeforeItems(s, ev);
    assert Gathered(s, ev) == FoldItems(t, 0) by { GatheredFrom(s, ev); }
    BeforeItemsKeeps(s, ev);
    FoldItemsDoes(t, 0);
    assert KeepsConfirmed(s, t) by { RestoreKeeps(s.items); }
    assert ConfigIs(ev, CfgActive) ==> forall i :: 0 <= i < |t.items| ==> Restored(t.items[i]) == t.items[i] by {
      RestoreKeeps(s.items);
    }
    forall i | 0 <= i < |t.items|
      ensures Quiet(FoldedItem(t.items[i]))
      ensures t.items[i].state == TelemetryConfirmed ==> FoldedItem(t.items[i]) == t.items[i]
      ensures Restored(t.items[i]) == t.items[i] ==> Restored(FoldedItem(t.items[i])) == FoldedItem(t.items[i])
    {
      FoldedIsQuiet(t.items[i]);
      FoldedStaysRestored(t.items[i]);
    }
  }

  lemma GatheredFrom(s: Setup, ev: Evidence)
    ensures Gathered(s, ev) == FoldItems(BeforeItems(s, ev), 0)
  {
  }

  lemma FoldedStaysRestored(it: Item)
    ensures Restored(it) == it ==> Restored(FoldedItem(it)) == FoldedItem(it)
  {
  }

  /** What the configuration's status does to one row. */
  function ConfigItem(ev: Evidence, it: Item): Item {
    if ev.config.None? then it
    else match ev.config.value.status
      case CfgActive => if Overdue(ev) then TimedOutItem(it) else it
      case CfgRolledBack => RolledItem(it)
      case CfgFailed => FailedItem(it)
      case _ => it
  }

  lemma ConfigRows(s: Setup, ev: Evidence)
    ensures var c := FoldConfig(s, ev);
            && Extends(s, c) && |c.items| == |s.items|
            && forall i :: 0 <= i < |s.items| ==> c.items[i] == ConfigItem(ev, s.items[i])
  {
    hide TimeOutItems, Logged, Overdue, TimedOutItem, RolledItem, FailedItem;
    if ConfigIs(ev, CfgActive) {
      TimeOutItemsDoes(AppendOnce(s.(state := Verifying, page := VerifyPage), ConfigurationActive), 0);
    }
  }

  lemma ConfigKeeps(s: Setup, ev: Evidence)
    ensures Extends(s, FoldConfig(s, ev)) && KeepsConfirmed(s, FoldConfig(s, ev))
  {
    hide FoldConfig, Extends, Overdue;
    ConfigRows(s, ev);
  }

  /** No fold ever takes equipment out of confirmed telemetry, and the timeline only grows,
      numbered without gaps. */
  lemma SyncKeepsConfirmed(s: Setup, ev: Evidence)
    ensures KeepsConfirmed(s, Sync(s, ev)) && Extends(s, Sync(s, ev))
  {
    hide Gathered, FoldConfig, Deployed, AllLive, SomeLive, SomeInTrouble, AllInTrouble;
    GatheredKeeps(s, ev);
    ConfigKeeps(Gathered(s, ev), ev);
  }

  // ------------------------------------------------------- folds that overlap

  /** A run and the rows that overlapping folds and equipment pages have read and may still save. */
  datatype Desk = Desk(setup: Setup, views: map<(nat, nat), Item>)

  /** No fold holds a lock on the run: besides whole folds, each statement that a fold writes on
      its own may come at any time, whatever was written since the fold read. Neither do the
      equipment pages: PageRow saves a whole row from an earlier reading, with its state replaced
      or as read (start_validation, restarting or saving a draft), PageState only the state and the
      validation result (choosing a template, confirming readings, deploying). */
  datatype Happening =
    | Observed(item: nat, validation: Option<Rpc>, lastTelemetry: Option<nat>)
    | Noted(kind: Kind, about: Option<nat>, scan: string)
    | Synced(evidence: Evidence)
    | MovedRows(status: ConfigStatus)
    | SavedRun(state: RunState, page: Page, completedAt: Option<nat>)
    | ReadRow(worker: nat, item: nat)
    | SaveRow(worker: nat, item: nat)
    | SaveOverdue(worker: nat, item: nat)
    | PageRow(worker: nat, item: nat, to: Option<ItemState>, hasDevice: bool, connectionMode: bool)
    | PageState(item: nat, itemState: ItemState, connectionMode: bool)

  /** The bulk updates by configuration status. */
  function Moved(items: seq<Item>, status: ConfigStatus): (rs: seq<Item>)
    ensures |rs| == |items|
  {
    match status
    case CfgActive => RestoreAll(items) case CfgRolledBack => RollAll(items) case CfgFailed => FailAll(items)
    case _ => items
  }

  /** The row as the fold read it, with the answer it fetches afterwards. */
  function Viewed(current: Item, read: Item): Item {
    read.(validation := current.validation)
  }

  /** The item loop saves over the row what it makes of its reading: every column after an
      answer, the state and the first telemetry otherwise. */
  function SavedOver(current: Item, read: Item): Item {
    var it := Viewed(current, read);
    if Answered(it) then
      var tests := Judged(it).mapTests - it.mapTests;
      Judged(it).(siteDefined := current.siteDefined, lastTelemetry := current.lastTelemetry,
                  mapTests := current.mapTests + tests)
    else if Live(it) then current.(state := TelemetryConfirmed, firstTelemetry := it.lastTelemetry)
    else current
  }

  function SaveRowOn(s: Setup, i: nat, read: Item): Setup
    requires i < |s.items|
  {
    var it := Viewed(s.items[i], read);
    var t := s.(items := s.items[i := SavedOver(s.items[i], read)]);
    if Answered(it) then Append(t, JudgedKind(it), Some(i), "")
    else if Live(it) then Append(t, FirstTelemetry, Some(i), "")
    else t
  }

  function SaveOverdueOn(s: Setup, i: nat, read: Item): Setup
    requires i < |s.items|
  {
    if !Silent(read) then s
    else
      var t := s.(items := s.items[i := s.items[i].(state := NeedsAttention)]);
      if LoggedFor(t, FirstTelemetryTimeout, i) then t else Append(t, FirstTelemetryTimeout, Some(i), "")
  }

  function PageStateOf(read: Item, to: Option<ItemState>): ItemState {
    if to.Some? then to.value else read.state
  }

  /** What an equipment page saves over the row: the columns of its reading. */
  function PageOver(current: Item, read: Item, to: Option<ItemState>, hasDevice: bool, connectionMode: bool): Item {
    current.(state := PageStateOf(read, to), firstTelemetry := read.firstTelemetry,
             hasDevice := hasDevice, connectionMode := connectionMode)
  }

  function Happen(d: Desk, h: Happening): Desk {
    var s := d.setup;
    match h
    case Observed(i, validation, lastTelemetry) =>
      if i < |s.items| then
        var seen := s.items[i].(validation := validation, lastTelemetry := lastTelemetry);
        d.(setup := s.(items := s.items[i := seen]))
      else d
    case Noted(kind, about, scan) => d.(setup := Append(s, kind, about, scan))
    case Synced(ev) => d.(setup := Sync(s, ev))
    case MovedRows(status) => d.(setup := s.(items := Moved(s.items, status)))
    case SavedRun(state, page, at) => d.(setup := s.(state := state, page := page, completedAt := at))
    case ReadRow(w, i) => if i < |s.items| then d.(views := d.views[(w, i) := s.items[i]]) else d
    case SaveRow(w, i) =>
      if (w, i) in d.views && i < |s.items|
      then Desk(SaveRowOn(s, i, d.views[(w, i)]), d.views - {(w, i)}) else d
    case SaveOverdue(w, i) =>
      if (w, i) in d.views && i < |s.items|
      then Desk(SaveOverdueOn(s, i, d.views[(w, i)]), d.views - {(w, i)}) else d
    case PageRow(w, i, to, hasDevice, mode) =>
      if (w, i) in d.views && i < |s.items| then
        var row := PageOver(s.items[i], d.views[(w, i)], to, hasDevice, mode);
        Desk(s.(items := s.items[i := row]), d.views - {(w, i)})
      else d
    case PageState(i, state, mode) =>
      if i < |s.items| then
        d.(setup := s.(items := s.items[i := s.items[i].(state := state, connectionMode := mode)]))
      else d
  }

  function HappenAll(d: Desk, hs: seq<Happening>): Desk {
    if hs == [] then d else Happen(HappenAll(d, Front(hs)), Last(hs))
  }

  /** Read and saved with nothing in between, a row is what the loops of a whole fold make of it. */
  lemma SavedAtOnce(d: Desk, w: nat, i: nat)
    requires i < |d.setup.items|
    ensures Happen(Happen(d, ReadRow(w, i)), SaveRow(w, i)).setup == FoldItem(d.setup, i)
    ensures Happen(Happen(d, ReadRow(w, i)), SaveOverdue(w, i)).setup == TimeOutItem(d.setup, i)
  {
  }

  predicate Confirmed(d: Desk, i: nat) {
    i < |d.setup.items| && d.setup.items[i].state == TelemetryConfirmed
  }

  /** A fold's save overwrites a confirmed row from a reading in which it still had to be judged,
      was still silent, or carried another first telemetry; an equipment page saves a confirmed
      row in another state, or from a reading with another first telemetry. */
  predicate Disturbs(d: Desk, h: Happening) {
    match h
    case SaveRow(w, i) =>
      && (w, i) in d.views && Confirmed(d, i)
      && var it := Viewed(d.setup.items[i], d.views[(w, i)]);
         Answered(it) || (Live(it) && it.lastTelemetry != d.setup.items[i].firstTelemetry)
    case SaveOverdue(w, i) => (w, i) in d.views && Confirmed(d, i) && Silent(d.views[(w, i)])
    case PageRow(w, i, to, _, _) =>
      && (w, i) in d.views && Confirmed(d, i)
      && var read := d.views[(w, i)];
         PageStateOf(read, to) != TelemetryConfirmed || read.firstTelemetry != d.setup.items[i].firstTelemetry
    case PageState(i, state, _) => Confirmed(d, i) && state != TelemetryConfirmed
    case _ => false
  }

  /** Confirmed equipment is lost, or given another first telemetry, by exactly such a save. */
  lemma StepKeepsConfirmedExactly(d: Desk, h: Happening)
    ensures KeepsConfirmed(d.setup, Happen(d, h).setup) <==> !Disturbs(d, h)
  {
    hide Sync, LoggedFor;
    if h.Synced? {
      SyncKeepsConfirmed(d.setup, h.evidence);
    }
  }

  ghost predicate Undisturbed(d: Desk, hs: seq<Happening>) {
    forall k :: 0 <= k < |hs| ==> !Disturbs(HappenAll(d, hs[..k]), hs[k])
  }

  /** In every run without one, overlapping folds and equipment pages included, confirmed
      equipment stays confirmed. */
  lemma {:induction false} ConfirmedStaysConfirmed(d: Desk, hs: seq<Happening>)
    requires Undisturbed(d, hs)
    ensures KeepsConfirmed(d.setup, HappenAll(d, hs).setup)
  {
    hide Happen, Disturbs;
    if hs != [] {
      var front := Front(hs);
      assert hs[..|front|] == front;
      assert forall k :: 0 <= k < |front| ==> front[..k] == hs[..k];
      ConfirmedStaysConfirmed(d, front);
      StepKeepsConfirmedExactly(HappenAll(d, front), Last(hs));
    }
  }

  lemma StepExtends(d: Desk, h: Happening)
    ensures Extends(d.setup, Happen(d, h).setup)
  {
    hide Sync, LoggedFor, Answered, Live, JudgedKind, SavedOver, Silent;
    if h.Synced? {
      SyncKeepsConfirmed(d.setup, h.evidence);
    }
  }

  /** In every run the timeline only grows, numbered without gaps. */
  lemma {:induction false} TimelineOnlyGrows(d: Desk, hs: seq<Happening>)
    ensures Extends(d.setup, HappenAll(d, hs).setup)
  {
    hide Happen;
    if hs != [] {
      TimelineOnlyGrows(d, Front(hs));
      StepExtends(HappenAll(d, Front(hs)), Last(hs));
    }
  }

  /** A fold that read a silent row as overdue undoes the confirmation another fold made since. */
  lemma OverdueSaveUnconfirms(d: Desk, i: nat, at: nat)
    requires i < |d.setup.items| && Silent(d.setup.items[i]) && d.setup.items[i].hasDevice
    ensures var read := Happen(d, ReadRow(1, i));
            var heard := Happen(read, Observed(i, d.setup.items[i].validation, Some(at)));
            var confirmed := Happen(Happen(heard, ReadRow(2, i)), SaveRow(2, i));
            var undone := Happen(confirmed, SaveOverdue(1, i));
            && confirmed.setup.items[i].state == TelemetryConfirmed
            && undone.setup.items[i].state == NeedsAttention && undone.setup.items[i].lastTelemetry == Some(at)
  {
    hide LoggedFor;
  }

  /** A start of validation from a reading before the confirmation undoes it too. */
  lemma ValidationUnconfirms(d: Desk, i: nat, connectionOnly: bool)
    requires i < |d.setup.items| && Live(d.setup.items[i])
    ensures var read := Happen(Happen(d, ReadRow(1, i)), ReadRow(2, i));
            var confirmed := Happen(read, SaveRow(2, i));
            var started := Happen(confirmed, PageRow(1, i, Some(Validating), true, connectionOnly));
            && confirmed.setup.items[i].state == TelemetryConfirmed
            && started.setup.items[i].state == Validating
            && started.setup.items[i].firstTelemetry == d.setup.items[i].firstTelemetry
  {
  }

  /** Equipment deployed again is confirmed by the first fold that sees its configuration active,
      from the telemetry it had sent before. */
  lemma RedeployConfirmsFromOldTelemetry(d: Desk, i: nat, ev: Evidence)
    requires Confirmed(d, i) && d.setup.items[i].hasDevice && d.setup.items[i].lastTelemetry.Some?
    requires ConfigIs(ev, CfgActive)
    ensures var queued := Happen(d, PageState(i, Queued, d.setup.items[i].connectionMode)).setup;
            var t := Sync(queued, ev);
            && queued.items[i].state == Queued && |t.items| == |queued.items|
            && t.items[i].state == TelemetryConfirmed && t.items[i].firstTelemetry == d.setup.items[i].lastTelemetry
  {
    hide Sync;
    var queued := Happen(d, PageState(i, Queued, d.setup.items[i].connectionMode)).setup;
    RowStateExactly(queued, ev, i);
    RowColumnsExactly(queued, ev, i);
    SyncKeepsConfirmed(queued, ev);
  }

  /** No later fold confirms a row that needs attention again. */
  lemma AttentionStays(s: Setup, ev: Evidence, i: nat)
    requires i < |s.items| && s.items[i].state == NeedsAttention
    ensures i < |Sync(s, ev).items| && Sync(s, ev).items[i].state == NeedsAttention
  {
    hide Sync;
    RowStateExactly(s, ev, i);
  }

  // ------------------------------------------------------ what one fold decides

  /** A fold leaves each row to its own evidence and the configuration's status. */
  lemma RowAfterSync(s: Setup, ev: Evidence, i: nat)
    requires i < |s.items|
    ensures i < |Sync(s, ev).items|
    ensures Sync(s, ev).items[i]
            == ConfigItem(ev, FoldedItem(if ConfigIs(ev, CfgActive) then Restored(s.items[i]) else s.items[i]))
  {
    hide Gathered, FoldConfig, Deployed, AllLive, SomeLive, SomeInTrouble, AllInTrouble, FoldItems, BeforeItems, Overdue;
    hide FoldedItem, Restored, ConfigItem, Extends;
    BeforeItemsKeeps(s, ev);
    GatheredFrom(s, ev);
    FoldItemsDoes(BeforeItems(s, ev), 0);
    ConfigRows(Gathered(s, ev), ev);
  }

  /** The state a row has after a fold: a finished validation is judged by its answer; equipment that
      is applied, or put back to applied by an active configuration, is confirmed by telemetry, and
      else follows the configuration; queued equipment follows it too, any other row stays. */
  lemma RowStateExactly(s: Setup, ev: Evidence, i: nat)
    requires i < |s.items|
    ensures i < |Sync(s, ev).items|
    ensures
      var it := s.items[i];
      var active := ev.config.Some? && ev.config.value.status == CfgActive;
      var rolledBack := ev.config.Some? && ev.config.value.status == CfgRolledBack;
      var failed := ev.config.Some? && ev.config.value.status == CfgFailed;
      var applied := it.state == Applied || (active && it.hasDevice && it.state in {Queued, ItemFailed, RolledBack});
      var late := active && ev.config.value.since.Some? && ev.config.value.since.value + ev.timeout <= ev.now;
      Sync(s, ev).items[i].state ==
        if it.state == Validating && it.validation.Some? && it.validation.value.status != RpcOpen then
          if it.validation.value.status != RpcSuccess || !it.validation.value.resultSuccess then NeedsAttention
          else if it.connectionMode || it.validation.value.resultConnection then TemplateSelected
          else AwaitingConfirmation
        else if applied && it.hasDevice && it.lastTelemetry.Some? then TelemetryConfirmed
        else if applied then
          if rolledBack then RolledBack else if late && it.firstTelemetry.None? then NeedsAttention else Applied
        else if it.state == Queued && rolledBack then RolledBack
        else if it.state == Queued && failed then ItemFailed
        else it.state
  {
    hide Sync;
    RowAfterSync(s, ev, i);
  }

  /** A confirmed row carries the telemetry it was confirmed by; a judged one the live test it counts
      as, which a connection test or a fixed template does not. */
  lemma RowColumnsExactly(s: Setup, ev: Evidence, i: nat)
    requires i < |s.items|
    ensures i < |Sync(s, ev).items|
    ensures
      var it := s.items[i];
      var after := Sync(s, ev).items[i];
      var judged := it.state == Validating && it.validation.Some? && it.validation.value.status != RpcOpen;
      && (after.state == TelemetryConfirmed && it.state != TelemetryConfirmed ==> after.firstTelemetry == it.lastTelemetry)
      && (after.state != TelemetryConfirmed ==> after.firstTelemetry == it.firstTelemetry)
      && after.mapTests == it.mapTests + (if judged && it.hasDevice && it.siteDefined && !it.connectionMode
                                             && !it.validation.value.resultConnection then 1 else 0)
      && after.hasDevice == it.hasDevice && after.lastTelemetry == it.lastTelemetry
      && after.connectionMode == (if judged then it.validation.value.resultConnection else it.connectionMode)
  {
    hide Sync;
    RowAfterSync(s, ev, i);
  }

  lemma ConcludeExactly(c: Setup, ev: Evidence)
    ensures
      var t := Conclude(c, ev);
      var live := forall it :: it in c.items && it.hasDevice ==> it.state == TelemetryConfirmed;
      var someLive := exists it :: it in c.items && it.hasDevice && it.state == TelemetryConfirmed;
      var trouble := forall it :: it in c.items && it.hasDevice ==> it.state in {NeedsAttention, ItemFailed, RolledBack};
      var someTrouble := exists it :: it in c.items && it.hasDevice && it.state in {NeedsAttention, ItemFailed, RolledBack};
      var deployed := exists it :: it in c.items && it.hasDevice;
      t == if deployed && live then c.(state := Completed, page := GoLivePage, completedAt := Some(ev.now))
           else if someLive && someTrouble then
             c.(state := CompletedAttention, page := GoLivePage, completedAt := Some(ev.now))
           else if ev.config.Some? && deployed && trouble then c.(state := RunFailed, page := VerifyPage)
           else c
  {
    forall st ensures InTrouble(st) <==> st in {NeedsAttention, ItemFailed, RolledBack} {
    }
  }

  /** The state of the run after a fold, from its rows: completed when all deployed equipment is live,
      completed with attention when some is live and some in trouble, failed when a configuration
      exists and all is in trouble; otherwise it follows the configuration, or the end of the scan. */
  lemma RunStateExactly(s: Setup, ev: Evidence)
    ensures
      var t := Sync(s, ev);
      var live := forall it :: it in t.items && it.hasDevice ==> it.state == TelemetryConfirmed;
      var someLive := exists it :: it in t.items && it.hasDevice && it.state == TelemetryConfirmed;
      var trouble := forall it :: it in t.items && it.hasDevice ==> it.state in {NeedsAttention, ItemFailed, RolledBack};
      var someTrouble := exists it :: it in t.items && it.hasDevice && it.state in {NeedsAttention, ItemFailed, RolledBack};
      var deployed := exists it :: it in t.items && it.hasDevice;
      && t.state == (if deployed && live then Completed
                     else if someLive && someTrouble then CompletedAttention
                     else if ev.config.Some? && deployed && trouble then RunFailed
                     else OpenState(s, ev))
      && t.completedAt == (if (deployed && live) || (someLive && someTrouble) then Some(ev.now) else s.completedAt)
  {
    hide Gathered, FoldConfig, Conclude, OpenState;
    var c := FoldConfig(Gathered(s, ev), ev);
    ConcludeExactly(c, ev);
    ConcludeKeepsRows(c, ev);
    StateBefore(s, ev);
  }

  /** The state of a run that is not over, from the configuration and the scan. */
  function OpenState(s: Setup, ev: Evidence): RunState {
    if ev.config.Some? && ev.config.value.status != CfgOther then
      match ev.config.value.status
      case CfgActive => Verifying
      case CfgRolledBack | CfgFailed => RunFailed
      case _ => Deploying
    else if s.state == Discovering && s.activeScan != "" && ev.report.scan == s.activeScan
            && ev.report.status != ReportOpen
    then Configuring
    else s.state
  }

  lemma StateBefore(s: Setup, ev: Evidence)
    ensures FoldConfig(Gathered(s, ev), ev).state == OpenState(s, ev)
    ensures FoldConfig(Gathered(s, ev), ev).completedAt == s.completedAt
  {
    hide Gathered, FoldConfig;
    GatheredState(s, ev);
    ConfigSetsState(Gathered(s, ev), ev);
    ConfigKeepsEnd(Gathered(s, ev), ev);
  }

  lemma ConfigKeepsEnd(g: Setup, ev: Evidence)
    ensures FoldConfig(g, ev).completedAt == g.completedAt
  {
    hide Logged, TimeOutItems, Overdue, RollAll, FailAll;
    TimeOutItemsDoes(AppendOnce(g.(state := Verifying, page := VerifyPage), ConfigurationActive), 0);
  }

  lemma GatheredState(s: Setup, ev: Evidence)
    ensures Gathered(s, ev).completedAt == s.completedAt
    ensures Gathered(s, ev).state
            == if s.state == Discovering && s.activeScan != "" && ev.report.scan == s.activeScan
                  && ev.report.status != ReportOpen then Configuring else s.state
  {
    hide FoldItems, LoggedScan, Logged, RestoreAll;
    FoldItemsDoes(FoldRestore(FoldDiscovery(FoldPreflight(s, ev), ev), ev), 0);
  }

  lemma ConfigPage(g: Setup, ev: Evidence)
    ensures FoldConfig(g, ev).page
            == if ev.config.Some? && ev.config.value.status in {CfgQueued, CfgWaiting, CfgPublished, CfgAccepted, CfgActive}
               then VerifyPage else g.page
    ensures FoldConfig(g, ev).lastTerminalScan == g.lastTerminalScan
  {
    hide Logged, TimeOutItems, Overdue, RollAll, FailAll;
    TimeOutItemsDoes(AppendOnce(g.(state := Verifying, page := VerifyPage), ConfigurationActive), 0);
  }

  /** The report ends the scan the run is waiting for. */
  predicate Scanned(s: Setup, ev: Evidence) {
    && s.state == Discovering && s.activeScan != "" && ev.report.scan == s.activeScan
    && ev.report.status in {ReportComplete, ReportCancelled, ReportError}
  }

  lemma GatheredPage(s: Setup, ev: Evidence)
    ensures Gathered(s, ev).page == if Scanned(s, ev) then EquipmentPage else s.page
    ensures Gathered(s, ev).lastTerminalScan == if Scanned(s, ev) then s.activeScan else s.lastTerminalScan
  {
    hide FoldItems, LoggedScan, Logged, RestoreAll;
    FoldItemsDoes(FoldRestore(FoldDiscovery(FoldPreflight(s, ev), ev), ev), 0);
  }

  /** The page a run shows after a fold, and the scan it last saw the end of. */
  lemma RunPageExactly(s: Setup, ev: Evidence)
    ensures
      var t := Sync(s, ev);
      var live := forall it :: it in t.items && it.hasDevice ==> it.state == TelemetryConfirmed;
      var someLive := exists it :: it in t.items && it.hasDevice && it.state == TelemetryConfirmed;
      var trouble := forall it :: it in t.items && it.hasDevice ==> it.state in {NeedsAttention, ItemFailed, RolledBack};
      var someTrouble := exists it :: it in t.items && it.hasDevice && it.state in {NeedsAttention, ItemFailed, RolledBack};
      var deployed := exists it :: it in t.items && it.hasDevice;
      && t.page == (if (deployed && live) || (someLive && someTrouble) then GoLivePage
                    else if ev.config.Some? && deployed && trouble then VerifyPage
                    else OpenPage(s, ev))
      && t.lastTerminalScan == (if Scanned(s, ev) then s.activeScan else s.lastTerminalScan)
  {
    hide Gathered, FoldConfig, Conclude, Scanned;
    var c := FoldConfig(Gathered(s, ev), ev);
    ConcludeExactly(c, ev);
    ConcludeKeepsRows(c, ev);
    ConfigPage(Gathered(s, ev), ev);
    GatheredPage(s, ev);
  }

  /** The page of a run that is not over. */
  function OpenPage(s: Setup, ev: Evidence): Page {
    if ev.config.Some? && ev.config.value.status in {CfgQueued, CfgWaiting, CfgPublished, CfgAccepted, CfgActive}
    then VerifyPage
    else if Scanned(s, ev) then EquipmentPage else s.page
  }

  // ------------------------------------------------------------- what it logs

  /** An event of this kind about this row, written by the fold. */
  ghost predicate LogsRow(s: Setup, t: Setup, kind: Kind, i: nat) {
    exists k :: |s.events| <= k < |t.events| && t.events[k].kind == kind && t.events[k].item == Some(i)
  }

  lemma LogsRowStays(s: Setup, t: Setup, u: Setup, kind: Kind, i: nat)
    requires LogsRow(s, t, kind, i) && Extends(t, u)
    ensures LogsRow(s, u, kind, i)
  {
    var k :| |s.events| <= k < |t.events| && t.events[k].kind == kind && t.events[k].item == Some(i);
    assert u.events[k] == t.events[k];
  }

  lemma {:induction false} FoldItemsLogs(s: Setup, i: nat, k: nat)
    requires i <= k < |s.items|
    ensures Answered(s.items[k]) ==> LogsRow(s, FoldItems(s, i), JudgedKind(s.items[k]), k)
    ensures !Answered(s.items[k]) && Live(s.items[k]) ==> LogsRow(s, FoldItems(s, i), FirstTelemetry, k)
    decreases |s.items| - i
  {
    hide Answered, Live, JudgedKind, FoldedItem, LogsRow;
    var t := FoldItem(s, i);
    FoldItemsDoes(t, i + 1);
    if k == i {
      FoldItemLogs(s, i);
      if Answered(s.items[k]) {
        LogsRowStays(s, t, FoldItems(s, i), JudgedKind(s.items[k]), k);
      } else if Live(s.items[k]) {
        LogsRowStays(s, t, FoldItems(s, i), FirstTelemetry, k);
      }
    } else {
      FoldItemsLogs(t, i + 1, k);
      FoldItemGrows(s, i);
      if Answered(s.items[k]) {
        LogsRowEarlier(s, t, FoldItems(s, i), JudgedKind(s.items[k]), k);
      } else if Live(s.items[k]) {
        LogsRowEarlier(s, t, FoldItems(s, i), FirstTelemetry, k);
      }
    }
  }

  lemma FoldItemLogs(s: Setup, i: nat)
    requires i < |s.items|
    ensures Answered(s.items[i]) ==> LogsRow(s, FoldItem(s, i), JudgedKind(s.items[i]), i)
    ensures !Answered(s.items[i]) && Live(s.items[i]) ==> LogsRow(s, FoldItem(s, i), FirstTelemetry, i)
  {
    hide Answered, Live, JudgedKind, FoldedItem;
    if Answered(s.items[i]) || Live(s.items[i]) {
      assert Last(FoldItem(s, i).events) == FoldItem(s, i).events[|s.events|];
    }
  }

  lemma FoldItemGrows(s: Setup, i: nat)
    requires i < |s.items|
    ensures |s.events| <= |FoldItem(s, i).events|
    ensures forall k :: 0 <= k < |s.items| && k != i ==> FoldItem(s, i).items[k] == s.items[k]
  {
  }

  lemma LogsRowEarlier(s: Setup, t: Setup, u: Setup, kind: Kind, i: nat)
    requires LogsRow(t, u, kind, i) && |s.events| <= |t.events|
    ensures LogsRow(s, u, kind, i)
  {
  }

  /** A judged row is logged as a reached connection, a success or a failure, a confirmed one as its
      first telemetry. */
  lemma SyncLogsRows(s: Setup, ev: Evidence, i: nat)
    requires i < |s.items|
    ensures
      var it := s.items[i];
      var judged := it.state == Validating && it.validation.Some? && it.validation.value.status != RpcOpen;
      var passed := judged && it.validation.value.status == RpcSuccess && it.validation.value.resultSuccess;
      var connection := judged && (it.connectionMode || it.validation.value.resultConnection);
      && (judged ==> LogsRow(s, Sync(s, ev), if !passed then ValidationFailed else if connection then ConnectionSucceeded
                                             else ValidationSucceeded, i))
      && (i < |Sync(s, ev).items| && Sync(s, ev).items[i].state == TelemetryConfirmed && it.state != TelemetryConfirmed ==>
            LogsRow(s, Sync(s, ev), FirstTelemetry, i))
  {
    hide Gathered, FoldConfig, FoldItems, BeforeItems, Deployed, AllLive, SomeLive, SomeInTrouble, AllInTrouble, LogsRow;
    var b := BeforeItems(s, ev);
    BeforeItemsKeeps(s, ev);
    GatheredFrom(s, ev);
    FoldItemsLogs(b, 0, i);
    RowAfterSync(s, ev, i);
    SyncExtendsGathered(s, ev);
    var it := b.items[i];
    if Answered(it) {
      LogsRowEarlier(s, b, Gathered(s, ev), JudgedKind(it), i);
      LogsRowStays(s, Gathered(s, ev), Sync(s, ev), JudgedKind(it), i);
    } else if Live(it) {
      LogsRowEarlier(s, b, Gathered(s, ev), FirstTelemetry, i);
      LogsRowStays(s, Gathered(s, ev), Sync(s, ev), FirstTelemetry, i);
    }
  }

  lemma SyncExtendsGathered(s: Setup, ev: Evidence)
    ensures Extends(Gathered(s, ev), Sync(s, ev))
  {
    hide Gathered, FoldConfig, Deployed, AllLive, SomeLive, SomeInTrouble, AllInTrouble;
    ConfigKeeps(Gathered(s, ev), ev);
    ConcludeKeepsRows(FoldConfig(Gathered(s, ev), ev), ev);
  }

  /** The end of a scan is logged under the scan, as completed, cancelled or failed. */
  lemma SyncLogsScan(s: Setup, ev: Evidence)
    requires Scanned(s, ev)
    ensures exists e :: e in Sync(s, ev).events && e.scan == s.activeScan
                        && e.kind == match ev.report.status
                                     case ReportCancelled => DiscoveryCancelled
                                     case ReportError => DiscoveryFailed
                                     case _ => DiscoveryCompleted
  {
    hide Gathered, FoldConfig, FoldItems, Deployed, AllLive, SomeLive, SomeInTrouble, AllInTrouble;
    var p := FoldPreflight(s, ev);
    PreflightKeeps(s, ev);
    var d := FoldDiscovery(p, ev);
    DiscoveryLogs(p, ev);
    GatheredAfterDiscovery(s, ev);
    SyncExtendsGathered(s, ev);
    var e :| e in d.events && e.scan == s.activeScan && e.kind == ReportKind(ev.report.status);
    assert e in Gathered(s, ev).events;
    assert e in Sync(s, ev).events;
  }

  lemma GatheredAfterDiscovery(s: Setup, ev: Evidence)
    ensures Extends(FoldDiscovery(FoldPreflight(s, ev), ev), Gathered(s, ev))
    ensures FoldPreflight(s, ev).state == s.state && FoldPreflight(s, ev).activeScan == s.activeScan
  {
    hide FoldItems, LoggedScan, Logged, RestoreAll, ReportKind;
    FoldItemsDoes(FoldRestore(FoldDiscovery(FoldPreflight(s, ev), ev), ev), 0);
  }

  lemma DiscoveryLogs(s: Setup, ev: Evidence)
    requires Scanned(s, ev)
    ensures exists e :: e in FoldDiscovery(s, ev).events && e.scan == s.activeScan && e.kind == ReportKind(ev.report.status)
  {
    hide ReportKind;
    var t := FoldDiscovery(s, ev);
    if |t.events| > |s.events| {
      assert Last(t.events) in t.events;
    }
  }

  /** Equipment that times out is logged as such. */
  lemma {:induction false} TimeOutLogs(s: Setup, i: nat, k: nat)
    requires i <= k < |s.items| && Silent(s.items[k])
    ensures exists e :: e in TimeOutItems(s, i).events && e.kind == FirstTelemetryTimeout && e.item == Some(k)
    decreases |s.items| - i
  {
    hide Silent;
    var t := TimeOutItem(s, i);
    TimeOutItemsDoes(t, i + 1);
    if k == i {
      TimedOutLogged(s, i);
      EventStays(t, TimeOutItems(s, i), i);
    } else {
      TimeOutLogs(t, i + 1, k);
    }
  }

  lemma EventStays(t: Setup, u: Setup, i: nat)
    requires Extends(t, u) && exists e :: e in t.events && e.kind == FirstTelemetryTimeout && e.item == Some(i)
    ensures exists e :: e in u.events && e.kind == FirstTelemetryTimeout && e.item == Some(i)
  {
    var e :| e in t.events && e.kind == FirstTelemetryTimeout && e.item == Some(i);
    assert e in u.events;
  }

  lemma TimedOutLogged(s: Setup, i: nat)
    requires i < |s.items| && Silent(s.items[i])
    ensures exists e :: e in TimeOutItem(s, i).events && e.kind == FirstTelemetryTimeout && e.item == Some(i)
  {
    var t := TimeOutItem(s, i);
    if |t.events| > |s.events| {
      assert Last(t.events) in t.events;
    }
  }

  /** Only the overdue loop makes equipment that was applied or failed need attention. */
  lemma OverdueFound(s: Setup, ev: Evidence, i: nat)
    requires i < |s.items| && s.items[i].state in {Applied, Queued, ItemFailed, RolledBack}
    requires i < |Sync(s, ev).items| && Sync(s, ev).items[i].state == NeedsAttention
    ensures ConfigIs(ev, CfgActive) && Overdue(ev)
    ensures i < |Gathered(s, ev).items| && Silent(Gathered(s, ev).items[i])
  {
    hide Gathered, Sync, FoldItems, BeforeItems, Extends, KeepsConfirmed, Quiet;
    RowAfterSync(s, ev, i);
    BeforeItemsKeeps(s, ev);
    GatheredFrom(s, ev);
    FoldItemsDoes(BeforeItems(s, ev), 0);
  }

  /** So is it in a whole fold that finds equipment overdue. */
  lemma SyncLogsTimeOut(s: Setup, ev: Evidence, i: nat)
    requires i < |s.items| && s.items[i].state in {Applied, Queued, ItemFailed, RolledBack}
    requires i < |Sync(s, ev).items| && Sync(s, ev).items[i].state == NeedsAttention
    ensures exists e :: e in Sync(s, ev).events && e.kind == FirstTelemetryTimeout && e.item == Some(i)
  {
    hide Gathered, Deployed, AllLive, SomeLive, SomeInTrouble, AllInTrouble, TimeOutItems, Logged, Silent;
    OverdueFound(s, ev, i);
    ConcludeKeepsRows(FoldConfig(Gathered(s, ev), ev), ev);
    TimeOutLogs(AppendOnce(Gathered(s, ev).(state := Verifying, page := VerifyPage), ConfigurationActive), 0, i);
  }

  /** A fold logs the configuration's status under its own kind, and the outcome of the preflight. */
  lemma SyncLogs(s: Setup, ev: Evidence)
    ensures
      var t := Sync(s, ev);
      && (ev.preflight == PreflightUsable ==> Logged(t, PreflightCompleted))
      && (ev.preflight == PreflightUnusable ==> Logged(t, PreflightFailed))
      && (ev.config.Some? ==>
            match ev.config.value.status
            case CfgQueued => Logged(t, ConfigurationQueued)
            case CfgWaiting => Logged(t, ConfigurationWaiting)
            case CfgPublished => Logged(t, ConfigurationPublished)
            case CfgAccepted => Logged(t, ConfigurationAccepted)
            case CfgActive => Logged(t, ConfigurationActive)
            case CfgRolledBack => Logged(t, ConfigurationRolledBack)
            case CfgFailed => Logged(t, ConfigurationFailed)
            case CfgOther => true)
  {
    hide Gathered, FoldConfig, Logged, Deployed, AllLive, SomeLive, SomeInTrouble, AllInTrouble, Append;
    var g := Gathered(s, ev);
    ConcludeKeepsRows(FoldConfig(g, ev), ev);
    ConfigLogs(g, ev);
    ConfigKeeps(g, ev);
    PreflightExtended(s, ev);
    AppendOnceLogs(s, PreflightCompleted);
    AppendOnceLogs(s, PreflightFailed);
    if ev.preflight != NoPreflight {
      var kind := if ev.preflight == PreflightUsable then PreflightCompleted else PreflightFailed;
      LoggedStays(FoldPreflight(s, ev), g, kind);
      LoggedStays(g, FoldConfig(g, ev), kind);
      LoggedRows(Sync(s, ev), FoldConfig(g, ev), kind);
    }
    if SetsState(ev) {
      LoggedRows(Sync(s, ev), FoldConfig(g, ev), DeliveryKind(ev.config.value.status));
    }
  }

  // --------------------------------------------------------------- idempotence

  lemma AppendOnceLogs(s: Setup, kind: Kind)
    ensures Logged(AppendOnce(s, kind), kind)
  {
    if !Logged(s, kind) {
      assert Last(Append(s, kind, None, "").events) in Append(s, kind, None, "").events;
    }
  }

  lemma PreflightFolded(s: Setup, ev: Evidence, t: Setup)
    requires Extends(FoldPreflight(s, ev), t)
    ensures FoldPreflight(t, ev) == t
  {
    hide Logged, Append;
    AppendOnceLogs(s, PreflightCompleted);
    AppendOnceLogs(s, PreflightFailed);
    match ev.preflight
    case NoPreflight =>
    case PreflightUsable => LoggedStays(FoldPreflight(s, ev), t, PreflightCompleted);
    case PreflightUnusable => LoggedStays(FoldPreflight(s, ev), t, PreflightFailed);
  }

  /** A run still looking for equipment after a fold has no report for its scan. */
  lemma DiscoveryFolded(s: Setup, ev: Evidence)
    ensures !Reported(Gathered(s, ev), ev)
    ensures FoldDiscovery(s, ev).activeScan == s.activeScan
  {
    hide FoldItems, LoggedScan, Logged;
    FoldItemsDoes(FoldRestore(FoldDiscovery(FoldPreflight(s, ev), ev), ev), 0);
  }

  predicate SetsState(ev: Evidence) {
    ev.config.Some? && !ev.config.value.status.CfgOther?
  }

  function TargetState(status: ConfigStatus): RunState {
    match status
    case CfgActive => Verifying case CfgRolledBack | CfgFailed => RunFailed case _ => Deploying
  }

  predicate SetsPage(ev: Evidence) {
    SetsState(ev) && !ev.config.value.status.CfgRolledBack? && !ev.config.value.status.CfgFailed?
  }

  predicate SameRows(s: Setup, t: Setup) {
    s.items == t.items && s.events == t.events
  }

  lemma ConfigLogs(g: Setup, ev: Evidence)
    ensures SetsState(ev) ==> Logged(FoldConfig(g, ev), DeliveryKind(ev.config.value.status))
  {
    hide Append, Logged, TimeOutItems, Overdue;
    if SetsState(ev) {
      var kind := DeliveryKind(ev.config.value.status);
      AppendOnceLogs(g.(state := Deploying, page := VerifyPage), kind);
      AppendOnceLogs(g.(state := Verifying, page := VerifyPage), kind);
      AppendOnceLogs(g.(items := RollAll(g.items), state := RunFailed), kind);
      AppendOnceLogs(g.(items := FailAll(g.items), state := RunFailed), kind);
      var t := AppendOnce(g.(state := Verifying, page := VerifyPage), ConfigurationActive);
      TimeOutItemsDoes(t, 0);
      if ConfigIs(ev, CfgActive) && Overdue(ev) {
        LoggedStays(t, TimeOutItems(t, 0), kind);
      }
    }
  }

  /** What the rows look like once a configuration status was folded in. */
  lemma ConfigSettlesRows(g: Setup, ev: Evidence)
    ensures var c := FoldConfig(g, ev);
            && (ConfigIs(ev, CfgActive) && Overdue(ev) ==> forall i :: 0 <= i < |c.items| ==> !Silent(c.items[i]))
            && (ConfigIs(ev, CfgRolledBack) ==> RollAll(c.items) == c.items)
            && (ConfigIs(ev, CfgFailed) ==> FailAll(c.items) == c.items)
  {
    hide FoldConfig, Overdue, Extends;
    ConfigRows(g, ev);
  }

  lemma ConfigSetsState(g: Setup, ev: Evidence)
    ensures var c := FoldConfig(g, ev);
            && c.state == (if SetsState(ev) then TargetState(ev.config.value.status) else g.state)
            && c.page == (if SetsPage(ev) then VerifyPage else g.page) && c.activeScan == g.activeScan
  {
    hide Logged, TimeOutItems, Overdue, RollAll, FailAll;
    TimeOutItemsDoes(AppendOnce(g.(state := Verifying, page := VerifyPage), ConfigurationActive), 0);
  }

  /** Folding the same status again rewrites at most the run's state and page, to what they were. */
  lemma ConfigAgain(g: Setup, ev: Evidence, r: Setup)
    requires SameRows(r, FoldConfig(g, ev))
    ensures FoldConfig(r, ev) == r.(state := if SetsState(ev) then FoldConfig(g, ev).state else r.state,
                                    page := if SetsPage(ev) then VerifyPage else r.page)
  {
    hide Append, TimeOutItems, Overdue;
    ConfigLogs(g, ev);
    ConfigSettlesRows(g, ev);
    ConfigSetsState(g, ev);
    if SetsState(ev) {
      LoggedRows(r, FoldConfig(g, ev), DeliveryKind(ev.config.value.status));
    }
    if ConfigIs(ev, CfgActive) && Overdue(ev) {
      HeardItemsDoNotTimeOut(r.(state := Verifying, page := VerifyPage), 0);
    }
  }

  lemma LoggedRows(r: Setup, c: Setup, kind: Kind)
    requires r.events == c.events
    ensures Logged(r, kind) == Logged(c, kind)
  {
  }

  /** The item loop and the restore step find nothing left to do after the status was folded in. */
  lemma RowsSettled(g: Setup, ev: Evidence)
    requires forall i :: 0 <= i < |g.items| ==> Quiet(g.items[i])
    requires ConfigIs(ev, CfgActive) ==> forall i :: 0 <= i < |g.items| ==> Restored(g.items[i]) == g.items[i]
    ensures var c := FoldConfig(g, ev);
            && (forall i :: 0 <= i < |c.items| ==> Quiet(c.items[i]))
            && (ConfigIs(ev, CfgActive) ==> RestoreAll(c.items) == c.items)
  {
    hide FoldConfig, Overdue, Extends;
    ConfigRows(g, ev);
  }

  /** Gathering again changes nothing. */
  lemma GatheredAgain(s: Setup, ev: Evidence)
    ensures Gathered(Sync(s, ev), ev) == Sync(s, ev)
  {
    hide FoldItems, Logged, LoggedScan, Quiet, TimeOutItems;
    var g := Gathered(s, ev);
    var c := FoldConfig(g, ev);
    var r := Sync(s, ev);
    GatheredKeeps(s, ev);
    ConfigKeeps(g, ev);
    PreflightExtended(s, ev);
    PreflightFolded(s, ev, r);
    DiscoveryFolded(s, ev);
    ConfigSettlesRows(g, ev);
    ConfigSetsState(g, ev);
    ConcludeKeepsRows(c, ev);
    assert !Reported(r, ev);
    RowsSettled(g, ev);
    QuietItemsFoldToThemselves(r, 0);
  }

  lemma PreflightExtended(s: Setup, ev: Evidence)
    ensures Extends(FoldPreflight(s, ev), Gathered(s, ev))
  {
    hide FoldItems, FoldPreflight, LoggedScan;
    FoldItemsDoes(FoldRestore(FoldDiscovery(FoldPreflight(s, ev), ev), ev), 0);
  }

  lemma ConcludeKeepsRows(c: Setup, ev: Evidence)
    ensures SameRows(Conclude(c, ev), c) && Conclude(c, ev).activeScan == c.activeScan
    ensures Conclude(c, ev).state == Discovering ==> c.state == Discovering
  {
    hide Deployed, AllLive, SomeLive, SomeInTrouble, AllInTrouble;
  }

  /** Setup fold: with unchanged evidence and clock, folding twice is folding once, on run
      state, page, rows and timeline. */
  lemma SyncIdempotent(s: Setup, ev: Evidence)
    ensures Sync(Sync(s, ev), ev) == Sync(s, ev)
  {
    hide FoldItems, Logged, Gathered, FoldConfig, Deployed, AllLive, SomeLive, SomeInTrouble, AllInTrouble;
    var g := Gathered(s, ev);
    GatheredAgain(s, ev);
    ConcludeKeepsRows(FoldConfig(g, ev), ev);
    ConfigAgain(g, ev, Sync(s, ev));
    ConfigSettlesRows(g, ev);
    ConfigSetsState(g, ev);
  }
}
