/** The setup run as sync_setup_run updates it, stage by stage and row by row; each method is
    proved against SetupModel. */
module SetupStore {

  import opened Common
  import opened SetupModel

  class SetupRow {
    var state: RunState
    var page: Page
    var activeScan: string
    var lastTerminalScan: string
    var completedAt: Option<nat>
    var items: seq<Item>
    var events: seq<Event>

    ghost function Value(): Setup
      reads this
    {
      Setup(state, page, activeScan, lastTerminalScan, completedAt, items, events)
    }

    /** append_setup_event */
    method AppendEvent(kind: Kind, item: Option<nat>, scan: string)
      modifies this`events
      ensures Value() == Append(old(Value()), kind, item, scan)
    {
      var sequence := if events == [] then 1 else Last(events).sequence + 1;
      events := events + [Event(sequence, kind, item, scan)];
    }

    method AppendEventOnce(kind: Kind)
      modifies this`events
      ensures Value() == AppendOnce(old(Value()), kind)
    {
      hide Append;
      if !exists e :: e in events && e.kind == kind {
        AppendEvent(kind, None, "");
      }
    }

    method Preflight(ev: Evidence)
      modifies this`events
      ensures Value() == FoldPreflight(old(Value()), ev)
    {
      hide AppendOnce;
      match ev.preflight {
        case NoPreflight =>
        case PreflightUsable => AppendEventOnce(PreflightCompleted);
        case PreflightUnusable => AppendEventOnce(PreflightFailed);
      }
    }

    method Discovery(ev: Evidence)
      modifies this
      ensures Value() == FoldDiscovery(old(Value()), ev)
    {
      hide Append, ReportKind;
      if state == Discovering && activeScan != "" && ev.report.scan == activeScan && !ev.report.status.ReportOpen? {
        state := Configuring;
        page := EquipmentPage;
        lastTerminalScan := activeScan;
        var kind := ReportKind(ev.report.status);
        if !exists e :: e in events && e.kind == kind && e.scan == activeScan {
          AppendEvent(kind, None, activeScan);
        }
      }
    }

    method Restore(ev: Evidence)
      modifies this`items
      ensures Value() == FoldRestore(old(Value()), ev)
    {
      if ConfigIs(ev, CfgActive) {
        items := RestoreAll(items);
      }
    }

    method FoldRow(i: nat)
      requires i < |items|
      modifies this`items, this`events
      ensures Value() == FoldItem(old(Value()), i)
    {
      hide Append, Judged, JudgedKind;
      var item := items[i];
      if Answered(item) {
        items := items[i := Judged(item)];
        AppendEvent(JudgedKind(item), Some(i), "");
      } else if Live(item) {
        items := items[i := item.(state := TelemetryConfirmed, firstTelemetry := item.lastTelemetry)];
        AppendEvent(FirstTelemetry, Some(i), "");
      } else {
        assert items[i := item] == items;
      }
    }

    /** The loop over the run's rows. */
    method FoldRows()
      modifies this`items, this`events
      ensures Value() == FoldItems(old(Value()), 0)
    {
      hide FoldItem;
      for i := 0 to |items|
        invariant |items| == |old(items)|
        invariant FoldItems(old(Value()), 0) == FoldItems(Value(), i)
      {
        FoldRow(i);
      }
    }

    method TimeOutRow(i: nat)
      requires i < |items|
      modifies this`items, this`events
      ensures Value() == TimeOutItem(old(Value()), i)
    {
      hide Append;
      if items[i].state == Applied && items[i].firstTelemetry.None? {
        items := items[i := items[i].(state := NeedsAttention)];
        if !exists e :: e in events && e.kind == FirstTelemetryTimeout && e.item == Some(i) {
          AppendEvent(FirstTelemetryTimeout, Some(i), "");
        }
      }
    }

    method TimeOutRows()
      modifies this`items, this`events
      ensures Value() == TimeOutItems(old(Value()), 0)
    {
      hide TimeOutItem;
      for i := 0 to |items|
        invariant |items| == |old(items)|
        invariant TimeOutItems(old(Value()), 0) == TimeOutItems(Value(), i)
      {
        TimeOutRow(i);
      }
    }

    method Configuration(ev: Evidence)
      modifies this
      ensures Value() == FoldConfig(old(Value()), ev)
    {
      hide AppendOnce, TimeOutItems, Overdue, RollAll, FailAll;
      if ev.config.None? {
        return;
      }
      match ev.config.value.status {
        case CfgQueued | CfgWaiting | CfgPublished | CfgAccepted =>
          state := Deploying;
          page := VerifyPage;
          AppendEventOnce(DeliveryKind(ev.config.value.status));
        case CfgActive =>
          state := Verifying;
          page := VerifyPage;
          AppendEventOnce(ConfigurationActive);
          if Overdue(ev) {
            TimeOutRows();
          }
        case CfgRolledBack =>
          items := RollAll(items);
          state := RunFailed;
          AppendEventOnce(ConfigurationRolledBack);
        case CfgFailed =>
          items := FailAll(items);
          state := RunFailed;
          AppendEventOnce(ConfigurationFailed);
        case CfgOther =>
      }
    }

    method Finish(ev: Evidence)
      modifies this
      ensures Value() == Conclude(old(Value()), ev)
    {
      hide Deployed, AllLive, SomeLive, SomeInTrouble, AllInTrouble;
      if Deployed(items) && AllLive(items) {
        state, page, completedAt := Completed, GoLivePage, Some(ev.now);
      } else if SomeLive(items) && SomeInTrouble(items) {
        state, page, completedAt := CompletedAttention, GoLivePage, Some(ev.now);
      } else if ev.config.Some? && Deployed(items) && AllInTrouble(items) {
        state, page := RunFailed, VerifyPage;
      }
    }

    /** sync_setup_run */
    method SyncRun(ev: Evidence)
      modifies this
      ensures Value() == Sync(old(Value()), ev)
    {
      hide FoldPreflight, FoldDiscovery, FoldRestore, FoldItems, FoldConfig, Conclude;
      Preflight(ev);
      Discovery(ev);
      Restore(ev);
      FoldRows();
      Configuration(ev);
      Finish(ev);
    }
  }
}
