/** Folding asynchronous evidence into a guided setup run (apps/devices/deployment_setup.py,
    sync_setup_run): commands, discovery reports, configuration status and telemetry. */
module SetupModel {

  import opened Common

  datatype RunState =
    | Draft | GatewayCheck | Discovering | Configuring | Deploying | Verifying
    | Completed | CompletedAttention | RunFailed | RunCancelled

  datatype Page = EquipmentPage | VerifyPage | GoLivePage | OtherPage(name: string)

  datatype ItemState =
    | Discovered | TemplateSelected | Validating | AwaitingConfirmation | Validated | Queued | Applied
    | TelemetryConfirmed | NeedsAttention | ItemFailed | RolledBack

  /** The newest request of the item's validation command, as its gateway answered it. */
  datatype RpcStatus = RpcSuccess | RpcError | RpcTimeout | RpcOpen
  datatype Rpc = Rpc(status: RpcStatus, resultSuccess: bool, resultConnection: bool)

  /** An equipment row. mapTests counts the live tests recorded on the site map of its device;
      validation and lastTelemetry are what the fold reads about it. */
  datatype Item = Item(
    state: ItemState, hasDevice: bool, siteDefined: bool, connectionMode: bool, firstTelemetry: Option<nat>,
    mapTests: nat, validation: Option<Rpc>, lastTelemetry: Option<nat>)

  datatype Kind =
    | PreflightCompleted | PreflightFailed
    | DiscoveryCompleted | DiscoveryCancelled | DiscoveryFailed
    | ConnectionSucceeded | ValidationSucceeded | ValidationFailed | FirstTelemetry | FirstTelemetryTimeout
    | ConfigurationQueued | ConfigurationWaiting | ConfigurationPublished | ConfigurationAccepted
    | ConfigurationActive | ConfigurationRolledBack | ConfigurationFailed
    | OtherKind(name: string)

  datatype Event = Event(sequence: nat, kind: Kind, item: Option<nat>, scan: string)

  datatype Setup = Setup(
    state: RunState, page: Page, activeScan: string, lastTerminalScan: string, completedAt: Option<nat>,
    items: seq<Item>, events: seq<Event>)

  datatype Preflight = NoPreflight | PreflightUsable | PreflightUnusable

  datatype ReportStatus = ReportComplete | ReportCancelled | ReportError | ReportOpen
  datatype Report = Report(status: ReportStatus, scan: string)

  /** CfgFailed stands for failed, timed out and superseded. */
  datatype ConfigStatus =
    | CfgQueued | CfgWaiting | CfgPublished | CfgAccepted | CfgActive | CfgRolledBack | CfgFailed | CfgOther

  /** since: when the configuration was acknowledged or pushed. */
  datatype Config = Config(status: ConfigStatus, since: Option<nat>)

  /** Everything outside the run that the fold reads, the clock included. */
  datatype Evidence = Evidence(
    preflight: Preflight, report: Report, config: Option<Config>, now: nat, timeout: nat)

  // ------------------------------------------------------------------- events

  /** append_setup_event */
  function Append(s: Setup, kind: Kind, item: Option<nat>, scan: string): Setup {
    var sequence := if s.events == [] then 1 else Last(s.events).sequence + 1;
    s.(events := s.events + [Event(sequence, kind, item, scan)])
  }

  predicate Logged(s: Setup, kind: Kind) {
    exists e :: e in s.events && e.kind == kind
  }

  predicate LoggedFor(s: Setup, kind: Kind, item: nat) {
    exists e :: e in s.events && e.kind == kind && e.item == Some(item)
  }

  predicate LoggedScan(s: Setup, kind: Kind, scan: string) {
    exists e :: e in s.events && e.kind == kind && e.scan == scan
  }

  function AppendOnce(s: Setup, kind: Kind): Setup {
    if Logged(s, kind) then s else Append(s, kind, None, "")
  }

  // ---------------------------------------------------------------- the stages

  function FoldPreflight(s: Setup, ev: Evidence): Setup {
    match ev.preflight
    case NoPreflight => s
    case PreflightUsable => AppendOnce(s, PreflightCompleted)
    case PreflightUnusable => AppendOnce(s, PreflightFailed)
  }

  predicate Reported(s: Setup, ev: Evidence) {
    && s.state == Discovering && s.activeScan != "" && ev.report.scan == s.activeScan && !ev.report.status.ReportOpen?
  }

  function ReportKind(status: ReportStatus): Kind {
    match status
    case ReportCancelled => DiscoveryCancelled case ReportError => DiscoveryFailed case _ => DiscoveryCompleted
  }

  function FoldDiscovery(s: Setup, ev: Evidence): Setup {
    if !Reported(s, ev) then s
    else
      var t := s.(state := Configuring, page := EquipmentPage, lastTerminalScan := s.activeScan);
      var kind := ReportKind(ev.report.status);
      if LoggedScan(t, kind, t.activeScan) then t else Append(t, kind, None, t.activeScan)
  }

  predicate ConfigIs(ev: Evidence, status: ConfigStatus) {
    ev.config.Some? && ev.config.value.status == status
  }

  /** An active configuration puts its queued, failed and rolled-back equipment back to applied. */
  function Restored(it: Item): Item {
    if it.hasDevice && (it.state.Queued? || it.state.ItemFailed? || it.state.RolledBack?) then it.(state := Applied) else it
  }

  function RestoreAll(items: seq<Item>): (rs: seq<Item>)
    ensures |rs| == |items| && forall i :: 0 <= i < |items| ==> rs[i] == Restored(items[i])
  {
    if items == [] then [] else [Restored(items[0])] + RestoreAll(items[1..])
  }

  function FoldRestore(s: Setup, ev: Evidence): Setup {
    if ConfigIs(ev, CfgActive) then s.(items := RestoreAll(s.items)) else s
  }

  predicate Answered(it: Item) {
    it.state == Validating && it.validation.Some? && !it.validation.value.status.RpcOpen?
  }

  predicate Passed(it: Item) {
    it.validation.Some? && it.validation.value.status.RpcSuccess? && it.validation.value.resultSuccess
  }

  predicate ConnectionOnly(it: Item) {
    it.connectionMode || (it.validation.Some? && it.validation.value.resultConnection)
  }

  /** A finished validation: the new row. */
  function Judged(it: Item): Item
    requires Answered(it)
  {
    var tested := it.hasDevice && it.siteDefined && !ConnectionOnly(it);
    it.(state := if Passed(it) then (if ConnectionOnly(it) then TemplateSelected else AwaitingConfirmation)
                 else NeedsAttention,
        connectionMode := it.validation.value.resultConnection,
        mapTests := if tested then it.mapTests + 1 else it.mapTests)
  }

  function JudgedKind(it: Item): Kind {
    if Passed(it) then (if ConnectionOnly(it) then ConnectionSucceeded else ValidationSucceeded) else ValidationFailed
  }

  predicate Live(it: Item) {
    it.hasDevice && it.lastTelemetry.Some? && it.state == Applied
  }

  function FoldedItem(it: Item): Item {
    if Answered(it) then Judged(it)
    else if Live(it) then it.(state := TelemetryConfirmed, firstTelemetry := it.lastTelemetry)
    else it
  }

  /** One round of the item loop. */
  function FoldItem(s: Setup, i: nat): (t: Setup)
    requires i < |s.items|
    ensures |t.items| == |s.items|
  {
    var it := s.items[i];
    var t := s.(items := s.items[i := FoldedItem(it)]);
    if Answered(it) then Append(t, JudgedKind(it), Some(i), "")
    else if Live(it) then Append(t, FirstTelemetry, Some(i), "")
    else t
  }

  function FoldItems(s: Setup, i: nat): Setup
    requires i <= |s.items|
    decreases |s.items| - i
  {
    if i == |s.items| then s else FoldItems(FoldItem(s, i), i + 1)
  }

  predicate Overdue(ev: Evidence) {
    ev.config.Some? && ev.config.value.since.Some? && ev.now >= ev.config.value.since.value + ev.timeout
  }

  predicate Silent(it: Item) {
    it.state == Applied && it.firstTelemetry.None?
  }

  function TimeOutItem(s: Setup, i: nat): (t: Setup)
    requires i < |s.items|
    ensures |t.items| == |s.items|
  {
    if !Silent(s.items[i]) then s
    else
      var t := s.(items := s.items[i := s.items[i].(state := NeedsAttention)]);
      if LoggedFor(t, FirstTelemetryTimeout, i) then t else Append(t, FirstTelemetryTimeout, Some(i), "")
  }

  function TimeOutItems(s: Setup, i: nat): Setup
    requires i <= |s.items|
    decreases |s.items| - i
  {
    if i == |s.items| then s else TimeOutItems(TimeOutItem(s, i), i + 1)
  }

  function RolledItem(it: Item): Item {
    if it.state.Queued? || it.state.Applied? then it.(state := RolledBack) else it
  }

  function FailedItem(it: Item): Item {
    if it.state.Queued? then it.(state := ItemFailed) else it
  }

  function RollAll(items: seq<Item>): (rs: seq<Item>)
    ensures |rs| == |items| && forall i :: 0 <= i < |items| ==> rs[i] == RolledItem(items[i])
  {
    if items == [] then [] else [RolledItem(items[0])] + RollAll(items[1..])
  }

  function FailAll(items: seq<Item>): (rs: seq<Item>)
    ensures |rs| == |items| && forall i :: 0 <= i < |items| ==> rs[i] == FailedItem(items[i])
  {
    if items == [] then [] else [FailedItem(items[0])] + FailAll(items[1..])
  }

  function DeliveryKind(status: ConfigStatus): Kind {
    match status
    case CfgQueued => ConfigurationQueued case CfgWaiting => ConfigurationWaiting
    case CfgPublished => ConfigurationPublished case CfgAccepted => ConfigurationAccepted
    case CfgActive => ConfigurationActive case CfgRolledBack => ConfigurationRolledBack
    case _ => ConfigurationFailed
  }

  function FoldConfig(s: Setup, ev: Evidence): Setup {
    if ev.config.None? then s
    else
      var status := ev.config.value.status;
      match status
      case CfgQueued | CfgWaiting | CfgPublished | CfgAccepted =>
        AppendOnce(s.(state := Deploying, page := VerifyPage), DeliveryKind(status))
      case CfgActive =>
        var t := AppendOnce(s.(state := Verifying, page := VerifyPage), ConfigurationActive);
        if Overdue(ev) then TimeOutItems(t, 0) else t
      case CfgRolledBack => AppendOnce(s.(items := RollAll(s.items), state := RunFailed), ConfigurationRolledBack)
      case CfgFailed => AppendOnce(s.(items := FailAll(s.items), state := RunFailed), ConfigurationFailed)
      case CfgOther => s
  }

  predicate InTrouble(st: ItemState) {
    st.NeedsAttention? || st.ItemFailed? || st.RolledBack?
  }

  predicate Deployed(items: seq<Item>) {
    exists it :: it in items && it.hasDevice
  }

  predicate AllLive(items: seq<Item>) {
    forall it :: it in items && it.hasDevice ==> it.state == TelemetryConfirmed
  }

  predicate SomeLive(items: seq<Item>) {
    exists it :: it in items && it.hasDevice && it.state == TelemetryConfirmed
  }

  predicate SomeInTrouble(items: seq<Item>) {
    exists it :: it in items && it.hasDevice && InTrouble(it.state)
  }

  predicate AllInTrouble(items: seq<Item>) {
    forall it :: it in items && it.hasDevice ==> InTrouble(it.state)
  }

  function Conclude(s: Setup, ev: Evidence): Setup {
    if Deployed(s.items) && AllLive(s.items) then s.(state := Completed, page := GoLivePage, completedAt := Some(ev.now))
    else if SomeLive(s.items) && SomeInTrouble(s.items) then
      s.(state := CompletedAttention, page := GoLivePage, completedAt := Some(ev.now))
    else if ev.config.Some? && Deployed(s.items) && AllInTrouble(s.items) then s.(state := RunFailed, page := VerifyPage)
    else s
  }

  /** Everything sync_setup_run does before the configuration's status is folded in. */
  function Gathered(s: Setup, ev: Evidence): Setup {
    FoldItems(FoldRestore(FoldDiscovery(FoldPreflight(s, ev), ev), ev), 0)
  }

  /** sync_setup_run */
  function Sync(s: Setup, ev: Evidence): Setup {
    Conclude(FoldConfig(Gathered(s, ev), ev), ev)
  }
}
