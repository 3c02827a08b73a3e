/** Properties of whole runs of the Hub: every command's own run inside them, epoch
    fencing of dispatch, and re-activation of device keys after an epoch bump. */
module ControlRuns {

  import opened Common
  import opened CommandModel
  import opened CommandProofs
  import opened ControlPlane

  // ------------------------------------------------------------------- runs

  lemma {:induction false} PlaySplit(cfg: Settings, h: Hub, before: seq<Action>, after: seq<Action>)
    ensures Play(cfg, h, before + after) == Play(cfg, Play(cfg, h, before), after)
  {
    if after == [] {
      assert before + after == before;
    } else {
      assert Front(before + after) == before + Front(after);
      PlaySplit(cfg, h, before, Front(after));
    }
  }

  // -------------------------------------------- each command runs on its own

  /** The step one transaction of the Hub is for one stored command, if it is one. */
  function StepOn(cfg: Settings, h: Hub, a: Action, id: CommandId): Option<FileStep>
    requires id in h.commands
  {
    var f := h.commands[id];
    match a
    case ApproveCommand(i, c) =>
      if i == id then Some(ApprovalDecision(c.(currentValue := ValueOf(h, f.device, f.intent.key)), h.now)) else None
    case ReportProgress(i, to, kind, evidence, u) =>
      if i == id then Some(LifecycleReport(to, kind, evidence, u)) else None
    case ReportMismatch(i, text) =>
      if i == id && f.device.Some? then Some(Annotation(Lifecycle("control_key_auto_suspended"), text)) else None
    case ClaimOutbox(i) =>
      if i == id && f.intent.team in h.plane.teams && f.intent.gateway in h.gateways
      then Some(ClaimStep(cfg, h, f)) else None
    case RecordAttempt(i, n, outcome) => if i == id then Some(WorkerRecord(n, outcome, h.now)) else None
    case RecoverHub(reason) => Some(DisasterReset(reason))
    case RemoveDevice(d) => if f.device == Some(d) then Some(DeviceRemoval) else None
    case _ => None
  }

  function Stepped(cfg: Settings, f: CommandFile, step: Option<FileStep>): CommandFile {
    if step.Some? then CommandModel.Apply(cfg, f, step.value) else f
  }

  lemma OnFileCommands(cfg: Settings, h: Hub, i: CommandId, step: FileStep, id: CommandId)
    requires id in h.commands
    ensures var g := OnFile(cfg, h, i, step);
            && id in g.commands
            && g.commands[id] == if i == id then CommandModel.Apply(cfg, h.commands[id], step) else h.commands[id]
  {
    hide CommandModel.Apply;
  }

  lemma FileActionOnCommand(cfg: Settings, h: Hub, a: Action, id: CommandId)
    requires id in h.commands
    requires a.ApproveCommand? || a.ReportProgress? || a.ReportMismatch? || a.ClaimOutbox? || a.RecordAttempt?
    ensures id in Do(cfg, h, a).commands
    ensures Do(cfg, h, a).commands[id] == Stepped(cfg, h.commands[id], StepOn(cfg, h, a, id))
  {
    hide CommandModel.Apply, Revalidation, ClaimStep, ValueOf, WellTargeted, StoredCommand, SuspendKey, ActivateKey;
    hide EmergencyDisable, RollBack, LockAll, LapseActivation, ScopeOf, NextSequence, OnFile;
    match a
    case ApproveCommand(i, c) =>
      if i in h.commands {
        var current := ValueOf(h, h.commands[i].device, h.commands[i].intent.key);
        OnFileCommands(cfg, h, i, ApprovalDecision(c.(currentValue := current), h.now), id);
      }
    case ReportProgress(i, to, kind, evidence, u) =>
      OnFileCommands(cfg, h, i, LifecycleReport(to, kind, evidence, u), id);
    case ReportMismatch(i, text) => MismatchOnCommand(cfg, h, i, text, id);
    case ClaimOutbox(i) =>
      if i in h.commands && h.commands[i].intent.team in h.plane.teams && h.commands[i].intent.gateway in h.gateways {
        OnFileCommands(cfg, h, i, ClaimStep(cfg, h, h.commands[i]), id);
      }
    case RecordAttempt(i, n, outcome) => OnFileCommands(cfg, h, i, WorkerRecord(n, outcome, h.now), id);
  }

  lemma MismatchOnCommand(cfg: Settings, h: Hub, i: CommandId, text: string, id: CommandId)
    requires id in h.commands
    ensures var g := Do(cfg, h, ReportMismatch(i, text));
            && id in g.commands
            && g.commands[id] == Stepped(cfg, h.commands[id], StepOn(cfg, h, ReportMismatch(i, text), id))
  {
    hide CommandModel.Apply, SuspendKey, OnFile;
    if i in h.commands && h.commands[i].device.Some? {
      var f := h.commands[i];
      var suspended := h.(plane := SuspendKey(h.plane, f.intent.team, f.device.value, f.intent.key));
      OnFileCommands(cfg, suspended, i, Annotation(Lifecycle("control_key_auto_suspended"), text), id);
    }
  }

  /** One transaction of the Hub is one step, or none, for each stored command. */
  lemma DoOnCommand(cfg: Settings, h: Hub, a: Action, id: CommandId)
    requires id in h.commands
    ensures id in Do(cfg, h, a).commands
    ensures Do(cfg, h, a).commands[id] == Stepped(cfg, h.commands[id], StepOn(cfg, h, a, id))
  {
    hide CommandModel.Apply, ClaimStep, ValueOf, StoredCommand, SuspendKey, ActivateKey;
    hide EmergencyDisable, RollBack, LockAll, LapseActivation, ScopeOf, NextSequence;
    if a.ApproveCommand? || a.ReportProgress? || a.ReportMismatch? || a.ClaimOutbox? || a.RecordAttempt? {
      FileActionOnCommand(cfg, h, a, id);
    } else if !a.RequestCommand? && !a.RecoverHub? && !a.RemoveDevice? {
      assert Do(cfg, h, a).commands == h.commands;
    }
  }

  /** In every run of the Hub each stored command goes through a run of its own, so all
      that holds of every interleaving on one command holds of it here. */
  lemma {:induction false} CommandRunWithin(cfg: Settings, h: Hub, actions: seq<Action>, id: CommandId)
    returns (steps: seq<FileStep>)
    requires id in h.commands
    ensures id in Play(cfg, h, actions).commands
    ensures Play(cfg, h, actions).commands[id] == Run(cfg, h.commands[id], steps)
    ensures (forall a :: a in actions ==> !a.RecoverHub?) ==> forall s :: s in steps ==> !s.DisasterReset?
  {
    hide Do, CommandModel.Apply, StepOn;
    if actions == [] {
      return [];
    }
    var before := CommandRunWithin(cfg, h, Front(actions), id);
    var g := Play(cfg, h, Front(actions));
    DoOnCommand(cfg, g, Last(actions), id);
    var step := StepOn(cfg, g, Last(actions), id);
    steps := if step.Some? then before + [step.value] else before;
    if step.Some? {
      assert Front(steps) == before;
      ResetOnlyByRecovery(cfg, g, Last(actions), id);
    }
  }

  /** A command enters the Hub only by a request, as its decision stores it. */
  lemma CommandsEnterByRequest(cfg: Settings, h: Hub, a: Action, id: CommandId)
    requires id in Do(cfg, h, a).commands && id !in h.commands
    ensures a.RequestCommand? && a.request.id == id && WellTargeted(h, a.request)
    ensures Do(cfg, h, a).commands[id] == StoredCommand(cfg, h, a.request)
  {
    hide StoredCommand, CommandModel.Apply, Revalidation;
  }

  lemma StoredCommandSound(cfg: Settings, h: Hub, r: Request)
    requires WellTargeted(h, r)
    ensures var f := StoredCommand(cfg, h, r);
            Sound(cfg, f) && LogSound(f) && f.intent.id == r.id && Chained(cfg.digest, r.id, f.events)
  {
    hide NewFile, Sound, LogSound, Chained, RequestDenial;
    var f := StoredCommand(cfg, h, r);
    var denial := RequestDenial(h, r);
    var d := if denial.Some? then Some(Denial(denial.value, cfg.explain(denial.value))) else None;
    var value := ValueOf(h, r.device, r.key);
    var intent := IntentOf(h, r);
    NewFileSound(cfg, intent, r.device, d, TermsOf(h, r).approvalRequired, value, h.now);
    NewLogSound(cfg, intent, r.device, d, TermsOf(h, r).approvalRequired, value, h.now);
    NewFileChains(cfg, intent, r.device, d, TermsOf(h, r).approvalRequired, value, h.now);
  }

  /** Over every run of a Hub that starts without commands, each stored command has at most
      the allowed attempts and is never stranded, and its log is one unbroken hash chain; as
      long as no disaster reset ran, the log replays to its status. */
  lemma {:induction false} EveryCommandSound(cfg: Settings, start: Hub, actions: seq<Action>, id: CommandId)
    requires start.commands == map[] && id in Play(cfg, start, actions).commands
    ensures var f := Play(cfg, start, actions).commands[id];
            && Sound(cfg, f) && f.intent.id == id && Chained(cfg.digest, id, f.events)
            && ((forall a :: a in actions ==> !a.RecoverHub?) ==> LogSound(f))
  {
    hide Do, Sound, LogSound, Chained, StoredCommand, CommandModel.Apply, StepOn;
    var h := Play(cfg, start, Front(actions));
    var last := Last(actions);
    if id in h.commands {
      EveryCommandSound(cfg, start, Front(actions), id);
      DoOnCommand(cfg, h, last, id);
      var step := StepOn(cfg, h, last, id);
      if step.Some? {
        OneStepSound(cfg, h.commands[id], step.value);
        ResetOnlyByRecovery(cfg, h, last, id);
        assert last in actions && forall a :: a in Front(actions) ==> a in actions;
      } else {
        assert forall a :: a in Front(actions) ==> a in actions;
      }
    } else {
      CommandsEnterByRequest(cfg, h, last, id);
      StoredCommandSound(cfg, h, last.request);
    }
  }

  lemma ResetOnlyByRecovery(cfg: Settings, h: Hub, a: Action, id: CommandId)
    requires id in h.commands
    ensures StepOn(cfg, h, a, id).Some? && StepOn(cfg, h, a, id).value.DisasterReset? ==> a.RecoverHub?
  {
    hide Revalidation;
  }

  lemma OneStepSound(cfg: Settings, f: CommandFile, step: FileStep)
    requires Sound(cfg, f) && Chained(cfg.digest, f.intent.id, f.events)
    ensures var g := CommandModel.Apply(cfg, f, step);
            && Sound(cfg, g) && g.intent == f.intent && Chained(cfg.digest, g.intent.id, g.events)
            && (LogSound(f) && !step.DisasterReset? ==> LogSound(g))
  {
    hide Sound, LogSound, Chained, CommandModel.Apply;
    StepKeepsSound(cfg, f, step);
    assert Front([step]) == [] && CommandModel.Run(cfg, f, []) == f;
    RunChains(cfg, f, [step]);
    if LogSound(f) && !step.DisasterReset? {
      StepKeepsLog(cfg, f, step);
    }
  }

  // ------------------------------------------------------------ team epochs

  function EpochOf(h: Hub, team: TeamId): nat
    requires team in h.plane.teams
  {
    h.plane.teams[team].epoch
  }

  lemma EpochsStep(cfg: Settings, h: Hub, a: Action, team: TeamId)
    requires team in h.plane.teams
    ensures team in Do(cfg, h, a).plane.teams
    ensures EpochOf(h, team) <= EpochOf(Do(cfg, h, a), team)
  {
    hide CommandModel.Apply, StoredCommand, ClaimStep, ValueOf, WellTargeted, NextSequence, ScopeOf;
  }

  lemma {:induction false} EpochsNeverFall(cfg: Settings, h: Hub, actions: seq<Action>, team: TeamId)
    requires team in h.plane.teams
    ensures team in Play(cfg, h, actions).plane.teams
    ensures EpochOf(h, team) <= EpochOf(Play(cfg, h, actions), team)
  {
    if actions != [] {
      EpochsNeverFall(cfg, h, Front(actions), team);
      EpochsStep(cfg, Play(cfg, h, Front(actions)), Last(actions), team);
    }
  }

  /** At every moment of a run the epoch lies between its first and its last value. */
  lemma EpochBetween(cfg: Settings, h: Hub, actions: seq<Action>, k: nat, team: TeamId)
    requires team in h.plane.teams && k <= |actions|
    ensures team in Play(cfg, h, actions[..k]).plane.teams
    ensures EpochOf(h, team) <= EpochOf(Play(cfg, h, actions[..k]), team)
    ensures team in Play(cfg, h, actions).plane.teams
    ensures EpochOf(Play(cfg, h, actions[..k]), team) <= EpochOf(Play(cfg, h, actions), team)
  {
    EpochsNeverFall(cfg, h, actions[..k], team);
    assert actions == actions[..k] + actions[k..];
    PlaySplit(cfg, h, actions[..k], actions[k..]);
    EpochsNeverFall(cfg, Play(cfg, h, actions[..k]), actions[k..], team);
  }

  /** The transactions that bump the epoch of a team. */
  predicate Bumps(a: Action, team: TeamId) {
    || (a.Disable? && a.team == team)
    || (a.Rollback? && a.team == team)
    || a.RecoverHub?
  }

  /** Each bump raises the epoch by one and nothing else moves it. */
  lemma BumpExactly(cfg: Settings, h: Hub, a: Action, team: TeamId)
    requires team in h.plane.teams
    ensures team in Do(cfg, h, a).plane.teams
    ensures EpochOf(Do(cfg, h, a), team) == EpochOf(h, team) + if Bumps(a, team) then 1 else 0
  {
    hide CommandModel.Apply, StoredCommand, ClaimStep, ValueOf, WellTargeted, NextSequence, ScopeOf;
  }

  // ----------------------------------------------------------- epoch fencing

  lemma StepKeepsIntent(cfg: Settings, f: CommandFile, steps: seq<FileStep>)
    ensures Run(cfg, f, steps).intent == f.intent
  {
    if steps != [] {
      StepKeepsIntent(cfg, f, Front(steps));
      StepExtends(cfg, Run(cfg, f, Front(steps)), Last(steps));
    }
  }

  /** A claim opens a new transport attempt. */
  ghost predicate OpensAttempt(cfg: Settings, h: Hub, id: CommandId) {
    && id in h.commands && id in Do(cfg, h, ClaimOutbox(id)).commands
    && |Do(cfg, h, ClaimOutbox(id)).commands[id].attempts| > |h.commands[id].attempts|
  }

  lemma ClaimOpensExactly(cfg: Settings, f: CommandFile, denial: Option<Denial>, now: nat)
    ensures |Claim(cfg, f, denial, now).attempts| > |f.attempts| <==> Opens(cfg, f, denial, now)
  {
  }

  /** An attempt of a state-changing command is opened only in controlled mode, under the
      epoch the command was requested in. */
  lemma OpenNeedsCurrentEpoch(cfg: Settings, h: Hub, id: CommandId)
    requires OpensAttempt(cfg, h, id) && StateChanging(h.commands[id].intent.operation)
    ensures var i := h.commands[id].intent;
            && i.team in h.plane.teams && i.gateway in h.gateways
            && Revalidation(h, h.commands[id]).None?
            && h.plane.teams[i.team] == Team(Controlled, i.epoch)
  {
    var f := h.commands[id];
    if f.intent.team in h.plane.teams && f.intent.gateway in h.gateways {
      ClaimOpensExactly(cfg, f, ClaimStep(cfg, h, f).denial, h.now);
      assert Do(cfg, h, ClaimOutbox(id)).commands[id] == CommandModel.Apply(cfg, f, ClaimStep(cfg, h, f));
    }
  }

  /** No bump can have happened since any moment at which the command's epoch was current. */
  lemma FencedSince(cfg: Settings, asked: Hub, id: CommandId, between: seq<Action>)
    requires id in asked.commands
    requires var i := asked.commands[id].intent;
             && StateChanging(i.operation) && i.team in asked.plane.teams && EpochOf(asked, i.team) == i.epoch
    requires OpensAttempt(cfg, Play(cfg, asked, between), id)
    ensures var i := asked.commands[id].intent;
            && i.team in Play(cfg, asked, between).plane.teams
            && Play(cfg, asked, between).plane.teams[i.team].mode == Controlled
            && forall k :: 0 <= k <= |between| ==>
                 && i.team in Play(cfg, asked, between[..k]).plane.teams
                 && EpochOf(Play(cfg, asked, between[..k]), i.team) == i.epoch
  {
    var i := asked.commands[id].intent;
    var steps := CommandRunWithin(cfg, asked, between, id);
    StepKeepsIntent(cfg, asked.commands[id], steps);
    OpenNeedsCurrentEpoch(cfg, Play(cfg, asked, between), id);
    forall k | 0 <= k <= |between|
      ensures i.team in Play(cfg, asked, between[..k]).plane.teams
      ensures EpochOf(Play(cfg, asked, between[..k]), i.team) == i.epoch
    {
      EpochBetween(cfg, asked, between, k, i.team);
    }
  }

  lemma NewFileKeepsIntent(cfg: Settings, h: Hub, r: Request)
    requires WellTargeted(h, r)
    ensures StoredCommand(cfg, h, r).intent == IntentOf(h, r)
  {
    hide IntentOf, RequestDenial, TermsOf, ValueOf;
  }

  lemma RequestStoresEpoch(cfg: Settings, h: Hub, r: Request)
    requires WellTargeted(h, r)
    ensures var asked := Do(cfg, h, RequestCommand(r));
            var team := h.gateways[r.gateway].team;
            && r.id in asked.commands && asked.commands[r.id].intent.operation == r.operation
            && asked.commands[r.id].intent.team == team && asked.plane == h.plane
            && asked.commands[r.id].intent.epoch == EpochOf(h, team)
  {
    hide NewFile, RequestDenial, TermsOf, ValueOf, NextSequence, Lifetime;
    NewFileKeepsIntent(cfg, h, r);
  }

  /** Epoch fencing: whenever a claim opens an attempt of a state-changing command, the team
      is in controlled mode and not one epoch bump lies between the request and the claim.
      The runs before the request and between it and the claim are arbitrary: resets that
      leave a retry row behind, approvals of cancelled commands and late workers included. */
  lemma EpochFencing(
    cfg: Settings, start: Hub, before: seq<Action>, request: Request, between: seq<Action>)
    requires var h := Play(cfg, start, before);
             && WellTargeted(h, request) && StateChanging(request.operation)
             && OpensAttempt(cfg, Play(cfg, Do(cfg, h, RequestCommand(request)), between), request.id)
    ensures var h := Play(cfg, start, before);
            var claimed := Play(cfg, Do(cfg, h, RequestCommand(request)), between);
            var team := h.gateways[request.gateway].team;
            && team in claimed.plane.teams && claimed.plane.teams[team] == Team(Controlled, EpochOf(h, team))
            && forall a :: a in between ==> !Bumps(a, team)
  {
    hide Do, OpensAttempt, Bumps;
    var h := Play(cfg, start, before);
    var asked := Do(cfg, h, RequestCommand(request));
    var team := h.gateways[request.gateway].team;
    RequestStoresEpoch(cfg, h, request);
    FencedSince(cfg, asked, request.id, between);
    assert between[..|between|] == between;
    forall k | 0 <= k < |between|
      ensures !Bumps(between[k], team)
    {
      assert Front(between[..k + 1]) == between[..k] && Last(between[..k + 1]) == between[k];
      BumpExactly(cfg, Play(cfg, asked, between[..k]), between[k], team);
    }
  }

  // ------------------------------------------------ work surviving a recovery

  /** A disaster reset cancels pending and claimed rows but leaves retry rows claimable. */
  lemma ResetLeavesRetryRows(f: CommandFile, reason: string)
    ensures Reclaimable(Reset(f, reason)) <==> f.outbox.Some? && f.outbox.value.status == RetryScheduled
  {
  }

  /** The command was requested in an epoch its team has reached. */
  predicate EpochReached(h: Hub, id: CommandId)
    requires id in h.commands
  {
    var i := h.commands[id].intent;
    i.team in h.plane.teams && i.epoch <= EpochOf(h, i.team)
  }

  lemma StepKeepsEpochReached(cfg: Settings, h: Hub, a: Action, id: CommandId)
    requires id in Do(cfg, h, a).commands
    requires id in h.commands ==> EpochReached(h, id)
    ensures EpochReached(Do(cfg, h, a), id)
  {
    hide Do, CommandModel.Apply, StoredCommand;
    if id in h.commands {
      DoOnCommand(cfg, h, a, id);
      EpochsStep(cfg, h, a, h.commands[id].intent.team);
      var step := StepOn(cfg, h, a, id);
      if step.Some? {
        StepExtends(cfg, h.commands[id], step.value);
      }
    } else {
      CommandsEnterByRequest(cfg, h, a, id);
      RequestStoresEpoch(cfg, h, a.request);
    }
  }

  lemma {:induction false} EveryEpochReached(cfg: Settings, start: Hub, actions: seq<Action>, id: CommandId)
    requires start.commands == map[] && id in Play(cfg, start, actions).commands
    ensures EpochReached(Play(cfg, start, actions), id)
  {
    hide Do, EpochReached;
    var h := Play(cfg, start, Front(actions));
    if id in h.commands {
      EveryEpochReached(cfg, start, Front(actions), id);
    }
    StepKeepsEpochReached(cfg, h, Last(actions), id);
  }

  /** In every run, nothing state-changing requested before a Hub recovery is published after it. */
  lemma RecoveryStopsStateChanges(
    cfg: Settings, start: Hub, before: seq<Action>, reason: string, after: seq<Action>, id: CommandId)
    requires start.commands == map[] && id in Play(cfg, start, before).commands
    requires StateChanging(Play(cfg, start, before).commands[id].intent.operation)
    ensures !OpensAttempt(cfg, Play(cfg, Do(cfg, Play(cfg, start, before), RecoverHub(reason)), after), id)
  {
    hide Revalidation, CommandModel.Run, Play;
    var h := Play(cfg, start, before);
    EveryEpochReached(cfg, start, before, id);
    var i := h.commands[id].intent;
    var recovered := Do(cfg, h, RecoverHub(reason));
    BumpExactly(cfg, h, RecoverHub(reason), i.team);
    DoOnCommand(cfg, h, RecoverHub(reason), id);
    var steps := CommandRunWithin(cfg, recovered, after, id);
    StepKeepsIntent(cfg, recovered.commands[id], steps);
    EpochsNeverFall(cfg, recovered, after, i.team);
    if OpensAttempt(cfg, Play(cfg, recovered, after), id) {
      OpenNeedsCurrentEpoch(cfg, Play(cfg, recovered, after), id);
    }
  }

  /** A diagnostic passes revalidation exactly until it expires. */
  lemma DiagnosticRevalidation(h: Hub, f: CommandFile)
    requires f.intent.team in h.plane.teams && f.intent.gateway in h.gateways
    requires !StateChanging(f.intent.operation) && !f.intent.operation.Unlisted?
    ensures Revalidation(h, f).None? <==> h.now < f.intent.expiresAt
  {
  }

  /** A claim of a diagnostic opens an attempt exactly when its row is claimable with attempts left
      and it has not expired. */
  lemma DiagnosticOpensExactly(cfg: Settings, h: Hub, id: CommandId)
    requires id in h.commands && !StateChanging(h.commands[id].intent.operation)
    requires h.commands[id].intent.team in h.plane.teams && h.commands[id].intent.gateway in h.gateways
    requires !h.commands[id].intent.operation.Unlisted?
    ensures OpensAttempt(cfg, h, id) <==>
            var f := h.commands[id];
            && f.outbox.Some? && Claimable(f.outbox.value, h.now)
            && f.outbox.value.attemptCount < cfg.maxAttempts && h.now < f.intent.expiresAt
  {
    hide Revalidation, Claim, Claimable;
    var f := h.commands[id];
    DiagnosticRevalidation(h, f);
    ClaimOpensExactly(cfg, f, ClaimStep(cfg, h, f).denial, h.now);
    ClaimOnHub(cfg, h, id);
  }

  lemma ClaimOnHub(cfg: Settings, h: Hub, id: CommandId)
    requires id in h.commands
    requires h.commands[id].intent.team in h.plane.teams && h.commands[id].intent.gateway in h.gateways
    ensures id in Do(cfg, h, ClaimOutbox(id)).commands
    ensures Do(cfg, h, ClaimOutbox(id)).commands[id]
            == Claim(cfg, h.commands[id], ClaimStep(cfg, h, h.commands[id]).denial, h.now)
  {
    hide Revalidation, Claim;
  }

  /** What a recovery leaves of one command: its team, its Gateway and the clock are still there. */
  lemma RecoveredCommand(cfg: Settings, h: Hub, id: CommandId, reason: string)
    requires id in h.commands && h.commands[id].intent.team in h.plane.teams
    ensures var recovered := Do(cfg, h, RecoverHub(reason));
            && id in recovered.commands && recovered.commands[id] == Reset(h.commands[id], reason)
            && h.commands[id].intent.team in recovered.plane.teams && recovered.gateways == h.gateways
            && recovered.now == h.now
  {
    hide Reset;
  }

  /** A diagnostic is published again right after a recovery, its command already cancelled,
      exactly when its row was a due retry with attempts left and it has not expired. */
  lemma DiagnosticRetrySurvivesRecovery(cfg: Settings, h: Hub, id: CommandId, reason: string)
    requires id in h.commands && !StateChanging(h.commands[id].intent.operation)
    requires h.commands[id].intent.team in h.plane.teams && h.commands[id].intent.gateway in h.gateways
    requires !h.commands[id].intent.operation.Unlisted?
    ensures OpensAttempt(cfg, Do(cfg, h, RecoverHub(reason)), id) <==>
            var f := h.commands[id];
            && f.outbox.Some? && f.outbox.value.status == RetryScheduled && f.outbox.value.nextAttemptAt <= h.now
            && f.outbox.value.attemptCount < cfg.maxAttempts && h.now < f.intent.expiresAt
    ensures Waiting(h.commands[id].status) ==>
              id in Do(cfg, h, RecoverHub(reason)).commands
              && Do(cfg, h, RecoverHub(reason)).commands[id].status == Cancelled
  {
    hide Do, OpensAttempt;
    RecoveredCommand(cfg, h, id, reason);
    DiagnosticOpensExactly(cfg, Do(cfg, h, RecoverHub(reason)), id);
  }

  // ----------------------------------------------- re-activation after a bump

  /** Among all transactions only an accepted activation of this key enables its scope. */
  lemma ScopeStep(cfg: Settings, h: Hub, a: Action, sk: ScopeKey)
    requires sk in Do(cfg, h, a).plane.scopes && Do(cfg, h, a).plane.scopes[sk].mode == Enabled
    ensures || (sk in h.plane.scopes && h.plane.scopes[sk] == Do(cfg, h, a).plane.scopes[sk])
            || (&& a.Activate? && a.scope == sk && ActivationAccepted(h.plane, sk, a.ready)
                && sk.team in h.plane.teams
                && Do(cfg, h, a).plane.scopes[sk] == Scope(Enabled, EpochOf(h, sk.team))
                && sk.team in Do(cfg, h, a).plane.teams
                && EpochOf(Do(cfg, h, a), sk.team) == EpochOf(h, sk.team))
  {
    hide CommandModel.Apply, StoredCommand, ClaimStep, ValueOf, WellTargeted, NextSequence, ScopeOf;
  }

  /** The activation at position i is the one the scope still carries at the end. */
  ghost predicate ActivatedAt(cfg: Settings, start: Hub, actions: seq<Action>, sk: ScopeKey, i: nat) {
    && i < |actions| && actions[i].Activate? && actions[i].scope == sk
    && sk in Play(cfg, start, actions).plane.scopes
    && ActivationAccepted(Play(cfg, start, actions[..i]).plane, sk, actions[i].ready)
    && sk.team in Play(cfg, start, actions[..i + 1]).plane.teams
    && Play(cfg, start, actions).plane.scopes[sk].epoch == EpochOf(Play(cfg, start, actions[..i + 1]), sk.team)
    && forall j :: i < j <= |actions| ==>
         sk in Play(cfg, start, actions[..j]).plane.scopes
         && Play(cfg, start, actions[..j]).plane.scopes[sk] == Play(cfg, start, actions).plane.scopes[sk]
  }

  lemma {:induction false} EnabledSinceActivation(cfg: Settings, start: Hub, actions: seq<Action>, sk: ScopeKey)
    returns (i: nat)
    requires start.plane.scopes == map[]
    requires sk in Play(cfg, start, actions).plane.scopes
    requires Play(cfg, start, actions).plane.scopes[sk].mode == Enabled
    ensures ActivatedAt(cfg, start, actions, sk, i)
  {
    hide Do, ActivationAccepted;
    var front := Front(actions);
    var h := Play(cfg, start, front);
    assert actions[..|actions| - 1] == front && actions[..|actions|] == actions;
    ScopeStep(cfg, h, Last(actions), sk);
    if sk in h.plane.scopes && h.plane.scopes[sk] == Play(cfg, start, actions).plane.scopes[sk] {
      i := EnabledSinceActivation(cfg, start, front, sk);
      forall j | i < j <= |actions|
        ensures sk in Play(cfg, start, actions[..j]).plane.scopes
        ensures Play(cfg, start, actions[..j]).plane.scopes[sk] == Play(cfg, start, actions).plane.scopes[sk]
      {
        if j < |actions| {
          assert actions[..j] == front[..j];
        }
      }
      assert actions[..i] == front[..i] && actions[..i + 1] == front[..i + 1];
    } else {
      i := |front|;
    }
  }

  /** The request is stored queued or awaiting approval, not denied. */
  predicate Admitted(h: Hub, r: Request) {
    WellTargeted(h, r) && RequestDenial(h, r).None?
  }

  /** Re-activation after a bump: a write request is admitted only if this exact device key
      was activated earlier in the run, has stayed enabled ever since, and the team's epoch
      has not been bumped since that activation. */
  lemma WriteNeedsActivationSinceBump(cfg: Settings, start: Hub, actions: seq<Action>, r: Request)
    returns (i: nat)
    requires start.plane.scopes == map[]
    requires r.operation.WriteDevice? && Admitted(Play(cfg, start, actions), r)
    ensures var h := Play(cfg, start, actions);
            var sk := ScopeOf(h, r.device.value, r.gateway, r.key);
            && i < |actions| && actions[i].Activate? && actions[i].scope == sk
            && ActivationAccepted(Play(cfg, start, actions[..i]).plane, sk, actions[i].ready)
            && forall j :: i < j <= |actions| ==>
                 && KeyActivated(Play(cfg, start, actions[..j]), sk)
                 && EpochOf(Play(cfg, start, actions[..j]), sk.team) == EpochOf(h, sk.team)
  {
    hide Do, ActivationAccepted;
    var h := Play(cfg, start, actions);
    var sk := ScopeOf(h, r.device.value, r.gateway, r.key);
    i := EnabledSinceActivation(cfg, start, actions, sk);
    var activated := Play(cfg, start, actions[..i + 1]);
    forall j | i < j <= |actions|
      ensures KeyActivated(Play(cfg, start, actions[..j]), sk)
      ensures sk.team in Play(cfg, start, actions[..j]).plane.teams
      ensures EpochOf(Play(cfg, start, actions[..j]), sk.team) == EpochOf(h, sk.team)
    {
      var rest := actions[i + 1..];
      assert actions == actions[..i + 1] + rest;
      PlaySplit(cfg, start, actions[..i + 1], rest);
      assert actions[..j] == actions[..i + 1] + rest[..j - i - 1];
      PlaySplit(cfg, start, actions[..i + 1], rest[..j - i - 1]);
      EpochBetween(cfg, activated, rest, j - i - 1, sk.team);
    }
  }
}
