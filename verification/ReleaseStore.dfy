/** The release request and its Gateway as the source updates them, proved against
    ReleaseModel. */
module ReleaseStore {

  import opened Common
  import Command = CommandModel
  import EscrowModel
  import EscrowProofs
  import opened ReleaseModel

  class ReleaseDesk {
    const cfg: Command.Settings
    const timing: Timing
    const claimId: string
    const team: nat
    var lifecycle: Lifecycle
    var releases: seq<Release>
    var workers: map<nat, Worker>
    var readers: map<nat, Lifecycle>
    var commands: map<Command.CommandId, Command.CommandFile>
    var activations: seq<EscrowModel.Activation>
    ghost var expiring: set<nat>

    ghost function Value(): Gateway
      reads this
    {
      Gateway(team, lifecycle, claimId, releases, workers, readers, commands,
              EscrowModel.Escrow(activations, expiring))
    }

    /** request_gateway_release */
    method AskForRelease(request: nat, now: nat) returns (accepted: bool)
      modifies this
      ensures Value() == RequestRelease(old(Value()), request, now)
      ensures accepted <==> old(SomeOpen(releases)) || !old(lifecycle).Released?
    {
      for i := 0 to |releases|
        invariant Value() == old(Value())
        invariant forall k :: 0 <= k < i ==> releases[k].status.ReleaseCompleted?
      {
        if !releases[i].status.ReleaseCompleted? {
          return true;
        }
      }
      if lifecycle.Released? {
        return false;
      }
      lifecycle := ReleasePending;
      releases := releases + [Release(request, ReleaseQueued, 0, now, None, None)];
      return true;
    }

    /** claim_gateway_for_team on a Gateway that exists already: there is no check of the
        quarantine. */
    method ClaimAgain(c: Claim, now: nat) returns (claimed: bool)
      modifies this
      ensures claimed == old(ClaimAdmitted(Value(), c))
      ensures Value() == Reclaim(old(Value()), c, now)
    {
      hide EscrowModel.Issue;
      if !c.valid || c.team != team || lifecycle.Released? {
        return false;
      }
      lifecycle := Operating;
      activations := EscrowModel.Issue(activations, c.request, c.password, c.ttl, now);
      return true;
    }

    /** acknowledge_gateway_release by a consumer that has read the Gateway before. */
    method Acknowledge(u: nat, i: nat, r: Receipt, now: nat) returns (accepted: bool)
      requires u in readers
      modifies this
      ensures accepted == old(ReceiptAccepted(Value(), u, i, r))
      ensures Value() == AcceptReceipt(old(Value()), u, i, r, now)
    {
      if !r.resetComplete {
        return false;
      }
      if i >= |releases| || releases[i].request != r.request || releases[i].status.ReleaseCompleted? {
        return false;
      }
      if !readers[u].ReleasePending? || r.claimId != claimId {
        return false;
      }
      var row := releases[i];
      if row.edgeResetAt.None? {
        row := row.(edgeResetAt := Some(now));
        row := row.(status := ReleaseRetry);
        row := row.(nextAttemptAt := now, leaseExpiresAt := None);
        releases := releases[i := row];
      }
      return true;
    }

    /** The claim transaction of dispatch_gateway_release. */
    method Claim(w: nat, i: nat, now: nat) returns (claimed: bool)
      requires w !in workers
      modifies this
      ensures Value() == ClaimRelease(timing, old(Value()), w, i, now)
      ensures claimed <==> w in workers
    {
      if i >= |releases| || releases[i].status.ReleaseCompleted? {
        return false;
      }
      var row := releases[i];
      var claimable := row.status.ReleaseQueued? || row.status.ReleaseRetry? || row.status.NeedsAttention?;
      claimable := claimable || (row.status.Revoking? && row.leaseExpiresAt.Some? && row.leaseExpiresAt.value <= now);
      if !claimable || row.nextAttemptAt > now {
        return false;
      }
      row := row.(status := Revoking);
      row := row.(leaseExpiresAt := Some(now + timing.lease));
      row := row.(attemptCount := row.attemptCount + 1);
      releases := releases[i := row];
      workers := workers[w := Worker(i, Claimed(row.edgeResetAt.Some?))];
      return true;
    }

    /** _retry_release */
    method Retry(w: nat, now: nat)
      requires w in workers && workers[w].release < |releases|
      modifies this
      ensures Value() == RetryRelease(timing, old(Value()), w, now)
    {
      var i := workers[w].release;
      var row := releases[i];
      var delay := Min(timing.retryMax, Max(5, Pow2(Min(row.attemptCount, 8))));
      row := row.(status := if row.attemptCount >= 3 then NeedsAttention else ReleaseRetry);
      row := row.(nextAttemptAt := now + delay);
      row := row.(leaseExpiresAt := None);
      releases := releases[i := row];
      workers := workers - {w};
    }

    /** _finalize_release: cancel the open commands, blank the secrets, then release. */
    method FinalizeRelease(w: nat)
      requires w in workers && workers[w].phase.Deprovisioned? && workers[w].release < |releases|
      modifies this
      ensures Value() == Finalize(cfg, old(Value()), w)
    {
      var i := workers[w].release;
      workers := workers - {w};
      if releases[i].status.ReleaseCompleted? {
        return;
      }
      CancelOpenCommands();
      ForgetDevices();
      BlankSecrets();
      lifecycle := Released;
      var row := releases[i];
      row := row.(status := ReleaseCompleted);
      row := row.(leaseExpiresAt := None);
      releases := releases[i := row];
    }

    /** _cancel_pending_remote_commands */
    method CancelOpenCommands()
      modifies this`commands
      ensures commands == map id | id in old(commands) :: CancelForRelease(cfg, old(commands)[id])
    {
      hide *;
      TerminalNotCancelled();
      var open := set id | id in commands && !Command.Terminal(commands[id].status);
      ghost var before, start := commands, open;
      while open != {}
        invariant open <= start && commands.Keys == before.Keys
        invariant forall id :: id in before ==>
                    commands[id] == if id in start - open then CancelForRelease(cfg, before[id]) else before[id]
        decreases |open|
      {
        var id :| id in open;
        commands := commands[id := CancelForRelease(cfg, commands[id])];
        open := open - {id};
      }
      assert forall id :: id in before ==> commands[id] == CancelForRelease(cfg, before[id]);
    }

    lemma TerminalNotCancelled()
      ensures forall f: Command.CommandFile :: Command.Terminal(f.status) ==> CancelForRelease(cfg, f) == f
    {
    }

    /** The deletion of the Gateway's devices. */
    method ForgetDevices()
      modifies this`commands
      ensures commands == map id | id in old(commands) :: old(commands)[id].(device := None)
    {
      commands := map id | id in commands :: commands[id].(device := None);
    }

    method BlankSecrets()
      modifies this`activations
      ensures activations == EscrowModel.RevokeAll(old(activations))
    {
      EscrowProofs.RevokeAllAt(activations);
      for i := 0 to |activations|
        invariant |activations| == |old(activations)|
        invariant forall k :: 0 <= k < i ==> activations[k] == EscrowModel.Revoke(old(activations)[k])
        invariant forall k :: i <= k < |activations| ==> activations[k] == old(activations)[k]
      {
        var a := activations[i];
        if !a.status.ActAcknowledged? {
          a := a.(status := EscrowModel.ActSuperseded);
        }
        a := a.(escrow := None);
        activations := activations[i := a];
      }
    }
  }
}
