/** The activation table of one Gateway as the source updates it, proved against
    EscrowModel. */
module EscrowStore {

  import opened Common
  import opened EscrowModel
  import opened EscrowProofs

  class ActivationTable {
    const ttl: nat
    var rows: seq<Activation>

    method FindLatest() returns (latest: nat)
      ensures latest == Latest(rows)
    {
      latest := 0;
      for i := 0 to |rows|
        invariant latest == Latest(rows[..i])
      {
        assert Front(rows[..i + 1]) == rows[..i];
        if rows[i].generation > latest {
          latest := rows[i].generation;
        }
      }
      assert rows[..|rows|] == rows;
    }

    /** queue_gateway_activation: displace every unresolved generation, then issue the next. */
    method IssueNext(request: nat, password: string, now: nat) returns (generation: nat)
      modifies this
      ensures rows == Issue(old(rows), request, password, ttl, now)
      ensures generation == Latest(old(rows)) + 1
    {
      DisplaceAllAt(rows);
      for i := 0 to |rows|
        invariant |rows| == |old(rows)|
        invariant forall k :: 0 <= k < i ==> rows[k] == Displace(old(rows)[k])
        invariant forall k :: i <= k < |rows| ==> rows[k] == old(rows)[k]
      {
        if Unresolved(rows[i].status) {
          rows := rows[i := rows[i].(status := ActSuperseded, escrow := None)];
        }
      }
      assert rows == DisplaceAll(old(rows));
      DisplacedLatest(old(rows));
      var latest := FindLatest();
      generation := latest + 1;
      rows := rows + [Activation(generation, request, Provisioning, 0, None, None, None, now + ttl, Some(password))];
    }

    lemma DisplacedLatest(given: seq<Activation>)
      ensures Latest(DisplaceAll(given)) == Latest(given)
    {
      if given != [] {
        DisplacedLatest(Front(given));
        assert Front(DisplaceAll(given)) == DisplaceAll(Front(given));
      }
    }

    /** expire_gateway_activation, called under the Gateway's lock. */
    method ExpireRow(i: nat) returns (expired: bool)
      requires i < |rows|
      modifies this
      ensures rows == old(rows)[i := Expire(old(rows)[i])]
      ensures expired ==> rows[i].status.ActExpired? && rows[i].escrow.None?
    {
      var a := rows[i];
      if a.acknowledgedAt.Some? {
        if !a.status.ActAcknowledged? {
          a := a.(status := ActAcknowledged);
          a := a.(escrow := None);
        }
        rows := rows[i := a];
        return false;
      }
      if a.status.ActAcknowledged? || a.status.ActExpired? {
        assert rows[i := a] == rows;
        return false;
      }
      a := a.(status := ActExpired);
      a := a.(escrow := None);
      rows := rows[i := a];
      return true;
    }

    /** deliver_gateway_activation; the secret it publishes is the one returned. */
    method DeliverRow(i: nat, retry: bool, sent: bool, now: nat) returns (published: Option<string>)
      requires i < |rows| && Sealed(rows)
      modifies this
      ensures rows == old(rows)[i := EscrowModel.Deliver(old(rows)[i], Latest(old(rows)), retry, sent, now)]
      ensures published.Some? <==> Decrypts(old(rows)[i], Latest(old(rows)), now)
      ensures published.Some? ==> published == old(rows)[i].escrow
    {
      var a := rows[i];
      assert rows[i := a] == rows;
      if a.acknowledgedAt.Some? || a.status.ActAcknowledged? || a.status.ActSuperseded? || a.status.ActExpired? {
        return None;
      }
      var latest := FindLatest();
      if a.generation != latest {
        return None;
      }
      if a.expiresAt <= now {
        var expired := ExpireRow(i);
        return None;
      }
      published := Some(a.escrow.value);
      a := a.(attemptCount := a.attemptCount + 1);
      a := a.(lastAttemptAt := Some(now));
      if !sent {
        a := a.(status := ActFailed);
      } else {
        a := a.(deliveredAt := Some(now));
        a := a.(status := if retry || a.attemptCount > 1 then Retried else EscrowModel.Delivered);
      }
      rows := rows[i := a];
    }

    /** provision_gateway_activation, delivering at once when the Gateway is reachable. */
    method ProvisionRow(i: nat, met: Provisioned, now: nat)
      requires i < |rows| && Sealed(rows)
      modifies this
      ensures rows == old(rows)[i := Provision(old(rows)[i], Latest(old(rows)), ttl, met, now)]
    {
      var a := rows[i];
      assert rows[i := a] == rows;
      if a.acknowledgedAt.Some? || a.status.ActAcknowledged? || a.status.ActSuperseded? || a.status.ActExpired? {
        return;
      }
      var latest := FindLatest();
      if a.generation != latest {
        return;
      }
      if a.expiresAt <= now {
        var expired := ExpireRow(i);
        return;
      }
      if !met.accepted {
        a := a.(status := RetryLater);
        a := a.(attemptCount := a.attemptCount + 1, lastAttemptAt := Some(now));
        rows := rows[i := a];
        return;
      }
      a := a.(status := ActPending, expiresAt := now + ttl);
      OneRowChanged(rows, i, a);
      LatestIsLength(rows);
      rows := rows[i := a];
      LatestIsLength(rows);
      if met.reachable {
        var published := DeliverRow(i, false, met.sent, now);
      }
    }

    /** acknowledge_gateway_activation */
    method AcceptAck(i: nat, generation: int, success: bool, now: nat)
      requires i < |rows|
      modifies this
      ensures rows == old(rows)[i := EscrowModel.Acknowledge(old(rows)[i], Latest(old(rows)), generation, success, now)]
    {
      var a := rows[i];
      assert rows[i := a] == rows;
      if a.generation != generation {
        return;
      }
      var latest := FindLatest();
      if a.generation != latest || a.status.ActExpired? || a.status.ActSuperseded? {
        return;
      }
      if a.acknowledgedAt.Some? || a.status.ActAcknowledged? {
        if !a.status.ActAcknowledged? {
          a := a.(status := ActAcknowledged, escrow := None);
        }
      } else if success {
        a := a.(status := ActAcknowledged);
        a := a.(acknowledgedAt := Some(now));
        a := a.(escrow := None);
      } else {
        a := a.(status := ActFailed);
      }
      rows := rows[i := a];
    }

    /** The expiry half of the maintenance sweep, uninterrupted: afterwards no unresolved
        activation has outlived its term, and no other row changed. */
    method SweepExpired(now: nat)
      requires Sealed(rows)
      modifies this
      ensures Sealed(rows) && |rows| == |old(rows)|
      ensures forall i :: 0 <= i < |rows| ==>
                rows[i] == if Unresolved(old(rows)[i].status) && old(rows)[i].expiresAt <= now
                           then Expire(old(rows)[i]) else old(rows)[i]
    {
      for i := 0 to |rows|
        invariant Sealed(rows) && |rows| == |old(rows)|
        invariant forall k :: 0 <= k < i ==>
                    rows[k] == if Unresolved(old(rows)[k].status) && old(rows)[k].expiresAt <= now
                               then Expire(old(rows)[k]) else old(rows)[k]
        invariant forall k :: i <= k < |rows| ==> rows[k] == old(rows)[k]
      {
        if Unresolved(rows[i].status) && rows[i].expiresAt <= now {
          var done := ExpireRow(i);
        }
      }
    }
  }
}
