/** The tables of extractions and packets and the leased statements on them (adapters/cds_store.py). */
module CdsStore {
  import opened Options
  import opened Queues
  import opened ExtractionRules

  class CdsStore {
    var rows: seq<Extraction>
    var packets: seq<Packet>
    var now: int

    ghost function View(): State
      reads this
    {
      State(rows, packets, now)
    }

    constructor ()
      ensures View() == START
    {
      rows, packets, now := [], [], 0;
    }

    /** The primary key: whether the id is taken. */
    method Taken(id: nat) returns (taken: bool)
      ensures taken <==> Known(rows, id)
    {
      var i := 0;
      while i < |rows| && rows[i].id != id
        invariant i <= |rows| && forall k :: 0 <= k < i ==> rows[k].id != id
      {
        i := i + 1;
      }
      return i < |rows|;
    }

    /** Queues one extraction. An id that is taken is refused by the primary key. */
    method CreateExtraction(id: nat, document: nat, at: int) returns (created: bool)
      modifies this
      ensures View() == Step(old(View()), Event(Create(id, document), at))
      ensures created <==> !Known(old(rows), id)
    {
      hide Known;
      now := at;
      var taken := Taken(id);
      if taken {
        return false;
      }
      rows := rows + [Extraction(id, document, Queued, now, None, None, None, None)];
      return true;
    }

    /** A human correction is born complete and never holds a lease. */
    method CreateHumanReviewExtraction(id: nat, document: nat, at: int) returns (created: bool)
      modifies this
      ensures View() == Step(old(View()), Event(HumanReview(id, document), at))
      ensures created <==> !Known(old(rows), id)
    {
      hide Known;
      now := at;
      var taken := Taken(id);
      if taken {
        return false;
      }
      rows := rows + [Extraction(id, document, Succeeded, now, Some(now), None, Some(now), None)];
      return true;
    }

    method ClaimNextExtraction(lease: int, at: int) returns (claimed: Option<nat>)
      modifies this
      ensures View() == Step(old(View()), Event(Claim(lease), at))
      ensures claimed.None? <==> forall i :: 0 <= i < |old(rows)| ==> old(rows)[i].status != Queued
    {
      now := at;
      var i := FindOldest(rows, Waits);
      if i == |rows| {
        return None;
      }
      claimed := Some(rows[i].id);
      rows := rows[i := rows[i].(status := Running, startedAt := Some(now), leaseExpiresAt := Some(now + lease))];
    }

    /** False stands for the lost lease: no row of that id is running. */
    method RenewLease(id: nat, lease: int, at: int) returns (renewed: bool)
      modifies this
      ensures View() == Step(old(View()), Event(Renew(id, lease), at))
      ensures renewed <==> exists i :: 0 <= i < |old(rows)| && IsRunning(old(rows)[i], id)
    {
      now := at;
      renewed := false;
      for i := 0 to |rows|
        invariant |rows| == |old(rows)| && View() == old(View()).(now := at, rows := rows)
        invariant forall k :: 0 <= k < i ==> rows[k] == RenewRow(old(rows)[k], id, lease, at)
        invariant forall k :: i <= k < |rows| ==> rows[k] == old(rows)[k]
        invariant renewed <==> exists k :: 0 <= k < i && IsRunning(old(rows)[k], id)
      {
        if IsRunning(rows[i], id) {
          rows := rows[i := rows[i].(leaseExpiresAt := Some(now + lease))];
          renewed := true;
        }
      }
    }

    /** False stands for the lost lease, and then nothing is written. */
    method CompleteExtraction(id: nat, status: Status, errorCode: Option<string>, at: int) returns (completed: bool)
      modifies this
      ensures View() == Step(old(View()), Event(Complete(id, status, errorCode), at))
      ensures completed <==> exists i :: 0 <= i < |old(rows)| && IsAlive(old(rows)[i], id, at)
    {
      now := at;
      completed := false;
      for i := 0 to |rows|
        invariant |rows| == |old(rows)| && View() == old(View()).(now := at, rows := rows)
        invariant forall k :: 0 <= k < i ==> rows[k] == CompleteRow(old(rows)[k], id, status, errorCode, at)
        invariant forall k :: i <= k < |rows| ==> rows[k] == old(rows)[k]
        invariant completed <==> exists k :: 0 <= k < i && IsAlive(old(rows)[k], id, at)
      {
        if IsAlive(rows[i], id, now) {
          rows := rows[i := rows[i].(status := status, finishedAt := Some(now), errorCode := errorCode)];
          completed := true;
        }
      }
    }

    method SweepExpiredLeases(lost: string, at: int) returns (swept: seq<nat>)
      modifies this
      ensures View() == Step(old(View()), Event(Sweep(lost), at))
      ensures forall id :: id in swept <==> exists i :: 0 <= i < |old(rows)| && IsExpired(old(rows)[i], id, at)
    {
      now := at;
      swept := [];
      for i := 0 to |rows|
        invariant |rows| == |old(rows)| && View() == old(View()).(now := at, rows := rows)
        invariant forall k :: 0 <= k < i ==> rows[k] == SweepRow(old(rows)[k], lost, at)
        invariant forall k :: i <= k < |rows| ==> rows[k] == old(rows)[k]
        invariant forall id :: id in swept <==> exists k :: 0 <= k < i && IsExpired(old(rows)[k], id, at)
      {
        if Expired(rows[i], now) {
          assert IsExpired(old(rows)[i], rows[i].id, at);
          swept := swept + [rows[i].id];
          rows := rows[i := rows[i].(status := Failed, finishedAt := Some(now), errorCode := Some(lost))];
        }
      }
    }

    /**
     * Check and insert are one statement, but its clock is that of the transaction, read at `readAt`. False stands for
     * the lost lease.
     */
    method InsertPacket(id: nat, domain: string, readAt: int, at: int) returns (stored: bool)
      modifies this
      ensures View() == Step(old(View()), Event(Op.InsertPacket(id, domain, readAt), at))
      ensures stored <==> Fence(old(rows), id, readAt)
    {
      now := at;
      var i := 0;
      while i < |rows| && !Admits(rows[i], id, readAt)
        invariant i <= |rows| && forall k :: 0 <= k < i ==> !Admits(rows[k], id, readAt)
      {
        i := i + 1;
      }
      if i == |rows| {
        return false;
      }
      packets := packets + [Packet(id, domain, readAt)];
      return true;
    }
  }

  predicate IsRunning(row: Extraction, id: nat) {
    row.id == id && row.status == Running
  }

  predicate IsAlive(row: Extraction, id: nat, now: int) {
    row.id == id && Alive(row, now)
  }

  predicate IsExpired(row: Extraction, id: nat, now: int) {
    row.id == id && Expired(row, now)
  }
}
