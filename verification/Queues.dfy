/** Which row a worker claims: `ORDER BY queued_at LIMIT 1` over the rows that wait. */
module Queues {
  import opened Options

  /** The first of the rows that have waited longest; the number of rows when none waits. `waits` tells since when. */
  function Oldest<R>(rows: seq<R>, waits: R -> Option<int>): (r: nat)
    ensures r <= |rows|
    ensures r < |rows| ==> waits(rows[r]).Some?
    ensures r < |rows| ==> forall i :: 0 <= i < |rows| && waits(rows[i]).Some? ==> waits(rows[r]).value <= waits(rows[i]).value
    ensures r == |rows| ==> forall i :: 0 <= i < |rows| ==> waits(rows[i]).None?
  {
    if rows == [] then 0
    else
      var n := |rows| - 1;
      var r := Oldest(rows[..n], waits);
      if waits(rows[n]).Some? && (r == n || waits(rows[n]).value < waits(rows[r]).value) then n
      else if r == n then |rows| else r
  }

  /** No row has waited longer, and of those that have waited as long this one comes first. */
  predicate IsNext<R>(rows: seq<R>, waits: R -> Option<int>, i: nat)
    requires i < |rows|
  {
    && waits(rows[i]).Some?
    && forall k :: 0 <= k < |rows| && waits(rows[k]).Some? ==>
         waits(rows[i]).value < waits(rows[k]).value || (waits(rows[i]).value == waits(rows[k]).value && i <= k)
  }

  lemma {:induction false} OldestIsFirst<R>(rows: seq<R>, waits: R -> Option<int>, k: nat)
    requires k < Oldest(rows, waits) < |rows| && waits(rows[k]).Some?
    ensures waits(rows[Oldest(rows, waits)]).value < waits(rows[k]).value
  {
    var n := |rows| - 1;
    if Oldest(rows, waits) < n {
      OldestIsFirst(rows[..n], waits, k);
    } else {
      assert rows[..n][k] == rows[k];
    }
  }

  /** The oldest row is the one next in the queue. */
  lemma NextIsOldest<R>(rows: seq<R>, waits: R -> Option<int>, i: nat)
    requires i < |rows|
    ensures IsNext(rows, waits, i) <==> i == Oldest(rows, waits)
  {
    var r := Oldest(rows, waits);
    if r < |rows| {
      forall k | 0 <= k < |rows| && waits(rows[k]).Some?
        ensures waits(rows[r]).value < waits(rows[k]).value || (waits(rows[r]).value == waits(rows[k]).value && r <= k)
      {
        if k < r {
          OldestIsFirst(rows, waits, k);
        }
      }
    }
  }

  method FindOldest<R>(rows: seq<R>, waits: R -> Option<int>) returns (oldest: nat)
    ensures oldest == Oldest(rows, waits)
  {
    oldest := 0;
    for i := 0 to |rows|
      invariant oldest == Oldest(rows[..i], waits)
    {
      assert rows[..i + 1][..i] == rows[..i];
      if waits(rows[i]).Some? && (oldest == i || waits(rows[i]).value < waits(rows[oldest]).value) {
        oldest := i;
      } else if oldest == i {
        oldest := i + 1;
      }
    }
    assert rows[..|rows|] == rows;
  }
}
