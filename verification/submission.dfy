/** `submit_cart`: copy a cart snapshot into `submitted_items` under one batch
    id, write one `submission_summary` row with the count and the sum, then
    delete every pending row of the user.

    The writes are separate store calls with no transaction. A backend error
    at any call aborts the rest and keeps what was already written. The calls
    are numbered: `0 .. n-1` insert the snapshot's items, `n` inserts the
    summary, `n+1` deletes the user's pending rows. */
module Submission {
  import opened Basics
  import opened Tables
  import opened CartOps

  const SubmitErrorPrefix: string := "제출 오류: "

  /** The backend raises `message` at call number `step`. */
  datatype Fault = Fault(step: nat, message: string)

  /** How many of the `n + 2` calls complete. */
  function CallsDone(n: nat, fault: Option<Fault>): (k: nat)
    ensures k <= n + 2
    ensures k == n + 2 <==> fault.None? || fault.value.step >= n + 2
  {
    match fault
    case None => n + 2
    case Some(f) => Min(f.step, n + 2)
  }

  /** The `submitted_items` rows written for `items`, the first taking id and
      tick `start`; `status` and `submitted_date` are the store's defaults. */
  function SubmittedRows(u: string, items: seq<PendingRow>, batchId: string, status: string, start: nat, now: string): (r: seq<SubmittedRow>)
    ensures |r| == |items|
    ensures forall j :: 0 <= j < |items| ==> r[j] == SubmittedRow(start + j, u, items[j].item, batchId, status, Stamp(start + j, now))
  {
    seq(|items|, j requires 0 <= j < |items| => SubmittedRow(start + j, u, items[j].item, batchId, status, Stamp(start + j, now)))
  }

  /** The new rows are the snapshot's items, in order, all under one batch id
      and owned by the submitting user. */
  predicate CopiesItems(rows: seq<SubmittedRow>, items: seq<PendingRow>, u: string, batchId: string) {
    && |rows| == |items|
    && forall j :: 0 <= j < |items| ==>
         rows[j].item == items[j].item && rows[j].batchId == batchId && rows[j].username == u
  }

  /** `submit_cart(u, items)` with the batch id and the store's rendering of
      "now" as parameters. */
  function SubmitCart(s: Store, u: string, items: seq<PendingRow>, batchId: string, now: string, fault: Option<Fault>): (r: Applied)
    ensures r.outcome == Pass <==> CallsDone(|items|, fault) == |items| + 2
    ensures r.outcome != Pass ==> r.outcome == Fail(SubmitErrorPrefix + fault.value.message)
    // The item inserts that ran, and only they, are in `submitted_items`.
    ensures |r.store.submitted| == |s.submitted| + Min(CallsDone(|items|, fault), |items|)
    ensures r.store.submitted[..|s.submitted|] == s.submitted
    ensures CopiesItems(r.store.submitted[|s.submitted|..], items[..Min(CallsDone(|items|, fault), |items|)], u, batchId)
    // The summary exists exactly when its insert ran, and holds the count and the sum.
    ensures CallsDone(|items|, fault) <= |items| ==> r.store.summaries == s.summaries
    ensures CallsDone(|items|, fault) > |items| ==>
      && |r.store.summaries| == |s.summaries| + 1
      && r.store.summaries[..|s.summaries|] == s.summaries
      && var sm := r.store.summaries[|s.summaries|];
         sm.username == u && sm.batchId == batchId && sm.itemCount == |items| && sm.totalAmount == SumTotals(items)
    // The delete is by username: every pending row of `u` goes, nothing else.
    ensures CallsDone(|items|, fault) <= |items| + 1 ==> r.store.pending == s.pending
    ensures CallsDone(|items|, fault) == |items| + 2 ==>
      forall x :: x in r.store.pending <==> x in s.pending && x.username != u
    ensures r.store.defaultStatus == s.defaultStatus
  {
    var n := |items|;
    var k := CallsDone(n, fault);
    var inserted := Min(k, n);
    var rows := SubmittedRows(u, items[..inserted], batchId, s.defaultStatus, s.next, now);
    var s1 := s.(submitted := s.submitted + rows, next := s.next + inserted);
    var summary := SummaryRow(s1.next, u, n, SumTotals(items), batchId, Stamp(s1.next, now));
    var s2 := if k > n then s1.(summaries := s1.summaries + [summary], next := s1.next + 1) else s1;
    var s3 := if k > n + 1 then s2.(pending := DropUser(s2.pending, u)) else s2;
    assert s3.submitted[|s.submitted|..] == rows;
    Applied(s3, if k == n + 2 then Pass else Fail(SubmitErrorPrefix + fault.value.message))
  }

  // ---------------------------------------------------------------------
  // Properties
  // ---------------------------------------------------------------------

  /** Every submission, whether or not it fails part way, keeps the store valid. */
  lemma SubmitPreservesValid(s: Store, u: string, items: seq<PendingRow>, batchId: string, now: string, fault: Option<Fault>)
    requires Valid(s)
    ensures Valid(SubmitCart(s, u, items, batchId, now, fault).store)
  {
    var r := SubmitCart(s, u, items, batchId, now, fault).store;
    var n := |items|;
    var k := CallsDone(n, fault);
    if k > n {
      var last := |r.summaries| - 1;
      assert r.summaries[..last] == s.summaries;
      assert r.summaries[last].submittedDate.tick >= s.next;
      forall i, j | 0 <= i < j < |r.summaries|
        ensures r.summaries[i].submittedDate.tick < r.summaries[j].submittedDate.tick
      {
        if j < last {
          assert r.summaries[i] == s.summaries[i] && r.summaries[j] == s.summaries[j];
        } else {
          assert r.summaries[i] == s.summaries[i];
        }
      }
    }
    if k > n + 1 {
      DropUserAscending(s.pending, u);
    }
  }

  /** After a successful submission a fresh load of `u`'s cart is empty, even
      for rows added after the snapshot was taken; other users' carts are
      unchanged. */
  lemma SubmitClearsCart(s: Store, u: string, items: seq<PendingRow>, batchId: string, now: string)
    ensures var s' := SubmitCart(s, u, items, batchId, now, None).store;
      && Cart(s', u) == []
      && (forall v :: v != u ==> Cart(s', v) == Cart(s, v))
  {
    var s' := SubmitCart(s, u, items, batchId, now, None).store;
    assert s'.pending == DropUser(s.pending, u);
    CartOfDropUser(s.pending, u, u);
    forall v | v != u
      ensures Cart(s', v) == Cart(s, v)
    {
      CartOfDropUser(s.pending, u, v);
    }
  }

  /** A failure at the final delete leaves the whole cart pending although
      its items are already in `submitted_items` under the new batch. */
  lemma FailedDeleteKeepsCart(s: Store, u: string, items: seq<PendingRow>, batchId: string, now: string, msg: string)
    ensures var r := SubmitCart(s, u, items, batchId, now, Some(Fault(|items| + 1, msg)));
      && r.outcome == Fail(SubmitErrorPrefix + msg)
      && Cart(r.store, u) == Cart(s, u)
      && BatchItems(r.store.submitted, batchId) == BatchItems(s.submitted, batchId) + ItemsOf(items)
  {
    var r := SubmitCart(s, u, items, batchId, now, Some(Fault(|items| + 1, msg)));
    var rows := r.store.submitted[|s.submitted|..];
    assert items[..|items|] == items;
    assert r.store.submitted == s.submitted + rows;
    BatchItemsAppend(s.submitted, rows, batchId);
    NewRowsBatchItems(rows, items, u, batchId);
  }

  /** The items of the new batch, read back by batch id, are the snapshot's items. */
  lemma {:induction false} NewRowsBatchItems(rows: seq<SubmittedRow>, items: seq<PendingRow>, u: string, batchId: string)
    requires CopiesItems(rows, items, u, batchId)
    ensures BatchItems(rows, batchId) == ItemsOf(items)
  {
    if |rows| > 0 {
      NewRowsBatchItems(rows[1..], items[1..], u, batchId);
      assert ItemsOf(items) == [items[0].item] + ItemsOf(items[1..]);
    }
  }

  /** The new rows carry only the new batch id, so other batches read the same. */
  lemma {:induction false} NewRowsOtherBatch(rows: seq<SubmittedRow>, items: seq<PendingRow>, u: string, batchId: string, other: string)
    requires CopiesItems(rows, items, u, batchId) && other != batchId
    ensures BatchItems(rows, other) == []
  {
    if |rows| > 0 {
      NewRowsOtherBatch(rows[1..], items[1..], u, batchId, other);
    }
  }

  // ---------------------------------------------------------------------
  // Summary / item consistency
  // ---------------------------------------------------------------------

  /** No row of either history table carries `batchId` yet. */
  predicate FreshBatch(s: Store, batchId: string) {
    && (forall i :: 0 <= i < |s.submitted| ==> s.submitted[i].batchId != batchId)
    && (forall i :: 0 <= i < |s.summaries| ==> s.summaries[i].batchId != batchId)
  }

  /** Every summary's count and total agree with the items stored under its
      batch id. */
  predicate SummariesConsistent(s: Store) {
    forall i :: 0 <= i < |s.summaries| ==>
      && s.summaries[i].itemCount == |BatchItems(s.submitted, s.summaries[i].batchId)|
      && s.summaries[i].totalAmount == SumPrices(BatchItems(s.submitted, s.summaries[i].batchId))
  }

  lemma {:induction false} BatchItemsFresh(rows: seq<SubmittedRow>, batchId: string)
    requires forall i :: 0 <= i < |rows| ==> rows[i].batchId != batchId
    ensures BatchItems(rows, batchId) == []
  {
    if |rows| > 0 {
      BatchItemsFresh(rows[1..], batchId);
    }
  }

  /** With a fresh batch id, a submission never makes a summary disagree with
      its items, whichever call fails: a failure can leave items without a
      summary, or a cart not cleared, but never a wrong count or total. */
  lemma SubmitPreservesConsistency(s: Store, u: string, items: seq<PendingRow>, batchId: string, now: string, fault: Option<Fault>)
    requires SummariesConsistent(s) && FreshBatch(s, batchId)
    ensures SummariesConsistent(SubmitCart(s, u, items, batchId, now, fault).store)
  {
    var r := SubmitCart(s, u, items, batchId, now, fault).store;
    var n := |items|;
    var m := Min(CallsDone(n, fault), n);
    var rows := r.submitted[|s.submitted|..];
    assert r.submitted == s.submitted + rows;
    forall i | 0 <= i < |r.summaries|
      ensures r.summaries[i].itemCount == |BatchItems(r.submitted, r.summaries[i].batchId)|
      ensures r.summaries[i].totalAmount == SumPrices(BatchItems(r.submitted, r.summaries[i].batchId))
    {
      var b := r.summaries[i].batchId;
      BatchItemsAppend(s.submitted, rows, b);
      if i < |s.summaries| {
        assert r.summaries[i] == s.summaries[i];
        NewRowsOtherBatch(rows, items[..m], u, batchId, b);
        assert BatchItems(r.submitted, b) == BatchItems(s.submitted, b);
      } else {
        assert m == n && items[..m] == items;
        BatchItemsFresh(s.submitted, batchId);
        NewRowsBatchItems(rows, items, u, batchId);
        SumTotalsIsSumPrices(items);
        assert b == batchId;
        assert BatchItems(r.submitted, b) == ItemsOf(items);
      }
    }
  }
}
