/** `get_submission_history` and `get_all_submission_history`: each summary
    row, newest first by `submitted_date`, joined to the items stored under
    its batch id. */
module History {
  import opened Basics
  import opened Tables
  import opened Submission

  const HistoryErrorPrefix: string := "내역 조회 오류: "
  const AllHistoryErrorPrefix: string := "전체 내역 조회 오류: "

  /** One history entry: a summary's fields plus its batch's six-field items. */
  datatype Entry = Entry(submittedDate: Stamp, itemCount: int, totalAmount: int, batchId: string, items: seq<Item>)

  /** An entry of the administrator's history, tagged with its owner. */
  datatype AdminEntry = AdminEntry(username: string, entry: Entry)

  function EntryOf(s: Store, sm: SummaryRow): Entry {
    Entry(sm.submittedDate, sm.itemCount, sm.totalAmount, sm.batchId, BatchItems(s.submitted, sm.batchId))
  }

  /** Entries for `sums` listed from the last stored to the first, which is
      newest first because summaries are stored in time order. */
  function NewestFirst(s: Store, sums: seq<SummaryRow>): (r: seq<Entry>)
    ensures |r| == |sums|
    ensures forall i :: 0 <= i < |r| ==> r[i] == EntryOf(s, sums[|sums| - 1 - i])
  {
    if |sums| == 0 then [] else [EntryOf(s, sums[|sums| - 1])] + NewestFirst(s, sums[..|sums| - 1])
  }

  function AdminNewestFirst(s: Store, sums: seq<SummaryRow>): (r: seq<AdminEntry>)
    ensures |r| == |sums|
    ensures forall i :: 0 <= i < |r| ==> r[i] == AdminEntry(sums[|sums| - 1 - i].username, EntryOf(s, sums[|sums| - 1 - i]))
  {
    if |sums| == 0 then []
    else
      var last := sums[|sums| - 1];
      [AdminEntry(last.username, EntryOf(s, last))] + AdminNewestFirst(s, sums[..|sums| - 1])
  }

  /** `get_submission_history(u)`. */
  function GetSubmissionHistory(s: Store, u: string, fault: Option<string>): (r: Read<seq<Entry>>)
    ensures fault.Some? ==> r.rows == [] && r.warning == Some(HistoryErrorPrefix + fault.value)
    ensures fault.None? ==> r.warning == None && |r.rows| == |SummariesOf(s.summaries, u)|
  {
    match fault
    case Some(e) => Read([], Some(HistoryErrorPrefix + e))
    case None => Read(NewestFirst(s, SummariesOf(s.summaries, u)), None)
  }

  /** `get_all_submission_history()`. */
  function GetAllSubmissionHistory(s: Store, fault: Option<string>): (r: Read<seq<AdminEntry>>)
    ensures fault.Some? ==> r.rows == [] && r.warning == Some(AllHistoryErrorPrefix + fault.value)
    ensures fault.None? ==> r.warning == None && |r.rows| == |s.summaries|
  {
    match fault
    case Some(e) => Read([], Some(AllHistoryErrorPrefix + e))
    case None => Read(AdminNewestFirst(s, s.summaries), None)
  }

  // ---------------------------------------------------------------------
  // Properties
  // ---------------------------------------------------------------------

  /** Strictly newest first by `submitted_date`. */
  predicate Descending(es: seq<Entry>) {
    forall i, j :: 0 <= i < j < |es| ==> es[i].submittedDate.tick > es[j].submittedDate.tick
  }

  /** A user's history holds one entry per summary row of that user and no
      other, newest first, each with exactly the items stored under its
      batch id. */
  lemma HistoryIsUsersSummaries(s: Store, u: string)
    requires Valid(s)
    ensures var h := GetSubmissionHistory(s, u, None).rows;
      && Descending(h)
      && (forall sm :: sm in s.summaries && sm.username == u ==> EntryOf(s, sm) in h)
      && (forall i :: 0 <= i < |h| ==> exists sm :: sm in s.summaries && sm.username == u && h[i] == EntryOf(s, sm))
      && (forall i :: 0 <= i < |h| ==> h[i].items == BatchItems(s.submitted, h[i].batchId))
  {
    var sums := SummariesOf(s.summaries, u);
    var h := GetSubmissionHistory(s, u, None).rows;
    SummariesOfAscending(s.summaries, u);
    forall sm | sm in s.summaries && sm.username == u
      ensures EntryOf(s, sm) in h
    {
      var k := IndexOf(sums, sm);
      assert h[|sums| - 1 - k] == EntryOf(s, sm);
    }
    forall i | 0 <= i < |h|
      ensures exists sm :: sm in s.summaries && sm.username == u && h[i] == EntryOf(s, sm)
    {
      var sm := sums[|sums| - 1 - i];
      assert sm in sums;
    }
  }

  /** The administrator's history restricted to one owner, with the tags
      dropped, is that owner's history. */
  function ForUser(es: seq<AdminEntry>, u: string): seq<Entry> {
    if |es| == 0 then []
    else if es[0].username == u then [es[0].entry] + ForUser(es[1..], u)
    else ForUser(es[1..], u)
  }

  lemma {:induction false} ForUserAppend(a: seq<AdminEntry>, b: seq<AdminEntry>, u: string)
    ensures ForUser(a + b, u) == ForUser(a, u) + ForUser(b, u)
  {
    if |a| == 0 {
      assert a + b == b;
    } else {
      assert (a + b)[1..] == a[1..] + b;
      ForUserAppend(a[1..], b, u);
    }
  }

  lemma {:induction false} AdminRestricts(s: Store, sums: seq<SummaryRow>, u: string)
    ensures ForUser(AdminNewestFirst(s, sums), u) == NewestFirst(s, SummariesOf(sums, u))
  {
    if |sums| > 0 {
      var init, last := sums[..|sums| - 1], sums[|sums| - 1];
      var head := [AdminEntry(last.username, EntryOf(s, last))];
      AdminRestricts(s, init, u);
      assert AdminNewestFirst(s, sums) == head + AdminNewestFirst(s, init);
      ForUserAppend(head, AdminNewestFirst(s, init), u);
      NewestFirstLast(s, sums, u);
    }
  }

  /** The last summary, when it is `u`'s, heads `u`'s newest-first listing. */
  lemma NewestFirstLast(s: Store, sums: seq<SummaryRow>, u: string)
    requires |sums| > 0
    ensures var init, last := sums[..|sums| - 1], sums[|sums| - 1];
      NewestFirst(s, SummariesOf(sums, u))
        == (if last.username == u then [EntryOf(s, last)] else []) + NewestFirst(s, SummariesOf(init, u))
  {
    var init, last := sums[..|sums| - 1], sums[|sums| - 1];
    assert sums == init + [last];
    SummariesOfAppend(init, [last], u);
    var su := SummariesOf(sums, u);
    if last.username == u {
      assert su == SummariesOf(init, u) + [last];
      assert su[..|su| - 1] == SummariesOf(init, u);
    } else {
      assert su == SummariesOf(init, u);
    }
  }

  /** `get_all_submission_history` is `get_submission_history` over every
      user: each entry is tagged with the summary's owner, and keeping one
      owner's entries gives exactly that owner's history, in the same order. */
  lemma AllHistoryIsEveryUsersHistory(s: Store, u: string)
    ensures ForUser(GetAllSubmissionHistory(s, None).rows, u) == GetSubmissionHistory(s, u, None).rows
    ensures forall i :: 0 <= i < |GetAllSubmissionHistory(s, None).rows| ==>
      var e := GetAllSubmissionHistory(s, None).rows[i];
      exists sm :: sm in s.summaries && e.username == sm.username && e.entry == EntryOf(s, sm)
  {
    AdminRestricts(s, s.summaries, u);
    var all := GetAllSubmissionHistory(s, None).rows;
    forall i | 0 <= i < |all|
      ensures exists sm :: sm in s.summaries && all[i].username == sm.username && all[i].entry == EntryOf(s, sm)
    {
      var sm := s.summaries[|s.summaries| - 1 - i];
      assert sm in s.summaries;
    }
  }

  /** The administrator's history is strictly newest first across all users,
      so positions in it follow `submitted_date` descending. */
  lemma AllHistoryNewestFirst(s: Store)
    requires Valid(s)
    ensures var h := GetAllSubmissionHistory(s, None).rows;
      forall i, j :: 0 <= i < j < |h| ==> h[i].entry.submittedDate.tick > h[j].entry.submittedDate.tick
  {
    var h := GetAllSubmissionHistory(s, None).rows;
    var n := |s.summaries|;
    forall i, j | 0 <= i < j < |h|
      ensures h[i].entry.submittedDate.tick > h[j].entry.submittedDate.tick
    {
      assert h[i].entry == EntryOf(s, s.summaries[n - 1 - i]);
      assert h[j].entry == EntryOf(s, s.summaries[n - 1 - j]);
    }
  }

  // ---------------------------------------------------------------------
  // End to end: submit, then read the history back
  // ---------------------------------------------------------------------

  /** Entries are unchanged when their batches read the same in a new store. */
  lemma {:induction false} NewestFirstStable(s: Store, s': Store, sums: seq<SummaryRow>)
    requires forall i :: 0 <= i < |sums| ==> BatchItems(s'.submitted, sums[i].batchId) == BatchItems(s.submitted, sums[i].batchId)
    ensures NewestFirst(s', sums) == NewestFirst(s, sums)
  {
    if |sums| > 0 {
      NewestFirstStable(s, s', sums[..|sums| - 1]);
    }
  }

  /** A successful submission with a fresh batch id puts exactly one new entry
      at the head of the user's history: its count is the snapshot's length,
      its total the snapshot's sum, its items the snapshot's items in order;
      the older entries read exactly as before. */
  lemma SubmitThenHistory(s: Store, u: string, items: seq<PendingRow>, batchId: string, now: string)
    requires FreshBatch(s, batchId)
    ensures var h := GetSubmissionHistory(SubmitCart(s, u, items, batchId, now, None).store, u, None).rows;
      && |h| == |GetSubmissionHistory(s, u, None).rows| + 1
      && h[0].batchId == batchId
      && h[0].itemCount == |items|
      && h[0].totalAmount == SumTotals(items)
      && h[0].items == ItemsOf(items)
      && h[1..] == GetSubmissionHistory(s, u, None).rows
  {
    var s' := SubmitCart(s, u, items, batchId, now, None).store;
    var sm := s'.summaries[|s.summaries|];
    var rows := s'.submitted[|s.submitted|..];
    assert items[..|items|] == items;
    assert s'.summaries == s.summaries + [sm];
    assert s'.submitted == s.submitted + rows;
    SummariesOfAppend(s.summaries, [sm], u);
    var before := SummariesOf(s.summaries, u);
    var after := SummariesOf(s'.summaries, u);
    assert after == before + [sm];
    assert after[..|after| - 1] == before;
    BatchItemsAppend(s.submitted, rows, batchId);
    BatchItemsFresh(s.submitted, batchId);
    NewRowsBatchItems(rows, items, u, batchId);
    forall i | 0 <= i < |before|
      ensures BatchItems(s'.submitted, before[i].batchId) == BatchItems(s.submitted, before[i].batchId)
    {
      assert before[i] in s.summaries;
      BatchItemsAppend(s.submitted, rows, before[i].batchId);
      NewRowsOtherBatch(rows, items, u, batchId, before[i].batchId);
    }
    NewestFirstStable(s, s', before);
  }
}
