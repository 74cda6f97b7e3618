/** The three tables the application keeps in its hosted store, held here as
    sequences in insertion order, and the user filters over them.

    One counter, `next`, stands for both the store's row ids and its
    `DEFAULT NOW()` timestamps: every inserted row takes the current value as
    its id and as the tick of its timestamp, and the counter moves on. So
    "ordered by time" is "ordered by insertion". */
module Tables {
  import opened Basics

  /** The six item columns shared by `pending_cart` and `submitted_items`,
      which is also the projection the history pages read back. */
  datatype Item = Item(
    itemName: string,
    purchaseLink: string,
    optionName: Option<string>,
    quantity: int,
    unitPrice: int,
    totalPrice: int)

  /** A store timestamp: `tick` orders it, `text` is how the store renders it. */
  datatype Stamp = Stamp(tick: nat, text: string)

  /** A row of `pending_cart`. */
  datatype PendingRow = PendingRow(id: nat, username: string, item: Item, addedDate: nat)

  /** A row of `submitted_items`. */
  datatype SubmittedRow = SubmittedRow(
    id: nat,
    username: string,
    item: Item,
    batchId: string,
    status: string,
    submittedDate: Stamp)

  /** A row of `submission_summary`. */
  datatype SummaryRow = SummaryRow(
    id: nat,
    username: string,
    itemCount: int,
    totalAmount: int,
    batchId: string,
    submittedDate: Stamp)

  /** The store. `defaultStatus` is the schema's default for
      `submitted_items.status`, which the application never writes. */
  datatype Store = Store(
    pending: seq<PendingRow>,
    submitted: seq<SubmittedRow>,
    summaries: seq<SummaryRow>,
    next: nat,
    defaultStatus: string)

  /** Pending rows strictly ascending by `added_date` (so no two share one). */
  predicate Ascending(rows: seq<PendingRow>) {
    forall i, j :: 0 <= i < j < |rows| ==> rows[i].addedDate < rows[j].addedDate
  }

  /** Pending rows strictly ascending by id (so ids are unique). */
  predicate IdsAscending(rows: seq<PendingRow>) {
    forall i, j :: 0 <= i < j < |rows| ==> rows[i].id < rows[j].id
  }

  /** Summary rows strictly ascending by `submitted_date`. */
  predicate SummariesAscending(rows: seq<SummaryRow>) {
    forall i, j :: 0 <= i < j < |rows| ==> rows[i].submittedDate.tick < rows[j].submittedDate.tick
  }

  /** What the counter discipline guarantees about a store built by the
      operations of this model. */
  predicate Valid(s: Store) {
    && Ascending(s.pending)
    && IdsAscending(s.pending)
    && (forall i :: 0 <= i < |s.pending| ==> s.pending[i].id < s.next && s.pending[i].addedDate < s.next)
    && SummariesAscending(s.summaries)
    && (forall i :: 0 <= i < |s.summaries| ==> s.summaries[i].submittedDate.tick < s.next)
  }

  /** A write operation's effect: the store after it and what it returned. */
  datatype Applied = Applied(store: Store, outcome: Outcome)

  /** The sum of `total_price` over a sequence of cart rows. */
  function SumTotals(rows: seq<PendingRow>): int
  {
    if |rows| == 0 then 0 else rows[0].item.totalPrice + SumTotals(rows[1..])
  }

  /** Summing works piecewise over a concatenation. */
  lemma {:induction false} SumTotalsAppend(a: seq<PendingRow>, b: seq<PendingRow>)
    ensures SumTotals(a + b) == SumTotals(a) + SumTotals(b)
  {
    if |a| == 0 {
      assert a + b == b;
    } else {
      assert (a + b)[1..] == a[1..] + b;
      SumTotalsAppend(a[1..], b);
    }
  }

  /** The item columns of a sequence of cart rows. */
  function ItemsOf(rows: seq<PendingRow>): (r: seq<Item>)
    ensures |r| == |rows|
    ensures forall j :: 0 <= j < |rows| ==> r[j] == rows[j].item
  {
    seq(|rows|, j requires 0 <= j < |rows| => rows[j].item)
  }

  /** The sum of `total_price` over a sequence of items. */
  function SumPrices(items: seq<Item>): int
  {
    if |items| == 0 then 0 else items[0].totalPrice + SumPrices(items[1..])
  }

  /** Summing rows and summing their items agree. */
  lemma {:induction false} SumTotalsIsSumPrices(rows: seq<PendingRow>)
    ensures SumTotals(rows) == SumPrices(ItemsOf(rows))
  {
    if |rows| > 0 {
      SumTotalsIsSumPrices(rows[1..]);
      assert ItemsOf(rows)[1..] == ItemsOf(rows[1..]);
    }
  }

  // ---------------------------------------------------------------------
  // Filters
  // ---------------------------------------------------------------------

  /** The pending rows owned by `u`, in stored order. */
  function CartOf(rows: seq<PendingRow>, u: string): (r: seq<PendingRow>)
    ensures forall x :: x in r <==> x in rows && x.username == u
    ensures |r| <= |rows|
    ensures forall i :: 0 <= i < |r| ==> r[i].username == u
  {
    if |rows| == 0 then []
    else if rows[0].username == u then [rows[0]] + CartOf(rows[1..], u)
    else CartOf(rows[1..], u)
  }

  /** The pending rows NOT owned by `u`: what a delete by username keeps. */
  function DropUser(rows: seq<PendingRow>, u: string): (r: seq<PendingRow>)
    ensures forall x :: x in r <==> x in rows && x.username != u
    ensures |r| <= |rows|
  {
    if |rows| == 0 then []
    else if rows[0].username == u then DropUser(rows[1..], u)
    else [rows[0]] + DropUser(rows[1..], u)
  }

  /** The pending rows whose id is not `id`: what a delete by id keeps. */
  function DropId(rows: seq<PendingRow>, id: nat): (r: seq<PendingRow>)
    ensures forall x :: x in r <==> x in rows && x.id != id
    ensures |r| <= |rows|
  {
    if |rows| == 0 then []
    else if rows[0].id == id then DropId(rows[1..], id)
    else [rows[0]] + DropId(rows[1..], id)
  }

  /** The summary rows owned by `u`, in stored order. */
  function SummariesOf(rows: seq<SummaryRow>, u: string): (r: seq<SummaryRow>)
    ensures forall x :: x in r <==> x in rows && x.username == u
    ensures |r| <= |rows|
  {
    if |rows| == 0 then []
    else if rows[0].username == u then [rows[0]] + SummariesOf(rows[1..], u)
    else SummariesOf(rows[1..], u)
  }

  /** The items of the submitted rows carrying `batchId`, in stored order. */
  function BatchItems(rows: seq<SubmittedRow>, batchId: string): (r: seq<Item>)
    ensures forall it :: it in r <==> exists x :: x in rows && x.batchId == batchId && x.item == it
    ensures |r| <= |rows|
  {
    if |rows| == 0 then []
    else if rows[0].batchId == batchId then [rows[0].item] + BatchItems(rows[1..], batchId)
    else BatchItems(rows[1..], batchId)
  }

  // ---------------------------------------------------------------------
  // Facts about the filters
  // ---------------------------------------------------------------------

  lemma {:induction false} CartOfAppend(a: seq<PendingRow>, b: seq<PendingRow>, u: string)
    ensures CartOf(a + b, u) == CartOf(a, u) + CartOf(b, u)
  {
    if |a| == 0 {
      assert a + b == b;
    } else {
      assert (a + b)[1..] == a[1..] + b;
      CartOfAppend(a[1..], b, u);
    }
  }

  lemma {:induction false} SummariesOfAppend(a: seq<SummaryRow>, b: seq<SummaryRow>, u: string)
    ensures SummariesOf(a + b, u) == SummariesOf(a, u) + SummariesOf(b, u)
  {
    if |a| == 0 {
      assert a + b == b;
    } else {
      assert (a + b)[1..] == a[1..] + b;
      SummariesOfAppend(a[1..], b, u);
    }
  }

  lemma {:induction false} BatchItemsAppend(a: seq<SubmittedRow>, b: seq<SubmittedRow>, batchId: string)
    ensures BatchItems(a + b, batchId) == BatchItems(a, batchId) + BatchItems(b, batchId)
  {
    if |a| == 0 {
      assert a + b == b;
    } else {
      assert (a + b)[1..] == a[1..] + b;
      BatchItemsAppend(a[1..], b, batchId);
    }
  }

  /** Filtering keeps the order: a user's cart taken from a table that is
      ascending by `added_date` is itself ascending, and likewise by id. */
  lemma {:induction false} CartOfAscending(rows: seq<PendingRow>, u: string)
    requires Ascending(rows) && IdsAscending(rows)
    ensures Ascending(CartOf(rows, u)) && IdsAscending(CartOf(rows, u))
  {
    if |rows| > 0 {
      CartOfAscending(rows[1..], u);
      var r := CartOf(rows, u);
      if rows[0].username == u {
        forall j | 0 < j < |r|
          ensures r[0].addedDate < r[j].addedDate && r[0].id < r[j].id
        {
          assert r[j] in CartOf(rows[1..], u);
        }
      }
    }
  }

  /** Two rows with the same id in a table with ascending ids are the same row. */
  lemma IdsAscendingUnique(rows: seq<PendingRow>, x: PendingRow, y: PendingRow)
    requires IdsAscending(rows) && x in rows && y in rows && x.id == y.id
    ensures x == y
  {
  }

  /** A delete by username and a filter by another username commute with
      each other in the way the submission relies on. */
  lemma {:induction false} CartOfDropUser(rows: seq<PendingRow>, u: string, v: string)
    ensures CartOf(DropUser(rows, u), v) == if u == v then [] else CartOf(rows, v)
  {
    if |rows| > 0 {
      CartOfDropUser(rows[1..], u, v);
    }
  }

  /** Deleting one id and then filtering by user is filtering first. */
  lemma {:induction false} CartOfDropId(rows: seq<PendingRow>, u: string, id: nat)
    ensures CartOf(DropId(rows, id), u) == DropId(CartOf(rows, u), id)
  {
    if |rows| > 0 {
      CartOfDropId(rows[1..], u, id);
    }
  }

  lemma {:induction false} DropIdAppend(a: seq<PendingRow>, b: seq<PendingRow>, id: nat)
    ensures DropId(a + b, id) == DropId(a, id) + DropId(b, id)
  {
    if |a| == 0 {
      assert a + b == b;
    } else {
      assert (a + b)[1..] == a[1..] + b;
      DropIdAppend(a[1..], b, id);
    }
  }

  /** Deleting by id a row that occurs at position `i` of an id-ascending
      sequence removes exactly that position. */
  lemma DropIdAt(rows: seq<PendingRow>, i: nat)
    requires IdsAscending(rows) && i < |rows|
    ensures DropId(rows, rows[i].id) == rows[..i] + rows[i + 1..]
  {
    var id := rows[i].id;
    var front, back := rows[..i], rows[i + 1..];
    var mid := front + [rows[i]];
    assert rows == mid + back;
    DropIdAround(rows, i);
    DropIdAppend(front, [rows[i]], id);
    assert DropId(mid, id) == front;
    DropIdAppend(mid, back, id);
  }

  lemma DropIdAround(rows: seq<PendingRow>, i: nat)
    requires IdsAscending(rows) && i < |rows|
    ensures DropId(rows[..i], rows[i].id) == rows[..i]
    ensures DropId(rows[i + 1..], rows[i].id) == rows[i + 1..]
    ensures DropId([rows[i]], rows[i].id) == []
  {
    var id := rows[i].id;
    var front, back := rows[..i], rows[i + 1..];
    forall k | 0 <= k < |front|
      ensures front[k].id != id
    {
      assert front[k] == rows[k];
    }
    forall k | 0 <= k < |back|
      ensures back[k].id != id
    {
      assert back[k] == rows[i + 1 + k];
    }
    DropIdAbsent(front, id);
    DropIdAbsent(back, id);
  }

  lemma {:induction false} DropIdAbsent(rows: seq<PendingRow>, id: nat)
    requires forall k :: 0 <= k < |rows| ==> rows[k].id != id
    ensures DropId(rows, id) == rows
  {
    if |rows| > 0 {
      DropIdAbsent(rows[1..], id);
    }
  }

  /** Sub-sequences of an ascending table keep both orders. */
  lemma AscendingSlices(rows: seq<PendingRow>, i: nat)
    requires Ascending(rows) && IdsAscending(rows) && i < |rows|
    ensures Ascending(rows[..i] + rows[i + 1..]) && IdsAscending(rows[..i] + rows[i + 1..])
  {
    var r := rows[..i] + rows[i + 1..];
    forall a, b | 0 <= a < b < |r|
      ensures r[a].addedDate < r[b].addedDate && r[a].id < r[b].id
    {
      var a' := if a < i then a else a + 1;
      var b' := if b < i then b else b + 1;
      assert r[a] == rows[a'] && r[b] == rows[b'];
    }
  }

  /** Deleting rows by username keeps both orders of the table. */
  lemma {:induction false} DropUserAscending(rows: seq<PendingRow>, u: string)
    requires Ascending(rows) && IdsAscending(rows)
    ensures Ascending(DropUser(rows, u)) && IdsAscending(DropUser(rows, u))
  {
    if |rows| > 0 {
      DropUserAscending(rows[1..], u);
      var r := DropUser(rows, u);
      if rows[0].username != u {
        forall j | 0 < j < |r|
          ensures r[0].addedDate < r[j].addedDate && r[0].id < r[j].id
        {
          assert r[j] in DropUser(rows[1..], u);
        }
      }
    }
  }

  /** Summaries filtered by user stay ascending by `submitted_date`. */
  lemma {:induction false} SummariesOfAscending(rows: seq<SummaryRow>, u: string)
    requires SummariesAscending(rows)
    ensures SummariesAscending(SummariesOf(rows, u))
  {
    if |rows| > 0 {
      SummariesOfAscending(rows[1..], u);
      var r := SummariesOf(rows, u);
      if rows[0].username == u {
        forall j | 0 < j < |r|
          ensures r[0].submittedDate.tick < r[j].submittedDate.tick
        {
          assert r[j] in SummariesOf(rows[1..], u);
        }
      }
    }
  }

  function IndexOf<T(==)>(xs: seq<T>, x: T): (i: nat)
    requires x in xs
    ensures i < |xs| && xs[i] == x
  {
    if xs[0] == x then 0 else 1 + IndexOf(xs[1..], x)
  }

  /** The strict order makes an ascending listing unique: two ascending
      sequences with the same members are equal. */
  lemma {:induction false} AscendingUnique(a: seq<PendingRow>, b: seq<PendingRow>)
    requires Ascending(a) && Ascending(b)
    requires forall x :: x in a <==> x in b
    ensures a == b
  {
    assert |b| == 0 || b[0] in b;
    if |a| > 0 {
      assert a[0] in b;
      assert |b| > 0;
      assert b[0] in a;
      var i := IndexOf(b, a[0]);
      var j := IndexOf(a, b[0]);
      assert i == 0;
      assert a[0] == b[0];
      forall x
        ensures x in a[1..] <==> x in b[1..]
      {
        if x in a[1..] {
          var k :| 1 <= k < |a| && a[k] == x;
          assert x != a[0];
          assert x in b;
          assert x in b[1..] by {
            var m :| 0 <= m < |b| && b[m] == x;
            assert m != 0;
            assert b[1..][m - 1] == x;
          }
        }
        if x in b[1..] {
          var k :| 1 <= k < |b| && b[k] == x;
          assert x != b[0];
          assert x in a;
          assert x in a[1..] by {
            var m :| 0 <= m < |a| && a[m] == x;
            assert m != 0;
            assert a[1..][m - 1] == x;
          }
        }
      }
      AscendingUnique(a[1..], b[1..]);
      assert a == [a[0]] + a[1..] && b == [b[0]] + b[1..];
    }
  }
}
