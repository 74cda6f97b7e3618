/** The pending-cart operations of the data-access layer: load a user's cart,
    add one row, remove the row at a position of the freshly read cart; and,
    from the request page, the displayed count and total and the "delete all"
    button built from repeated removals. */
module CartOps {
  import opened Basics
  import opened Tables

  const LoadErrorPrefix: string := "장바구니 불러오기 오류: "
  const AddErrorPrefix: string := "장바구니 추가 오류: "
  const RemoveErrorPrefix: string := "삭제 오류: "

  /** A fresh read of `u`'s cart. */
  function Cart(s: Store, u: string): seq<PendingRow> {
    CartOf(s.pending, u)
  }

  // ---------------------------------------------------------------------
  // load_pending_cart
  // ---------------------------------------------------------------------

  /** `load_pending_cart(u)`: the rows of `pending_cart` owned by `u`, ordered
      by `added_date` ascending; a backend error yields `[]` and a warning. */
  function LoadPendingCart(s: Store, u: string, fault: Option<string>): (r: Read<seq<PendingRow>>)
    ensures fault.Some? ==> r.rows == [] && r.warning == Some(LoadErrorPrefix + fault.value)
    ensures fault.None? ==> r.warning == None
    ensures fault.None? ==> forall x :: x in r.rows <==> x in s.pending && x.username == u
  {
    match fault
    case Some(e) => Read([], Some(LoadErrorPrefix + e))
    case None => Read(Cart(s, u), None)
  }

  /** The loaded cart is THE listing of `u`'s rows by ascending `added_date`:
      it holds exactly those rows, is strictly ascending, and any other
      strictly ascending listing of the same rows is equal to it. */
  lemma LoadIsAscendingListing(s: Store, u: string, other: seq<PendingRow>)
    requires Valid(s)
    ensures Ascending(LoadPendingCart(s, u, None).rows)
    ensures Ascending(other) && (forall x :: x in other <==> x in s.pending && x.username == u)
            ==> other == LoadPendingCart(s, u, None).rows
  {
    CartOfAscending(s.pending, u);
    if Ascending(other) && (forall x :: x in other <==> x in s.pending && x.username == u) {
      AscendingUnique(other, Cart(s, u));
    }
  }

  // ---------------------------------------------------------------------
  // add_to_pending_cart
  // ---------------------------------------------------------------------

  /** `add_to_pending_cart(...)`: inserts one row with the given fields as
      passed (`total_price` is stored, not recomputed); the store assigns its
      id and `added_date`. */
  function AddToPendingCart(
    s: Store, u: string, itemName: string, purchaseLink: string, optionName: Option<string>,
    quantity: int, unitPrice: int, totalPrice: int, fault: Option<string>): (r: Applied)
    ensures fault.Some? ==> r.store == s && r.outcome == Fail(AddErrorPrefix + fault.value)
    ensures fault.None? ==> r.outcome == Pass
    ensures fault.None? ==> |r.store.pending| == |s.pending| + 1 && r.store.pending[..|s.pending|] == s.pending
    ensures fault.None? ==>
      var row := r.store.pending[|s.pending|];
      row.username == u && row.item == Item(itemName, purchaseLink, optionName, quantity, unitPrice, totalPrice)
    ensures r.store.submitted == s.submitted && r.store.summaries == s.summaries
    ensures r.store.defaultStatus == s.defaultStatus
  {
    match fault
    case Some(e) => Applied(s, Fail(AddErrorPrefix + e))
    case None =>
      var row := PendingRow(s.next, u, Item(itemName, purchaseLink, optionName, quantity, unitPrice, totalPrice), s.next);
      Applied(s.(pending := s.pending + [row], next := s.next + 1), Pass)
  }

  /** After a successful add, a fresh load of `u`'s cart is the old cart with
      the new row last; the new row was not there before, so it appears
      exactly once; other users' carts are unchanged; the store stays valid. */
  lemma AddThenLoad(
    s: Store, u: string, itemName: string, purchaseLink: string, optionName: Option<string>,
    quantity: int, unitPrice: int, totalPrice: int)
    requires Valid(s)
    ensures var s' := AddToPendingCart(s, u, itemName, purchaseLink, optionName, quantity, unitPrice, totalPrice, None).store;
      && Valid(s')
      && |Cart(s', u)| == |Cart(s, u)| + 1
      && Cart(s', u)[..|Cart(s, u)|] == Cart(s, u)
      && Cart(s', u)[|Cart(s, u)|].item == Item(itemName, purchaseLink, optionName, quantity, unitPrice, totalPrice)
      && Cart(s', u)[|Cart(s, u)|] !in Cart(s, u)
      && (forall v :: v != u ==> Cart(s', v) == Cart(s, v))
  {
    var s' := AddToPendingCart(s, u, itemName, purchaseLink, optionName, quantity, unitPrice, totalPrice, None).store;
    var row := s'.pending[|s.pending|];
    assert s'.pending == s.pending + [row];
    CartOfAppend(s.pending, [row], u);
    forall v | v != u
      ensures Cart(s', v) == Cart(s, v)
    {
      CartOfAppend(s.pending, [row], v);
    }
    assert row !in s.pending;
  }

  // ---------------------------------------------------------------------
  // remove_from_pending_cart
  // ---------------------------------------------------------------------

  /** `remove_from_pending_cart(u, i)`: re-reads `u`'s cart in `added_date`
      order and, when it has more than `i` rows, deletes by id the row at
      position `i`; an index past the end deletes nothing and still succeeds. */
  function RemoveFromPendingCart(s: Store, u: string, i: nat, fault: Option<string>): (r: Applied)
    ensures fault.Some? ==> r.store == s && r.outcome == Fail(RemoveErrorPrefix + fault.value)
    ensures fault.None? ==> r.outcome == Pass
    ensures fault.None? && i >= |Cart(s, u)| ==> r.store == s
    ensures fault.None? && i < |Cart(s, u)| ==>
      forall x :: x in r.store.pending <==> x in s.pending && x.id != Cart(s, u)[i].id
    ensures r.store.submitted == s.submitted && r.store.summaries == s.summaries
    ensures r.store.next == s.next && r.store.defaultStatus == s.defaultStatus
  {
    match fault
    case Some(e) => Applied(s, Fail(RemoveErrorPrefix + e))
    case None =>
      var ordered := Cart(s, u);
      if |ordered| > i then
        Applied(s.(pending := DropId(s.pending, ordered[i].id)), Pass)
      else
        Applied(s, Pass)
  }

  /** Removing an in-range position deletes exactly the `i`-th row of `u`'s
      ordered cart: the rest of `u`'s rows keep their order, other users'
      carts are untouched, exactly that one row leaves the table, and the
      store stays valid. */
  lemma RemoveAt(s: Store, u: string, i: nat)
    requires Valid(s) && i < |Cart(s, u)|
    ensures var s' := RemoveFromPendingCart(s, u, i, None).store;
      && Valid(s')
      && Cart(s', u) == Cart(s, u)[..i] + Cart(s, u)[i + 1..]
      && (forall v :: v != u ==> Cart(s', v) == Cart(s, v))
      && multiset(s'.pending) + multiset{Cart(s, u)[i]} == multiset(s.pending)
  {
    RemoveAtValid(s, u, i);
    RemoveAtMultiset(s, u, i);
    RemoveAtOwnCart(s, u, i);
    var s' := RemoveFromPendingCart(s, u, i, None).store;
    forall v | v != u
      ensures Cart(s', v) == Cart(s, v)
    {
      RemoveAtOtherCart(s, u, i, v);
    }
  }

  /** The removal splices out the one table position holding the row. */
  lemma RemoveAtSplice(s: Store, u: string, i: nat) returns (p: nat)
    requires Valid(s) && i < |Cart(s, u)|
    ensures p < |s.pending| && s.pending[p] == Cart(s, u)[i]
    ensures RemoveFromPendingCart(s, u, i, None).store == s.(pending := s.pending[..p] + s.pending[p + 1..])
  {
    var row := Cart(s, u)[i];
    assert row in s.pending;
    p := IndexOf(s.pending, row);
    DropIdAt(s.pending, p);
  }

  /** The table keeps its orders and its counter bound. */
  lemma RemoveAtValid(s: Store, u: string, i: nat)
    requires Valid(s) && i < |Cart(s, u)|
    ensures Valid(RemoveFromPendingCart(s, u, i, None).store)
  {
    var p := RemoveAtSplice(s, u, i);
    AscendingSlices(s.pending, p);
    RemoveOneBelowNext(s, p);
  }

  /** The table loses exactly the one row. */
  lemma RemoveAtMultiset(s: Store, u: string, i: nat)
    requires Valid(s) && i < |Cart(s, u)|
    ensures multiset(RemoveFromPendingCart(s, u, i, None).store.pending) + multiset{Cart(s, u)[i]} == multiset(s.pending)
  {
    var p := RemoveAtSplice(s, u, i);
    RemoveOneMultiset(s.pending, p);
  }

  lemma RemoveOneBelowNext(s: Store, p: nat)
    requires Valid(s) && p < |s.pending|
    ensures var rest := s.pending[..p] + s.pending[p + 1..];
      forall k :: 0 <= k < |rest| ==> rest[k].id < s.next && rest[k].addedDate < s.next
  {
    var rest := s.pending[..p] + s.pending[p + 1..];
    forall k | 0 <= k < |rest|
      ensures rest[k].id < s.next && rest[k].addedDate < s.next
    {
      if k < p {
        assert rest[k] == s.pending[k];
      } else {
        assert rest[k] == s.pending[k + 1];
      }
    }
  }

  lemma RemoveOneMultiset<T>(rows: seq<T>, p: nat)
    requires p < |rows|
    ensures multiset(rows[..p] + rows[p + 1..]) + multiset{rows[p]} == multiset(rows)
  {
    assert rows == rows[..p] + [rows[p]] + rows[p + 1..];
  }

  lemma RemoveAtOwnCart(s: Store, u: string, i: nat)
    requires Valid(s) && i < |Cart(s, u)|
    ensures Cart(RemoveFromPendingCart(s, u, i, None).store, u) == Cart(s, u)[..i] + Cart(s, u)[i + 1..]
  {
    var c := Cart(s, u);
    CartOfAscending(s.pending, u);
    CartOfDropId(s.pending, u, c[i].id);
    DropIdAt(c, i);
  }

  lemma RemoveAtOtherCart(s: Store, u: string, i: nat, v: string)
    requires Valid(s) && i < |Cart(s, u)| && v != u
    ensures Cart(RemoveFromPendingCart(s, u, i, None).store, v) == Cart(s, v)
  {
    var row := Cart(s, u)[i];
    CartOfDropId(s.pending, v, row.id);
    forall k | 0 <= k < |Cart(s, v)|
      ensures Cart(s, v)[k].id != row.id
    {
      var x := Cart(s, v)[k];
      assert x in s.pending && x.username == v;
      assert row in s.pending && row.username == u;
      if x.id == row.id {
        IdsAscendingUnique(s.pending, x, row);
      }
    }
    DropIdAbsent(Cart(s, v), row.id);
  }

  // ---------------------------------------------------------------------
  // "Delete all": one remove-at-0 per row of the displayed cart
  // ---------------------------------------------------------------------

  /** The button's loop: one `remove_from_pending_cart(u, 0)` per entry of
      `faults` (the displayed cart's length), each call failing or not as its
      entry says; a failed call is ignored and the loop goes on. */
  function DeleteAll(s: Store, u: string, faults: seq<Option<string>>): (s': Store)
    ensures s'.submitted == s.submitted && s'.summaries == s.summaries
    ensures s'.next == s.next && s'.defaultStatus == s.defaultStatus
    decreases |faults|
  {
    if |faults| == 0 then s
    else DeleteAll(RemoveFromPendingCart(s, u, 0, faults[0]).store, u, faults[1..])
  }

  /** How many calls of the loop reach the backend without an error. */
  function Successes(faults: seq<Option<string>>): (n: nat)
    ensures n <= |faults|
  {
    if |faults| == 0 then 0 else (if faults[0].None? then 1 else 0) + Successes(faults[1..])
  }

  /** "Delete all" removes the `k` oldest rows of the fresh cart, where `k` is
      the number of successful calls (capped at the cart's length): on an
      unchanged cart of `n` rows with no errors this empties it; a cart that
      has grown since it was displayed keeps its newest rows. */
  lemma {:induction false} DeleteAllDropsOldest(s: Store, u: string, faults: seq<Option<string>>)
    requires Valid(s)
    ensures Cart(DeleteAll(s, u, faults), u) == Cart(s, u)[Min(Successes(faults), |Cart(s, u)|)..]
    decreases |faults|
  {
    if |faults| == 0 {
      assert Cart(s, u)[0..] == Cart(s, u);
    } else {
      var s1 := RemoveFromPendingCart(s, u, 0, faults[0]).store;
      var k1 := DeleteStep(s, u, faults[0]);
      DeleteAllDropsOldest(s1, u, faults[1..]);
      assert DeleteAll(s, u, faults) == DeleteAll(s1, u, faults[1..]);
      var c, c1 := Cart(s, u), Cart(s1, u);
      var k := Min(Successes(faults[1..]), |c1|);
      assert Min(Successes(faults), |c|) == k1 + k;
      assert c[k1..][k..] == c[k1 + k..];
    }
  }

  /** "Delete all" keeps the store valid. */
  lemma {:induction false} DeleteAllValid(s: Store, u: string, faults: seq<Option<string>>)
    requires Valid(s)
    ensures Valid(DeleteAll(s, u, faults))
    decreases |faults|
  {
    if |faults| > 0 {
      var s1 := RemoveFromPendingCart(s, u, 0, faults[0]).store;
      var _ := DeleteStep(s, u, faults[0]);
      DeleteAllValid(s1, u, faults[1..]);
    }
  }

  /** "Delete all" leaves every other user's cart as it was. */
  lemma {:induction false} DeleteAllKeepsOthers(s: Store, u: string, faults: seq<Option<string>>, v: string)
    requires Valid(s) && v != u
    ensures Cart(DeleteAll(s, u, faults), v) == Cart(s, v)
    decreases |faults|
  {
    if |faults| > 0 {
      var s1 := RemoveFromPendingCart(s, u, 0, faults[0]).store;
      var _ := DeleteStep(s, u, faults[0]);
      if faults[0].None? && |Cart(s, u)| > 0 {
        assert faults[0] == None;
        RemoveAtOtherCart(s, u, 0, v);
      } else {
        assert s1 == s;
      }
      DeleteAllKeepsOthers(s1, u, faults[1..], v);
    }
  }

  /** One call of the loop: it removes the oldest row when it succeeds and
      the cart is non-empty; `k` is how many rows it removed. */
  lemma DeleteStep(s: Store, u: string, fault: Option<string>) returns (k: nat)
    requires Valid(s)
    ensures k == (if fault.None? && |Cart(s, u)| > 0 then 1 else 0)
    ensures Valid(RemoveFromPendingCart(s, u, 0, fault).store)
    ensures Cart(RemoveFromPendingCart(s, u, 0, fault).store, u) == Cart(s, u)[k..]
  {
    if fault.None? && |Cart(s, u)| > 0 {
      k := 1;
      assert fault == None;
      RemoveAtValid(s, u, 0);
      RemoveAtOwnCart(s, u, 0);
      var c := Cart(s, u);
      assert c[..0] + c[1..] == c[1..];
    } else {
      k := 0;
      assert RemoveFromPendingCart(s, u, 0, fault).store == s;
      assert Cart(s, u)[0..] == Cart(s, u);
    }
  }

  /** The errorless loop over an unchanged cart of `n` rows empties it. */
  lemma DeleteAllEmpties(s: Store, u: string, faults: seq<Option<string>>)
    requires Valid(s)
    requires |faults| == |Cart(s, u)|
    requires forall k :: 0 <= k < |faults| ==> faults[k].None?
    ensures Cart(DeleteAll(s, u, faults), u) == []
  {
    AllSucceed(faults);
    DeleteAllDropsOldest(s, u, faults);
  }

  lemma {:induction false} AllSucceed(faults: seq<Option<string>>)
    requires forall k :: 0 <= k < |faults| ==> faults[k].None?
    ensures Successes(faults) == |faults|
  {
    if |faults| > 0 {
      AllSucceed(faults[1..]);
    }
  }

  // ---------------------------------------------------------------------
  // The cart summary line of the request page
  // ---------------------------------------------------------------------

  /** The page's loop over the loaded cart: the displayed count is the
      cart's length and the displayed total is the sum of `total_price`. */
  method CartTotals(items: seq<PendingRow>) returns (count: nat, total: int)
    ensures count == |items|
    ensures total == SumTotals(items)
  {
    total := 0;
    var idx := 0;
    while idx < |items|
      invariant 0 <= idx <= |items|
      invariant total == SumTotals(items[..idx])
    {
      SumTotalsAppend(items[..idx], [items[idx]]);
      assert items[..idx + 1] == items[..idx] + [items[idx]];
      total := total + items[idx].item.totalPrice;
      idx := idx + 1;
    }
    assert items[..idx] == items;
    count := |items|;
  }
}
