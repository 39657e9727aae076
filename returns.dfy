/** The return dialog of the web dashboard
    (apps/web/src/components/dashboard/ProcessReturnModal.tsx): one entry per
    sold product, the quantity to return chosen within what was sold, and the
    request sent when the cashier submits. */
module Returns {
  import opened Collections
  import opened Text

  /** A line of the sale as the server reports it. */
  datatype SoldItem = SoldItem(id: string, productId: string, qty: int, price: real, name: string)

  datatype ReturnItem = ReturnItem(productId: string, quantity: int, name: string, maxQuantity: int)

  /** The record of entries keyed by product id. */
  type ReturnItems = map<string, ReturnItem>

  function Fresh(item: SoldItem): ReturnItem
  {
    ReturnItem(item.productId, 0, item.name, item.qty)
  }

  /** The entries the `reduce` over the sale's items leaves behind: each item
      writes a fresh entry under its product id, over any earlier one. */
  function Initial(items: seq<SoldItem>): ReturnItems
  {
    if items == [] then map[]
    else
      var last := items[|items| - 1];
      Initial(items[..|items| - 1])[last.productId := Fresh(last)]
  }

  /** The `reduce` assigning into its accumulator, as a loop. */
  method InitialReturnItems(items: seq<SoldItem>) returns (acc: ReturnItems)
    ensures acc == Initial(items)
  {
    acc := map[];
    var i := 0;
    while i < |items|
      invariant 0 <= i <= |items|
      invariant acc == Initial(items[..i])
    {
      assert items[..i + 1][..i] == items[..i];
      acc := acc[items[i].productId := Fresh(items[i])];
      i := i + 1;
    }
    assert items[..i] == items;
  }

  /** There is one entry per sold product, with nothing to return yet. */
  lemma {:induction false} InitialKeys(items: seq<SoldItem>)
    ensures forall pid :: pid in Initial(items) <==> exists k :: 0 <= k < |items| && items[k].productId == pid
    ensures forall pid :: pid in Initial(items) ==> Initial(items)[pid].quantity == 0
  {
    if items != [] {
      var n := |items| - 1;
      var init := items[..n];
      InitialKeys(init);
      assert forall k :: 0 <= k < n ==> init[k] == items[k];
    }
  }

  /** A product's entry comes from its last line: the quantity sold there is
      the most that can be returned. */
  lemma {:induction false} InitialFromLastLine(items: seq<SoldItem>, k: nat)
    requires k < |items|
    requires forall j :: k < j < |items| ==> items[j].productId != items[k].productId
    ensures items[k].productId in Initial(items) && Initial(items)[items[k].productId] == Fresh(items[k])
  {
    var n := |items| - 1;
    if k < n {
      var init := items[..n];
      assert init[k] == items[k];
      InitialFromLastLine(init, k);
    }
  }

  /** Every entry sits under its own product id with a quantity between 0 and
      its maximum. */
  predicate Valid(m: ReturnItems)
  {
    forall pid :: pid in m ==> m[pid].productId == pid && 0 <= m[pid].quantity <= m[pid].maxQuantity
  }

  /** The entries start valid when no line reports a negative quantity sold. */
  lemma {:induction false} InitialValid(items: seq<SoldItem>)
    requires forall k :: 0 <= k < |items| ==> items[k].qty >= 0
    ensures Valid(Initial(items))
  {
    if items != [] {
      var n := |items| - 1;
      assert forall k :: 0 <= k < n ==> items[..n][k] == items[k];
      InitialValid(items[..n]);
    }
  }

  /** `handleQuantityChange`: the product's entry takes the quantity when it
      lies between 0 and the entry's maximum; otherwise nothing changes, and
      no other entry ever does. A product without an entry changes nothing
      (the handler fails on the missing entry). */
  function ChangeQuantity(m: ReturnItems, productId: string, quantity: int): (r: ReturnItems)
    ensures r.Keys == m.Keys
    ensures forall pid :: pid in m && pid != productId ==> r[pid] == m[pid]
    ensures productId in m && 0 <= quantity <= m[productId].maxQuantity ==>
      r[productId] == m[productId].(quantity := quantity)
    ensures !(productId in m && 0 <= quantity <= m[productId].maxQuantity) ==> r == m
  {
    if productId in m && 0 <= quantity <= m[productId].maxQuantity then m[productId := m[productId].(quantity := quantity)]
    else m
  }

  lemma ChangeQuantityKeepsValid(m: ReturnItems, productId: string, quantity: int)
    requires Valid(m)
    ensures Valid(ChangeQuantity(m, productId, quantity))
  {
  }

  /** `itemsToReturn`: the entries with something to return. */
  function ItemsToReturn(m: ReturnItems): (r: ReturnItems)
    ensures forall pid :: pid in r <==> pid in m && m[pid].quantity > 0
    ensures forall pid :: pid in r ==> r[pid] == m[pid]
  {
    map pid | pid in m && m[pid].quantity > 0 :: m[pid]
  }

  datatype ReturnRequest = ReturnRequest(saleId: string, reason: string, items: map<string, int>)

  const NotLoggedIn := "You must be logged in."
  const NothingSelected := "Please select at least one item to return."
  const NoReason := "Please provide a reason for the return."

  /** `handleSubmit`: refused without a user, with nothing to return or with
      a blank reason, in that order; otherwise the request carries the
      trimmed reason and the quantity of each product to return. */
  function Submit(loggedIn: bool, saleId: string, m: ReturnItems, reason: string): (r: Outcome<ReturnRequest>)
    ensures !loggedIn ==> r == Failure(NotLoggedIn)
    ensures loggedIn && ItemsToReturn(m) == map[] ==> r == Failure(NothingSelected)
    ensures loggedIn && ItemsToReturn(m) != map[] && Trim(reason) == [] ==> r == Failure(NoReason)
    ensures r.Success? ==>
      r.value.saleId == saleId && r.value.reason == Trim(reason) && r.value.reason != []
      && r.value.items.Keys == ItemsToReturn(m).Keys && r.value.items != map[]
      && forall pid :: pid in r.value.items ==> r.value.items[pid] == m[pid].quantity
  {
    var toReturn := ItemsToReturn(m);
    if !loggedIn then Failure(NotLoggedIn)
    else if toReturn == map[] then Failure(NothingSelected)
    else if Trim(reason) == [] then Failure(NoReason)
    else
      var items := map pid | pid in toReturn :: toReturn[pid].quantity;
      assert items.Keys == toReturn.Keys;
      Success(ReturnRequest(saleId, Trim(reason), items))
  }

  /** Starting from the sale's entries and changing quantities through the
      dialog, a submitted request never asks to return more of a product
      than was sold, nor nothing of it. */
  lemma SubmittedWithinSold(loggedIn: bool, saleId: string, m: ReturnItems, reason: string)
    requires Valid(m)
    requires Submit(loggedIn, saleId, m, reason).Success?
    ensures var req := Submit(loggedIn, saleId, m, reason).value;
      forall pid :: pid in req.items ==> pid in m && 0 < req.items[pid] <= m[pid].maxQuantity
  {
  }
}
