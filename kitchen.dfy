/** The kitchen display: orders raised for the kitchen items of a sale, their
    status updates (hooks/useData.tsx:336-345) and the kitchen screen's rules
    (pages/KdsPage.tsx): the status an item click moves to, the orders still
    shown, and the periodic auto-accept of the first new order. */
module Kitchen {
  import opened Collections

  datatype KdsStatus = New | Accepted | Cooking | Ready | Served | Cancelled

  datatype KdsItem = KdsItem(id: string, kdsOrderId: string, productId: string, qty: int, status: KdsStatus)

  datatype KdsOrder = KdsOrder(
    id: string,
    saleId: string,
    saleInvoiceNo: string,
    status: KdsStatus,
    createdAt: string,
    items: seq<KdsItem>)

  // ---- the item-click rule ----

  /** The status `handleItemClick` asks for: new and accepted items start
      cooking, cooking items become ready, every other status stays. */
  function NextItemStatus(s: KdsStatus): (r: KdsStatus)
    ensures s == New || s == Accepted ==> r == Cooking
    ensures s == Cooking ==> r == Ready
    ensures s == Ready || s == Served || s == Cancelled ==> r == s
  {
    if s == Accepted || s == New then Cooking
    else if s == Cooking then Ready
    else s
  }

  /** The position of a status along the kitchen's workflow. */
  function Stage(s: KdsStatus): nat
  {
    match s
    case New => 0
    case Accepted => 1
    case Cooking => 2
    case Ready => 3
    case Served => 4
    case Cancelled => 5
  }

  /** A click never moves an item backwards, never past ready, and two clicks
      settle every item: a third changes nothing, and an item that was still
      in the kitchen is then ready. */
  lemma ClicksSettle(s: KdsStatus)
    ensures Stage(NextItemStatus(s)) >= Stage(s)
    ensures NextItemStatus(s) != s ==> Stage(NextItemStatus(s)) <= Stage(Ready)
    ensures NextItemStatus(NextItemStatus(NextItemStatus(s))) == NextItemStatus(NextItemStatus(s))
    ensures Stage(s) <= Stage(Ready) ==> NextItemStatus(NextItemStatus(s)) == Ready
  {
  }

  // ---- status updates ----

  function WithStatus(o: KdsOrder, status: KdsStatus): (r: KdsOrder)
    ensures r.id == o.id && r.saleId == o.saleId && r.saleInvoiceNo == o.saleInvoiceNo
    ensures r.createdAt == o.createdAt && r.status == status && |r.items| == |o.items|
    ensures forall j :: 0 <= j < |o.items| ==> r.items[j] == o.items[j].(status := status)
  {
    o.(status := status, items := Map((i: KdsItem) => i.(status := status), o.items))
  }

  /** `updateKdsOrderStatus`: the orders with that id, and every one of their
      items, take the status; other orders are untouched. */
  function UpdateOrderStatus(orders: seq<KdsOrder>, orderId: string, status: KdsStatus): (r: seq<KdsOrder>)
    ensures |r| == |orders|
    ensures forall k :: 0 <= k < |orders| ==>
      r[k] == if orders[k].id == orderId then WithStatus(orders[k], status) else orders[k]
  {
    Map((o: KdsOrder) => if o.id == orderId then WithStatus(o, status) else o, orders)
  }

  predicate AllReady(items: seq<KdsItem>)
  {
    forall j :: 0 <= j < |items| ==> items[j].status == Ready
  }

  function SetItem(o: KdsOrder, itemId: string, status: KdsStatus): (r: KdsOrder)
    ensures r.id == o.id && r.saleId == o.saleId && r.saleInvoiceNo == o.saleInvoiceNo && r.createdAt == o.createdAt
    ensures |r.items| == |o.items|
    ensures forall j :: 0 <= j < |o.items| ==>
      r.items[j] == if o.items[j].id == itemId then o.items[j].(status := status) else o.items[j]
    ensures r.status == if AllReady(r.items) then Ready else o.status
  {
    var items := Map((i: KdsItem) => if i.id == itemId then i.(status := status) else i, o.items);
    o.(items := items, status := if AllReady(items) then Ready else o.status)
  }

  /** `updateKdsItemStatus`: in the orders with that id the items with that id
      take the status, and the order becomes ready exactly when all its items
      then are; otherwise it keeps its status. Other orders are untouched. */
  function UpdateItemStatus(orders: seq<KdsOrder>, orderId: string, itemId: string, status: KdsStatus): (r: seq<KdsOrder>)
    ensures |r| == |orders|
    ensures forall k :: 0 <= k < |orders| ==>
      r[k] == if orders[k].id == orderId then SetItem(orders[k], itemId, status) else orders[k]
  {
    Map((o: KdsOrder) => if o.id == orderId then SetItem(o, itemId, status) else o, orders)
  }

  /** Marking the last unfinished item of an order ready makes the order
      ready; while another item is not ready the order keeps its status. */
  lemma LastItemReadiesOrder(o: KdsOrder, itemId: string)
    ensures (forall j :: 0 <= j < |o.items| && o.items[j].id != itemId ==> o.items[j].status == Ready)
      ==> SetItem(o, itemId, Ready).status == Ready
    ensures (exists j :: 0 <= j < |o.items| && o.items[j].id != itemId && o.items[j].status != Ready)
      ==> SetItem(o, itemId, Ready).status == o.status
  {
    var r := SetItem(o, itemId, Ready);
    if exists j :: 0 <= j < |o.items| && o.items[j].id != itemId && o.items[j].status != Ready {
      var j :| 0 <= j < |o.items| && o.items[j].id != itemId && o.items[j].status != Ready;
      assert r.items[j] == o.items[j];
    }
  }

  // ---- the kitchen screen ----

  predicate IsActive(o: KdsOrder)
  {
    o.status != Served && o.status != Cancelled
  }

  /** `activeOrders`: the orders neither served nor cancelled, in their order. */
  function ActiveOrders(orders: seq<KdsOrder>): (r: seq<KdsOrder>)
    ensures IsSubsequence(r, orders)
    ensures forall k :: 0 <= k < |r| ==> IsActive(r[k])
    ensures forall k :: 0 <= k < |orders| && IsActive(orders[k]) ==> orders[k] in r
    ensures forall o :: multiset(r)[o] == if IsActive(o) then multiset(orders)[o] else 0
  {
    FilterIsSubsequence(IsActive, orders);
    FilterCounts(IsActive, orders);
    Filter(IsActive, orders)
  }

  predicate IsNew(o: KdsOrder)
  {
    o.status == New
  }

  /** One auto-accept tick: the first new order, if any, is accepted. */
  function AutoAccept(orders: seq<KdsOrder>): seq<KdsOrder>
  {
    match Find(IsNew, orders)
    case None => orders
    case Some(o) => UpdateOrderStatus(orders, o.id, Accepted)
  }

  predicate UniqueOrderIds(orders: seq<KdsOrder>)
  {
    forall i, j :: 0 <= i < j < |orders| ==> orders[i].id != orders[j].id
  }

  function NewCount(orders: seq<KdsOrder>): nat
  {
    if orders == [] then 0 else NewCount(orders[..|orders| - 1]) + if IsNew(orders[|orders| - 1]) then 1 else 0
  }

  /** Changing one new order into one that is not new, and nothing else that
      bears on newness, lowers the count of new orders by one. */
  lemma {:induction false} NewCountDrops(a: seq<KdsOrder>, b: seq<KdsOrder>, k: nat)
    requires |a| == |b| && k < |a| && IsNew(a[k]) && !IsNew(b[k])
    requires forall j :: 0 <= j < |a| && j != k ==> IsNew(a[j]) == IsNew(b[j])
    ensures NewCount(b) + 1 == NewCount(a)
    decreases |a|
  {
    var n := |a| - 1;
    if k < n {
      NewCountDrops(a[..n], b[..n], k);
    } else {
      NewCountSame(a[..n], b[..n]);
    }
  }

  lemma {:induction false} NewCountSame(a: seq<KdsOrder>, b: seq<KdsOrder>)
    requires |a| == |b|
    requires forall j :: 0 <= j < |a| ==> IsNew(a[j]) == IsNew(b[j])
    ensures NewCount(a) == NewCount(b)
    decreases |a|
  {
    if a != [] {
      NewCountSame(a[..|a| - 1], b[..|b| - 1]);
    }
  }

  /** Each auto-accept tick accepts the first new order, with all its items,
      and changes no other order; so every tick lowers the number of new
      orders by one until none is left, after which the tick changes nothing. */
  lemma AutoAcceptFirstNew(orders: seq<KdsOrder>)
    requires UniqueOrderIds(orders)
    ensures FindIndex(IsNew, orders).None? ==> AutoAccept(orders) == orders
    ensures FindIndex(IsNew, orders).Some? ==>
      var k := FindIndex(IsNew, orders).value;
      var r := AutoAccept(orders);
      |r| == |orders| && r[k] == WithStatus(orders[k], Accepted)
      && (forall j :: 0 <= j < |orders| && j != k ==> r[j] == orders[j])
      && NewCount(r) + 1 == NewCount(orders)
  {
    match FindIndex(IsNew, orders)
    case None =>
    case Some(k) =>
      var r := AutoAccept(orders);
      assert Find(IsNew, orders) == Some(orders[k]);
      assert forall j :: 0 <= j < |orders| && j != k ==> orders[j].id != orders[k].id;
      NewCountDrops(orders, r, k);
  }
}
