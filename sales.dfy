/** Sales as the data provider records them (hooks/useData.tsx:287-334): the
    sale record with its invoice number, the stock each sale takes from and a
    void gives back to the products, and the kitchen order raised for the
    kitchen items of a sale. */
module Sales {
  import opened Collections
  import opened Text
  import opened Kitchen
  import Catalog

  datatype PaymentMethod = Cash | Transfer | Qris

  /** Used by the provider although the declared `Sale` type omits it. */
  datatype SaleStatus = Completed | Voided

  datatype SaleItem = SaleItem(id: string, saleId: string, productId: string, qty: int, price: real, discount: real)

  /** What the point of sale hands to `addSale`: a sale without the fields the
      provider fills in. */
  datatype SaleDraft = SaleDraft(
    outletId: string,
    userId: string,
    customerId: Option<string>,
    subtotal: real,
    discount: real,
    tax: real,
    total: real,
    paymentMethod: PaymentMethod,
    paid: real,
    change: real,
    items: seq<SaleItem>)

  datatype Sale = Sale(
    id: string,
    outletId: string,
    userId: string,
    shiftId: string,
    customerId: Option<string>,
    invoiceNo: string,
    date: string,
    subtotal: real,
    discount: real,
    tax: real,
    total: real,
    paymentMethod: PaymentMethod,
    paid: real,
    change: real,
    items: seq<SaleItem>,
    status: SaleStatus,
    notes: Option<string>)

  // ---- invoice numbers ----

  /** `INV-` and the 1-based position of the sale, zero-padded to four digits. */
  function InvoiceNo(position: nat): string
  {
    "INV-" + PadStart(NatToString(position), 4, '0')
  }

  /** The digits after `INV-` read back as the position, so two sales recorded
      at different list lengths never share an invoice number. */
  lemma InvoiceNoReadsBack(position: nat)
    ensures var r := InvoiceNo(position);
      |r| >= 8 && r[..4] == "INV-" && AllDigits(r[4..]) && DigitsValue(r[4..]) == position
    ensures position < 10000 ==> |InvoiceNo(position)| == 8
  {
    var r := InvoiceNo(position);
    NatToStringValue(position);
    ZeroPaddedValue(NatToString(position), 4);
    assert r[4..] == PadStart(NatToString(position), 4, '0');
    if position < 10000 {
      NatToStringShort(position);
    }
  }

  lemma {:induction false} NatToStringShort(n: nat)
    requires n < 10000
    ensures |NatToString(n)| <= 4
  {
    if n >= 10 {
      NatToStringShort(n / 10);
      if n >= 1000 {
        assert |NatToString(n / 10)| <= 3 by { NatToStringShorter(n / 10); }
      }
    }
  }

  lemma {:induction false} NatToStringShorter(n: nat)
    requires n < 1000
    ensures |NatToString(n)| <= 3
  {
    if n >= 10 {
      assert n / 10 < 100;
      assert |NatToString(n / 10)| <= 2 by {
        if n / 10 >= 10 { assert n / 100 < 10; assert NatToString(n / 10 / 10) == [DigitChar(n / 10 / 10)]; }
      }
    }
  }

  lemma InvoiceNoInjective(a: nat, b: nat)
    ensures InvoiceNo(a) == InvoiceNo(b) ==> a == b
  {
    InvoiceNoReadsBack(a);
    InvoiceNoReadsBack(b);
  }

  /** The recorded sale: the draft under a fresh id, the next invoice number,
      the current shift and status COMPLETED. */
  function NewSale(d: SaleDraft, id: string, count: nat, date: string, shiftId: string): (r: Sale)
    ensures r.id == id && r.invoiceNo == InvoiceNo(count + 1) && r.date == date && r.shiftId == shiftId
    ensures r.status == Completed && r.notes == None
    ensures r.outletId == d.outletId && r.userId == d.userId && r.customerId == d.customerId
    ensures r.subtotal == d.subtotal && r.discount == d.discount && r.tax == d.tax && r.total == d.total
    ensures r.paymentMethod == d.paymentMethod && r.paid == d.paid && r.change == d.change && r.items == d.items
  {
    Sale(id, d.outletId, d.userId, shiftId, d.customerId, InvoiceNo(count + 1), date,
         d.subtotal, d.discount, d.tax, d.total, d.paymentMethod, d.paid, d.change, d.items, Completed, None)
  }

  // ---- stock ----

  /** `findIndex(p => p.id === id)` on the product list. */
  function Slot(products: seq<Catalog.Product>, id: string): (r: Option<nat>)
    ensures r.Some? ==> r.value < |products| && products[r.value].id == id
    ensures r.Some? ==> forall j :: 0 <= j < r.value ==> products[j].id != id
    ensures r.None? <==> forall j :: 0 <= j < |products| ==> products[j].id != id
  {
    FindIndex((p: Catalog.Product) => p.id == id, products)
  }

  /** A sale takes stock (`stock -= qty`); a void gives it back (`stock += qty`). */
  datatype Direction = Take | GiveBack

  function Signed(dir: Direction, q: int): int
  {
    if dir == Take then -q else q
  }

  /** One pass of the stock loop: the first product with the item's id moves
      by the item's quantity, down for a sale and up for a void; an unknown product is skipped. */
  function Adjust(products: seq<Catalog.Product>, item: SaleItem, dir: Direction): (r: seq<Catalog.Product>)
    ensures |r| == |products|
    ensures forall k :: 0 <= k < |products| ==>
      r[k] == if Slot(products, item.productId) == Some(k)
              then products[k].(stock := products[k].stock + Signed(dir, item.qty)) else products[k]
  {
    match Slot(products, item.productId)
    case None => products
    case Some(k) => products[k := products[k].(stock := products[k].stock + Signed(dir, item.qty))]
  }

  /** The products after the stock loop over `items`, in order. */
  function Restock(products: seq<Catalog.Product>, items: seq<SaleItem>, dir: Direction): seq<Catalog.Product>
    decreases |items|
  {
    if items == [] then products
    else Adjust(Restock(products, items[..|items| - 1], dir), items[|items| - 1], dir)
  }

  lemma AdjustFound(products: seq<Catalog.Product>, item: SaleItem, dir: Direction, k: nat)
    requires Slot(products, item.productId) == Some(k)
    ensures Adjust(products, item, dir) == products[k := products[k].(stock := products[k].stock + Signed(dir, item.qty))]
  {
  }

  lemma AdjustMissing(products: seq<Catalog.Product>, item: SaleItem, dir: Direction)
    requires Slot(products, item.productId).None?
    ensures Adjust(products, item, dir) == products
  {
  }

  /** One more item through the loop is one more `Adjust`. */
  lemma RestockStep(products: seq<Catalog.Product>, items: seq<SaleItem>, i: nat, dir: Direction)
    requires i < |items|
    ensures Restock(products, items[..i + 1], dir) == Adjust(Restock(products, items[..i], dir), items[i], dir)
  {
    assert items[..i + 1][..i] == items[..i];
  }

  predicate SameIds(a: seq<Catalog.Product>, b: seq<Catalog.Product>)
  {
    |a| == |b| && forall k :: 0 <= k < |a| ==> a[k].id == b[k].id
  }

  lemma SlotSameIds(a: seq<Catalog.Product>, b: seq<Catalog.Product>, id: string)
    requires SameIds(a, b)
    ensures Slot(a, id) == Slot(b, id)
  {
    match Slot(a, id)
    case None =>
    case Some(k) =>
      assert b[k].id == id;
  }

  /** The quantity the items send to the product at index `k`: items count
      for the first product bearing their product id. */
  function Moved(products: seq<Catalog.Product>, items: seq<SaleItem>, k: nat): int
    decreases |items|
  {
    if items == [] then 0
    else Moved(products, items[..|items| - 1], k)
         + if Slot(products, items[|items| - 1].productId) == Some(k) then items[|items| - 1].qty else 0
  }

  lemma {:induction false} MovedSameIds(a: seq<Catalog.Product>, b: seq<Catalog.Product>, items: seq<SaleItem>, k: nat)
    requires SameIds(a, b)
    ensures Moved(a, items, k) == Moved(b, items, k)
    decreases |items|
  {
    if items != [] {
      MovedSameIds(a, b, items[..|items| - 1], k);
      SlotSameIds(a, b, items[|items| - 1].productId);
    }
  }

  lemma {:induction false} RestockIds(products: seq<Catalog.Product>, items: seq<SaleItem>, dir: Direction)
    ensures SameIds(Restock(products, items, dir), products)
    decreases |items|
  {
    if items != [] {
      RestockIds(products, items[..|items| - 1], dir);
    }
  }

  /** The loop leaves every product in place with its id and every field but
      the stock, which moves by the quantity sent to it. */
  lemma {:induction false} RestockEffect(products: seq<Catalog.Product>, items: seq<SaleItem>, dir: Direction, k: nat)
    requires k < |products|
    ensures SameIds(Restock(products, items, dir), products)
    ensures Restock(products, items, dir)[k] == products[k].(stock := products[k].stock + Signed(dir, Moved(products, items, k)))
    decreases |items|
  {
    RestockIds(products, items, dir);
    if items != [] {
      var n := |items| - 1;
      var before := Restock(products, items[..n], dir);
      RestockEffect(products, items[..n], dir, k);
      SlotSameIds(before, products, items[n].productId);
      var q := if Slot(products, items[n].productId) == Some(k) then items[n].qty else 0;
      assert Moved(products, items, k) == Moved(products, items[..n], k) + q;
      assert Restock(products, items, dir) == Adjust(before, items[n], dir);
      assert Restock(products, items, dir)[k] == before[k].(stock := before[k].stock + Signed(dir, q));
      assert Signed(dir, Moved(products, items, k)) == Signed(dir, Moved(products, items[..n], k)) + Signed(dir, q);
    }
  }

  /** Voiding a sale right after it was recorded gives every product back
      exactly the stock the sale took. */
  lemma VoidRestoresStock(products: seq<Catalog.Product>, items: seq<SaleItem>)
    ensures Restock(Restock(products, items, Take), items, GiveBack) == products
  {
    var sold := Restock(products, items, Take);
    var back := Restock(sold, items, GiveBack);
    RestockIds(products, items, Take);
    RestockIds(sold, items, GiveBack);
    forall k | 0 <= k < |products| ensures back[k] == products[k] {
      RestockEffect(products, items, Take, k);
      RestockEffect(sold, items, GiveBack, k);
      MovedSameIds(sold, products, items, k);
    }
  }

  /** The total quantity of `id` among the items. */
  function QtyOf(items: seq<SaleItem>, id: string): int
  {
    if items == [] then 0
    else QtyOf(items[..|items| - 1], id) + if items[|items| - 1].productId == id then items[|items| - 1].qty else 0
  }

  /** With distinct ids the lookup of a product's own id finds that product. */
  lemma SlotOfUnique(products: seq<Catalog.Product>, k: nat)
    requires Catalog.UniqueIds(products) && k < |products|
    ensures Slot(products, products[k].id) == Some(k)
  {
  }

  lemma {:induction false} MovedByProduct(products: seq<Catalog.Product>, items: seq<SaleItem>, k: nat)
    requires Catalog.UniqueIds(products) && k < |products|
    ensures Moved(products, items, k) == QtyOf(items, products[k].id)
    decreases |items|
  {
    if items != [] {
      var n := |items| - 1;
      MovedByProduct(products, items[..n], k);
      SlotOfUnique(products, k);
    }
  }

  /** With distinct product ids a sale lowers each product's stock by the
      quantity of that product on the sale, and changes nothing else. */
  lemma SaleTakesStock(products: seq<Catalog.Product>, items: seq<SaleItem>)
    requires Catalog.UniqueIds(products)
    ensures var after := Restock(products, items, Take);
      |after| == |products|
      && forall k :: 0 <= k < |products| ==>
           after[k] == products[k].(stock := products[k].stock - QtyOf(items, products[k].id))
  {
    RestockIds(products, items, Take);
    forall k | 0 <= k < |products|
      ensures Restock(products, items, Take)[k] == products[k].(stock := products[k].stock - QtyOf(items, products[k].id))
    {
      RestockEffect(products, items, Take, k);
      MovedByProduct(products, items, k);
    }
  }

  /** The stock loop keeps ids unique, SKUs and names distinct and every
      product's category and unit as they were. */
  lemma RestockKeepsCatalog(products: seq<Catalog.Product>, items: seq<SaleItem>, dir: Direction,
                            categories: seq<Catalog.Category>, units: seq<Catalog.UnitOfMeasure>)
    ensures Catalog.UniqueIds(products) ==> Catalog.UniqueIds(Restock(products, items, dir))
    ensures Catalog.DistinctKeys(products) ==> Catalog.DistinctKeys(Restock(products, items, dir))
    ensures Catalog.References(products, categories, units) ==> Catalog.References(Restock(products, items, dir), categories, units)
  {
    var r := Restock(products, items, dir);
    RestockIds(products, items, dir);
    forall k | 0 <= k < |products|
      ensures r[k].id == products[k].id && r[k].sku == products[k].sku && r[k].name == products[k].name
      ensures r[k].categoryId == products[k].categoryId && r[k].unitId == products[k].unitId
    {
      RestockEffect(products, items, dir, k);
    }
  }

  /** A sale does not check stock: it can leave a product below zero. */
  lemma SaleCanOversell()
    ensures var p := Catalog.Product("p1", "SKU1", None, "Tea", "c1", "u1", 5000.0, 2000.0, 1, 0, true, false, true);
      Restock([p], [SaleItem("i1", "sale-1", "p1", 3, 5000.0, 0.0)], Take)[0].stock == -2
  {
    var p := Catalog.Product("p1", "SKU1", None, "Tea", "c1", "u1", 5000.0, 2000.0, 1, 0, true, false, true);
    var items := [SaleItem("i1", "sale-1", "p1", 3, 5000.0, 0.0)];
    assert items[..0] == [];
    assert Slot([p], "p1") == Some(0);
  }

  // ---- voiding ----

  /** A voided sale: VOIDED with the reason noted, every other field kept. */
  function VoidedSale(s: Sale, reason: string): (r: Sale)
    ensures r.status == Voided && r.notes == Some("Voided: " + reason)
    ensures r.(status := s.status, notes := s.notes) == s
  {
    s.(status := Voided, notes := Some("Voided: " + reason))
  }

  /** The sale `voidSale` may void: the first sale with that id, when it is
      still COMPLETED; a missing or already voided sale is refused. */
  function Voidable(sales: seq<Sale>, saleId: string): (r: Option<Sale>)
    ensures r.Some? <==> exists j :: 0 <= j < |sales| && sales[j].id == saleId && sales[j].status == Completed
                                    && forall i :: 0 <= i < j ==> sales[i].id != saleId
    ensures r.Some? ==> r.value in sales && r.value.id == saleId && r.value.status == Completed
  {
    match FindIndex((s: Sale) => s.id == saleId, sales)
    case None => None
    case Some(k) => if sales[k].status == Completed then Some(sales[k]) else None
  }

  /** The sales after a void: every sale with that id is VOIDED with the
      reason in its notes; the rest are untouched. */
  function VoidSales(sales: seq<Sale>, saleId: string, reason: string): (r: seq<Sale>)
    ensures |r| == |sales|
    ensures forall k :: 0 <= k < |sales| ==>
      r[k] == if sales[k].id == saleId then VoidedSale(sales[k], reason) else sales[k]
  {
    Map((s: Sale) => if s.id == saleId then VoidedSale(s, reason) else s, sales)
  }

  // ---- the kitchen order ----

  /** The product the item names is marked for the kitchen. */
  predicate ForKitchen(products: seq<Catalog.Product>, item: SaleItem)
  {
    var s := Slot(products, item.productId);
    s.Some? && products[s.value].isKitchen
  }

  function KitchenItems(products: seq<Catalog.Product>, items: seq<SaleItem>): (r: seq<SaleItem>)
    ensures IsSubsequence(r, items)
    ensures forall k :: 0 <= k < |r| ==> ForKitchen(products, r[k])
    ensures forall k :: 0 <= k < |items| && ForKitchen(products, items[k]) ==> items[k] in r
    ensures forall x :: multiset(r)[x] == if ForKitchen(products, x) then multiset(items)[x] else 0
  {
    FilterIsSubsequence((i: SaleItem) => ForKitchen(products, i), items);
    FilterCounts((i: SaleItem) => ForKitchen(products, i), items);
    Filter((i: SaleItem) => ForKitchen(products, i), items)
  }

  /** A sale has no kitchen items exactly when none of its items is for the kitchen. */
  lemma NoKitchenItems(products: seq<Catalog.Product>, items: seq<SaleItem>)
    ensures KitchenItems(products, items) == [] <==> forall k :: 0 <= k < |items| ==> !ForKitchen(products, items[k])
  {
    var r := KitchenItems(products, items);
    if r != [] {
      assert multiset(r)[r[0]] > 0;
      assert r[0] in items;
    }
  }

  function Ticket(item: SaleItem, orderId: string): KdsItem
  {
    KdsItem("kds-item-" + item.id, orderId, item.productId, item.qty, New)
  }

  /** Distinct sale items get distinct ticket ids: the id reads back after
      the `kds-item-` prefix. */
  lemma TicketIdsInjective(a: SaleItem, b: SaleItem, orderId: string)
    ensures Ticket(a, orderId).id == Ticket(b, orderId).id <==> a.id == b.id
  {
    var p := "kds-item-";
    if Ticket(a, orderId).id == Ticket(b, orderId).id {
      assert (p + a.id)[|p|..] == a.id;
      assert (p + b.id)[|p|..] == b.id;
    }
  }

  /** One NEW ticket of the order per item, in order. */
  lemma TicketsFollowItems(kitchen: seq<SaleItem>, orderId: string)
    ensures var t := Map((i: SaleItem) => Ticket(i, orderId), kitchen);
      |t| == |kitchen|
      && forall j :: 0 <= j < |kitchen| ==>
           t[j].id == "kds-item-" + kitchen[j].id && t[j].productId == kitchen[j].productId && t[j].qty == kitchen[j].qty
           && t[j].status == New && t[j].kdsOrderId == orderId
  {
  }

  /** The kitchen order for a sale: none when no item is for the kitchen,
      otherwise one NEW order for the sale carrying one NEW line per kitchen
      item, in the sale's order. Both clock readings for the order id are
      taken to be the same `orderId`. */
  function KitchenOrder(products: seq<Catalog.Product>, sale: Sale, orderId: string, createdAt: string): (r: Option<KdsOrder>)
    ensures r.None? <==> forall k :: 0 <= k < |sale.items| ==> !ForKitchen(products, sale.items[k])
    ensures r.Some? ==> r.value.id == orderId && r.value.saleId == sale.id && r.value.saleInvoiceNo == sale.invoiceNo
    ensures r.Some? ==> r.value.status == New && r.value.createdAt == createdAt
    ensures r.Some? ==> var kitchen := KitchenItems(products, sale.items);
      |r.value.items| == |kitchen|
      && forall j :: 0 <= j < |kitchen| ==>
           r.value.items[j].id == "kds-item-" + kitchen[j].id && r.value.items[j].productId == kitchen[j].productId && r.value.items[j].qty == kitchen[j].qty
           && r.value.items[j].status == New && r.value.items[j].kdsOrderId == orderId
  {
    var kitchen := KitchenItems(products, sale.items);
    NoKitchenItems(products, sale.items);
    if |kitchen| == 0 then None
    else
      TicketsFollowItems(kitchen, orderId);
      Some(KdsOrder(orderId, sale.id, sale.invoiceNo, New, createdAt, Map((i: SaleItem) => Ticket(i, orderId), kitchen)))
  }
}
