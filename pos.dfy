/** The point of sale screen (pages/PosPage.tsx): the cart of sale lines the
    cashier builds, the discount typed per line, the totals shown, and the
    payment that records the cart as a sale and empties it. */
module Pos {
  import opened Collections
  import opened Text
  import Catalog
  import Sales
  import Shifts
  import Store

  /** A sale line with the product it was picked from and the discount text
      typed for it. */
  datatype CartLine = CartLine(
    id: string,
    saleId: string,
    productId: string,
    qty: int,
    price: real,
    discount: real,
    discountInput: string,
    product: Catalog.Product)

  function ToSaleItem(l: CartLine): Sales.SaleItem
  {
    Sales.SaleItem(l.id, l.saleId, l.productId, l.qty, l.price, l.discount)
  }

  predicate HasLine(cart: seq<CartLine>, productId: string)
  {
    exists k :: 0 <= k < |cart| && cart[k].productId == productId
  }

  /** The cart holds at most one line per product. */
  predicate OneLinePerProduct(cart: seq<CartLine>)
  {
    forall i, j :: 0 <= i < j < |cart| ==> cart[i].productId != cart[j].productId
  }

  // ---- cart updates ----

  function NewLine(product: Catalog.Product, lineId: string): CartLine
  {
    CartLine(lineId, "", product.id, 1, product.price, 0.0, "", product)
  }

  /** `addToCart`: a product already in the cart gets one more on its line;
      otherwise a line of one at the product's price, undiscounted, is added. */
  function AddToCart(cart: seq<CartLine>, product: Catalog.Product, lineId: string): (r: seq<CartLine>)
    ensures HasLine(cart, product.id) ==>
      |r| == |cart| && forall k :: 0 <= k < |cart| ==>
        r[k] == if cart[k].productId == product.id then cart[k].(qty := cart[k].qty + 1) else cart[k]
    ensures !HasLine(cart, product.id) ==> r == cart + [NewLine(product, lineId)]
  {
    if Find((l: CartLine) => l.productId == product.id, cart).Some? then
      Map((l: CartLine) => if l.productId == product.id then l.(qty := l.qty + 1) else l, cart)
    else
      cart + [NewLine(product, lineId)]
  }

  /** `updateCartQty`: a quantity of zero or less removes the product's line;
      otherwise only that line's quantity is set, its discount left as it was. */
  function UpdateCartQty(cart: seq<CartLine>, productId: string, newQty: int): (r: seq<CartLine>)
    ensures newQty <= 0 ==>
      !HasLine(r, productId) && IsSubsequence(r, cart)
      && (forall k :: 0 <= k < |cart| && cart[k].productId != productId ==> cart[k] in r)
      && forall l :: multiset(r)[l] == if l.productId != productId then multiset(cart)[l] else 0
    ensures newQty > 0 ==>
      |r| == |cart| && forall k :: 0 <= k < |cart| ==>
        r[k] == if cart[k].productId == productId then cart[k].(qty := newQty) else cart[k]
  {
    if newQty <= 0 then
      FilterIsSubsequence((l: CartLine) => l.productId != productId, cart);
      FilterCounts((l: CartLine) => l.productId != productId, cart);
      Filter((l: CartLine) => l.productId != productId, cart)
    else
      Map((l: CartLine) => if l.productId == productId then l.(qty := newQty) else l, cart)
  }

  /** The discount the typed text asks for on a line totalling `lineTotal`:
      a trailing `%` makes the rest a percentage of the line total, otherwise
      the text is an amount; text that does not parse asks for nothing.
      `parse` stands for `parseFloat`, `None` for NaN. */
  function RequestedDiscount(value: string, lineTotal: real, parse: string -> Option<real>): real
  {
    if EndsWith(value, "%") then
      match parse(value[..|value| - 1])
      case Some(p) => (lineTotal * p) / 100.0
      case None => 0.0
    else
      match parse(value)
      case Some(a) => a
      case None => 0.0
  }

  /** `Math.max(0, Math.min(d, lineTotal))`. */
  function Clamp(d: real, lineTotal: real): (r: real)
    ensures r >= 0.0
    ensures lineTotal >= 0.0 ==> r <= lineTotal
    ensures 0.0 <= d <= lineTotal ==> r == d
    ensures d < 0.0 ==> r == 0.0
    ensures 0.0 <= lineTotal <= d ==> r == lineTotal
  {
    var m := if d < lineTotal then d else lineTotal;
    if m < 0.0 then 0.0 else m
  }

  function WithDiscount(l: CartLine, value: string, parse: string -> Option<real>): CartLine
  {
    var lineTotal := l.price * l.qty as real;
    l.(discountInput := value, discount := Clamp(RequestedDiscount(value, lineTotal, parse), lineTotal))
  }

  /** `handleDiscountChange`: the product's line keeps the typed text and the
      clamped discount it asks for; other lines are untouched. */
  function HandleDiscountChange(cart: seq<CartLine>, productId: string, value: string,
                                parse: string -> Option<real>): (r: seq<CartLine>)
    ensures |r| == |cart|
    ensures forall k :: 0 <= k < |cart| ==>
      r[k] == if cart[k].productId == productId then WithDiscount(cart[k], value, parse) else cart[k]
  {
    Map((l: CartLine) => if l.productId == productId then WithDiscount(l, value, parse) else l, cart)
  }

  /** The discount on the changed line lies between 0 and the line total; a
      percentage from 0 to 100 gives exactly that share of the line total,
      and text that does not parse gives no discount. */
  lemma DiscountBounds(l: CartLine, value: string, parse: string -> Option<real>)
    ensures var d := WithDiscount(l, value, parse);
      var lineTotal := l.price * l.qty as real;
      d.discountInput == value && 0.0 <= d.discount
      && (lineTotal >= 0.0 ==> d.discount <= lineTotal)
      && (EndsWith(value, "%") && parse(value[..|value| - 1]).Some? && lineTotal >= 0.0
          && 0.0 <= parse(value[..|value| - 1]).value <= 100.0
          ==> d.discount == lineTotal * parse(value[..|value| - 1]).value / 100.0)
      && (EndsWith(value, "%") && parse(value[..|value| - 1]).None? ==> d.discount == 0.0)
      && (!EndsWith(value, "%") && parse(value).None? ==> d.discount == 0.0)
  {
    var lineTotal := l.price * l.qty as real;
    if EndsWith(value, "%") && parse(value[..|value| - 1]).Some? && lineTotal >= 0.0 {
      var p := parse(value[..|value| - 1]).value;
      if 0.0 <= p <= 100.0 {
        assert 0.0 <= lineTotal * p <= lineTotal * 100.0;
      }
    }
  }

  /** Lowering a line's quantity keeps its discount, which can then exceed
      the line total: the clamp applies only when the discount is typed. */
  lemma QtyChangeKeepsStaleDiscount()
    ensures var p := Catalog.Product("p1", "SKU1", None, "Tea", "c1", "u1", 10.0, 4.0, 5, 0, true, false, true);
      var cart := [CartLine("si-1", "", "p1", 2, 10.0, 20.0, "20", p)];
      var r := UpdateCartQty(cart, "p1", 1);
      r[0].discount == 20.0 && r[0].discount > r[0].price * r[0].qty as real
  {
    var p := Catalog.Product("p1", "SKU1", None, "Tea", "c1", "u1", 10.0, 4.0, 5, 0, true, false, true);
    var cart := [CartLine("si-1", "", "p1", 2, 10.0, 20.0, "20", p)];
    assert UpdateCartQty(cart, "p1", 1)[0] == cart[0].(qty := 1);
  }

  /** Each cart update keeps the cart at one line per product. */
  lemma AddKeepsOneLinePerProduct(cart: seq<CartLine>, product: Catalog.Product, lineId: string)
    requires OneLinePerProduct(cart)
    ensures OneLinePerProduct(AddToCart(cart, product, lineId))
  {
    var a := AddToCart(cart, product, lineId);
    if HasLine(cart, product.id) {
      assert forall k :: 0 <= k < |a| ==> a[k].productId == cart[k].productId;
    } else {
      forall i, j | 0 <= i < j < |a| ensures a[i].productId != a[j].productId {
        if j == |cart| {
          assert a[i] == cart[i];
        }
      }
    }
  }

  lemma QtyKeepsOneLinePerProduct(cart: seq<CartLine>, productId: string, newQty: int)
    requires OneLinePerProduct(cart)
    ensures OneLinePerProduct(UpdateCartQty(cart, productId, newQty))
  {
    var a := UpdateCartQty(cart, productId, newQty);
    if newQty <= 0 {
      FilteredKeepsOneLine(cart, productId);
    } else {
      assert forall k :: 0 <= k < |a| ==> a[k].productId == cart[k].productId;
    }
  }

  lemma DiscountKeepsOneLinePerProduct(cart: seq<CartLine>, productId: string, value: string,
                                       parse: string -> Option<real>)
    requires OneLinePerProduct(cart)
    ensures OneLinePerProduct(HandleDiscountChange(cart, productId, value, parse))
  {
    var a := HandleDiscountChange(cart, productId, value, parse);
    assert forall k :: 0 <= k < |a| ==> a[k].productId == cart[k].productId;
  }

  lemma FilteredKeepsOneLine(cart: seq<CartLine>, productId: string)
    requires OneLinePerProduct(cart)
    ensures OneLinePerProduct(Filter((l: CartLine) => l.productId != productId, cart))
  {
    if cart != [] {
      FilteredKeepsOneLine(cart[1..], productId);
      var rest := Filter((l: CartLine) => l.productId != productId, cart[1..]);
      assert forall k :: 0 <= k < |rest| ==> rest[k] in cart[1..];
    }
  }

  // ---- totals ----

  function LineTotal(l: CartLine): real
  {
    l.price * l.qty as real
  }

  function LineDiscount(l: CartLine): real
  {
    l.discount
  }

  function Subtotal(cart: seq<CartLine>): real
  {
    Sum(LineTotal, cart)
  }

  function TotalDiscount(cart: seq<CartLine>): real
  {
    Sum(LineDiscount, cart)
  }

  /** Tax on the discounted subtotal at the outlet's percentage. */
  function Tax(cart: seq<CartLine>, taxPercent: real): real
  {
    (Subtotal(cart) - TotalDiscount(cart)) * (taxPercent / 100.0)
  }

  function Total(cart: seq<CartLine>, taxPercent: real): (r: real)
    ensures r == (Subtotal(cart) - TotalDiscount(cart)) * (1.0 + taxPercent / 100.0)
  {
    (Subtotal(cart) - TotalDiscount(cart)) + Tax(cart, taxPercent)
  }

  /** The change shown: what was handed over minus the total, negative when
      it falls short. */
  function Change(cart: seq<CartLine>, taxPercent: real, amountPaid: real): real
  {
    amountPaid - Total(cart, taxPercent)
  }

  predicate SaneLine(l: CartLine)
  {
    l.price >= 0.0 && l.qty >= 0 && 0.0 <= l.discount <= LineTotal(l)
  }

  /** With prices and quantities non-negative and every discount within its
      line, as typed discounts are, the total is neither negative nor above
      the taxed subtotal. */
  lemma TotalBounds(cart: seq<CartLine>, taxPercent: real)
    requires forall k :: 0 <= k < |cart| ==> SaneLine(cart[k])
    requires taxPercent >= 0.0
    ensures 0.0 <= Total(cart, taxPercent) <= Subtotal(cart) * (1.0 + taxPercent / 100.0)
  {
    SumAtMost(LineDiscount, LineTotal, cart);
    SumNonNegative(LineDiscount, cart);
    var taxable := Subtotal(cart) - TotalDiscount(cart);
    var rate := 1.0 + taxPercent / 100.0;
    assert 0.0 <= taxable <= Subtotal(cart);
    assert 0.0 <= taxable * rate <= Subtotal(cart) * rate;
  }

  /** Adding a product raises the subtotal by one unit at its line's recorded
      price, or at the product's price on a new line. */
  lemma AddToCartSubtotal(cart: seq<CartLine>, product: Catalog.Product, lineId: string)
    requires OneLinePerProduct(cart)
    ensures !HasLine(cart, product.id) ==> Subtotal(AddToCart(cart, product, lineId)) == Subtotal(cart) + product.price
    ensures forall k :: 0 <= k < |cart| && cart[k].productId == product.id ==>
      Subtotal(AddToCart(cart, product, lineId)) == Subtotal(cart) + cart[k].price
  {
    if !HasLine(cart, product.id) {
      SumAppend(LineTotal, cart, [NewLine(product, lineId)]);
      assert [NewLine(product, lineId)][..0] == [];
    }
    forall k | 0 <= k < |cart| && cart[k].productId == product.id
      ensures Subtotal(AddToCart(cart, product, lineId)) == Subtotal(cart) + cart[k].price
    {
      AddToLineSubtotal(cart, product, lineId, k);
    }
  }

  lemma AddToLineSubtotal(cart: seq<CartLine>, product: Catalog.Product, lineId: string, k: nat)
    requires OneLinePerProduct(cart) && k < |cart| && cart[k].productId == product.id
    ensures Subtotal(AddToCart(cart, product, lineId)) == Subtotal(cart) + cart[k].price
  {
    var line := cart[k].(qty := cart[k].qty + 1);
    AddToExistingLine(cart, product, lineId, k);
    SumUpdate(LineTotal, cart, k, line);
    OneMore(cart[k]);
  }

  lemma OneMore(l: CartLine)
    ensures LineTotal(l.(qty := l.qty + 1)) == LineTotal(l) + l.price
  {
    var p, q := l.price, l.qty as real;
    assert (l.qty + 1) as real == q + 1.0;
    assert p * (q + 1.0) == p * q + p;
  }

  lemma AddToExistingLine(cart: seq<CartLine>, product: Catalog.Product, lineId: string, k: nat)
    requires OneLinePerProduct(cart) && k < |cart| && cart[k].productId == product.id
    ensures AddToCart(cart, product, lineId) == cart[k := cart[k].(qty := cart[k].qty + 1)]
  {
    assert HasLine(cart, product.id);
    var r := AddToCart(cart, product, lineId);
    forall j | 0 <= j < |cart| ensures r[j] == cart[k := cart[k].(qty := cart[k].qty + 1)][j] {
      if j != k {
        assert cart[j].productId != product.id;
      }
    }
  }

  // ---- payment ----

  /** Confirm is disabled for a cash payment that does not cover the total. */
  predicate ConfirmDisabled(pay: Sales.PaymentMethod, amountPaid: real, total: real)
  {
    pay == Sales.Cash && amountPaid < total
  }

  /** What `handlePayment` hands to `addSale`, or nothing without a user, an
      active shift or a line in the cart. The recorded change is never
      negative. */
  function Checkout(user: Option<Shifts.User>, shiftActive: bool, cart: seq<CartLine>, pay: Sales.PaymentMethod,
                    amountPaid: real, taxPercent: real): (r: Option<Sales.SaleDraft>)
    ensures r.None? <==> user.None? || !shiftActive || cart == []
    ensures r.Some? ==>
      var total := Total(cart, taxPercent);
      r.value.outletId == Shifts.OutletOf(user.value) && r.value.userId == user.value.id && r.value.customerId.None?
      && r.value.subtotal == Subtotal(cart) && r.value.discount == TotalDiscount(cart)
      && r.value.tax == Tax(cart, taxPercent) && r.value.total == total
      && r.value.paymentMethod == pay && r.value.paid == amountPaid
      && r.value.change == (if amountPaid - total > 0.0 then amountPaid - total else 0.0)
      && r.value.items == Map(ToSaleItem, cart)
  {
    if user.None? || !shiftActive then None
    else if |cart| == 0 then None
    else
      var change := Change(cart, taxPercent, amountPaid);
      Some(Sales.SaleDraft(Shifts.OutletOf(user.value), user.value.id, None, Subtotal(cart), TotalDiscount(cart),
                           Tax(cart, taxPercent), Total(cart, taxPercent), pay, amountPaid,
                           if change > 0.0 then change else 0.0, Map(ToSaleItem, cart)))
  }

  /** When confirm is enabled, a cash sale's recorded change is exactly what
      was handed over beyond the total, so paid minus change is the total. */
  lemma CashSaleBalances(user: Option<Shifts.User>, cart: seq<CartLine>, amountPaid: real, taxPercent: real)
    requires !ConfirmDisabled(Sales.Cash, amountPaid, Total(cart, taxPercent))
    requires Checkout(user, true, cart, Sales.Cash, amountPaid, taxPercent).Some?
    ensures var d := Checkout(user, true, cart, Sales.Cash, amountPaid, taxPercent).value;
      d.change >= 0.0 && d.paid - d.change == d.total
  {
  }

  /** The cashier's screen state: the cart being built, the payment method
      chosen, the amount handed over and the last sale for the receipt. */
  datatype Screen = Screen(
    cart: seq<CartLine>,
    paymentMethod: Sales.PaymentMethod,
    amountPaid: real,
    lastSale: Option<Sales.Sale>)

  /** `handlePayment`: without a user, an active shift or a cart line nothing
      happens; otherwise the cart is recorded as a sale in the shop, the sale
      is kept for the receipt, and the cart and amount paid are cleared. */
  method HandlePayment(shop: Store.Shop, screen: Screen, user: Option<Shifts.User>, taxPercent: real,
                       saleId: string, date: string, kdsId: string) returns (next: Screen)
    modifies shop
    ensures Checkout(user, old(shop.Active()).Some?, screen.cart, screen.paymentMethod, screen.amountPaid, taxPercent).None? ==>
      next == screen && shop.Lists() == old(shop.Lists())
    ensures Checkout(user, old(shop.Active()).Some?, screen.cart, screen.paymentMethod, screen.amountPaid, taxPercent).Some? ==>
      var d := Checkout(user, old(shop.Active()).Some?, screen.cart, screen.paymentMethod, screen.amountPaid, taxPercent).value;
      var s := Sales.NewSale(d, saleId, |old(shop.sales)|, date, old(shop.Active()).value.id);
      next == screen.(cart := [], amountPaid := 0.0, lastSale := Some(s))
      && shop.Lists() == old(shop.Lists()).(sales := old(shop.sales) + [s],
                                            products := Sales.Restock(old(shop.products), d.items, Sales.Take),
                                            kdsOrders := old(shop.kdsOrders)
                                                         + Store.Raised(Sales.KitchenOrder(old(shop.products), s, kdsId, date)))
      && shop.Active().Some? && shop.Active().value.id == old(shop.Active()).value.id
      && shop.Active().value.totalSales == old(shop.Active()).value.totalSales + d.total
    ensures old(shop.Valid()) ==> shop.Valid()
  {
    var active := shop.Active();
    if active.None? {
      return screen;
    }
    var d := Checkout(user, true, screen.cart, screen.paymentMethod, screen.amountPaid, taxPercent);
    if d.None? {
      return screen;
    }
    var r := shop.AddSale(d.value, saleId, date, kdsId);
    assert r.Success?;
    next := screen.(cart := [], amountPaid := 0.0, lastSale := Some(r.value));
  }
}
