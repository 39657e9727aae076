/** The retail part of the data provider in hooks/useData.tsx: the product
    catalogue, sales, kitchen orders, shifts and cash movements, each a list
    the provider replaces operation by operation. */
module Store {
  import opened Collections
  import Catalog
  import Kitchen
  import Sales
  import Shifts

  const NoShiftForSale := "Cannot make a sale without an active shift."
  const NotVoidable := "Sale cannot be voided."

  /** All of the provider's retail lists at one moment. */
  datatype Snapshot = Snapshot(
    products: seq<Catalog.Product>,
    categories: seq<Catalog.Category>,
    units: seq<Catalog.UnitOfMeasure>,
    sales: seq<Sales.Sale>,
    kdsOrders: seq<Kitchen.KdsOrder>,
    shifts: seq<Shifts.Shift>,
    cashMovements: seq<Shifts.CashMovement>)

  function Raised(order: Option<Kitchen.KdsOrder>): seq<Kitchen.KdsOrder>
  {
    match order
    case None => []
    case Some(o) => [o]
  }

  function Done<T>(o: Outcome<T>): Outcome<()>
  {
    match o
    case Success(_) => Success(())
    case Failure(m) => Failure(m)
  }

  class Shop {
    var products: seq<Catalog.Product>
    var categories: seq<Catalog.Category>
    var units: seq<Catalog.UnitOfMeasure>
    var sales: seq<Sales.Sale>
    var kdsOrders: seq<Kitchen.KdsOrder>
    var shifts: seq<Shifts.Shift>
    var cashMovements: seq<Shifts.CashMovement>

    constructor (products0: seq<Catalog.Product>, categories0: seq<Catalog.Category>, units0: seq<Catalog.UnitOfMeasure>)
      ensures Lists() == Snapshot(products0, categories0, units0, [], [], [], [])
    {
      products, categories, units := products0, categories0, units0;
      sales, kdsOrders, shifts, cashMovements := [], [], [], [];
    }

    function Lists(): Snapshot
      reads this
    {
      Snapshot(products, categories, units, sales, kdsOrders, shifts, cashMovements)
    }

    /** `activeShift`. */
    function Active(): Option<Shifts.Shift>
      reads this
    {
      Shifts.ActiveShift(shifts, sales, cashMovements)
    }

    /** What the provider's guards keep: at most one open shift, unique
        product ids, distinct SKUs and names, and known categories and units. */
    predicate Valid()
      reads this
    {
      Shifts.AtMostOneOpen(shifts) && Catalog.UniqueIds(products) && Catalog.DistinctKeys(products)
      && Catalog.References(products, categories, units)
    }

    /** The `forEach` over a sale's items that moves each item's product stock
        in place: down for a sale, up for a void. */
    method MoveStock(items: seq<Sales.SaleItem>, dir: Sales.Direction)
      modifies this
      ensures Lists() == old(Lists()).(products := Sales.Restock(old(products), items, dir))
    {
      var before := products;
      var ps := products;
      var i := 0;
      while i < |items|
        invariant 0 <= i <= |items|
        invariant ps == Sales.Restock(before, items[..i], dir)
        modifies {}
      {
        var item := items[i];
        Sales.RestockStep(before, items, i, dir);
        var slot := Sales.Slot(ps, item.productId);
        if slot.None? {
          Sales.AdjustMissing(ps, item, dir);
        } else {
          var k := slot.value;
          Sales.AdjustFound(ps, item, dir, k);
          ps := ps[k := ps[k].(stock := ps[k].stock + Sales.Signed(dir, item.qty))];
        }
        i := i + 1;
      }
      assert items[..|items|] == items;
      products := ps;
    }

    /** `addSale`: refused without an active shift; otherwise the sale is
        recorded under that shift with the next invoice number, its items'
        stock is taken, and a kitchen order is raised when any item is for
        the kitchen. The active shift's totals then include the sale. */
    method AddSale(draft: Sales.SaleDraft, id: string, date: string, kdsId: string) returns (r: Outcome<Sales.Sale>)
      modifies this
      ensures old(Active()).None? ==> r == Failure(NoShiftForSale) && Lists() == old(Lists())
      ensures old(Active()).Some? ==>
        var s := Sales.NewSale(draft, id, |old(sales)|, date, old(Active()).value.id);
        r == Success(s)
        && Lists() == old(Lists()).(sales := old(sales) + [s],
                                    products := Sales.Restock(old(products), draft.items, Sales.Take),
                                    kdsOrders := old(kdsOrders) + Raised(Sales.KitchenOrder(old(products), s, kdsId, date)))
      ensures old(Active()).Some? ==>
        Active().Some? && Active().value.id == old(Active()).value.id
        && Active().value.totalSales == old(Active()).value.totalSales + draft.total
        && Active().value.expectedCash
           == old(Active()).value.expectedCash + (if draft.paymentMethod == Sales.Cash then draft.total else 0.0)
      ensures old(Valid()) ==> Valid()
    {
      var active := Active();
      if active.None? {
        return Failure(NoShiftForSale);
      }
      var s := Sales.NewSale(draft, id, |sales|, date, active.value.id);
      var order := Sales.KitchenOrder(products, s, kdsId, date);
      Shifts.SaleCountsInActiveShift(shifts, sales, cashMovements, s);
      Sales.RestockKeepsCatalog(products, s.items, Sales.Take, categories, units);
      sales := sales + [s];
      MoveStock(s.items, Sales.Take);
      kdsOrders := kdsOrders + Raised(order);
      r := Success(s);
    }

    /** `voidSale`: refused unless the sale exists and is COMPLETED; otherwise
        it is VOIDED with the reason noted and its items' stock given back.
        The active shift's figures do not change. */
    method VoidSale(saleId: string, reason: string) returns (r: Outcome<()>)
      modifies this
      ensures Sales.Voidable(old(sales), saleId).None? ==> r == Failure(NotVoidable) && Lists() == old(Lists())
      ensures Sales.Voidable(old(sales), saleId).Some? ==>
        r == Success(())
        && Lists() == old(Lists()).(sales := Sales.VoidSales(old(sales), saleId, reason),
                                    products := Sales.Restock(old(products), Sales.Voidable(old(sales), saleId).value.items, Sales.GiveBack))
      ensures Active() == old(Active())
      ensures old(Valid()) ==> Valid()
    {
      var sale := Sales.Voidable(sales, saleId);
      if sale.None? {
        return Failure(NotVoidable);
      }
      Shifts.VoidKeepsActiveShift(shifts, sales, cashMovements, saleId, reason);
      Sales.RestockKeepsCatalog(products, sale.value.items, Sales.GiveBack, categories, units);
      sales := Sales.VoidSales(sales, saleId, reason);
      MoveStock(sale.value.items, Sales.GiveBack);
      r := Success(());
    }

    method UpdateKdsOrderStatus(orderId: string, status: Kitchen.KdsStatus)
      modifies this
      ensures Lists() == old(Lists()).(kdsOrders := Kitchen.UpdateOrderStatus(old(kdsOrders), orderId, status))
    {
      kdsOrders := Kitchen.UpdateOrderStatus(kdsOrders, orderId, status);
    }

    method UpdateKdsItemStatus(orderId: string, itemId: string, status: Kitchen.KdsStatus)
      modifies this
      ensures Lists() == old(Lists()).(kdsOrders := Kitchen.UpdateItemStatus(old(kdsOrders), orderId, itemId, status))
    {
      kdsOrders := Kitchen.UpdateItemStatus(kdsOrders, orderId, itemId, status);
    }

    // ---- shifts ----

    /** `startShift`: appends the new shift when allowed; at most one shift
        stays open. */
    method StartShift(user: Option<Shifts.User>, startCash: real, id: string, now: int) returns (r: Outcome<Shifts.Shift>)
      modifies this
      ensures r == Shifts.StartShift(old(shifts), old(sales), old(cashMovements), user, startCash, id, now)
      ensures r.Failure? ==> Lists() == old(Lists())
      ensures r.Success? ==> Lists() == old(Lists()).(shifts := old(shifts) + [r.value])
      ensures old(Valid()) ==> Valid()
    {
      r := Shifts.StartShift(shifts, sales, cashMovements, user, startCash, id, now);
      if r.Success? {
        Shifts.StartShiftKeepsOneOpen(shifts, sales, cashMovements, user, startCash, id, now);
        shifts := shifts + [r.value];
      }
    }

    /** `endShift`: replaces the open shift by its closed, reconciled record;
        afterwards no shift is open. */
    method EndShift(endCash: real, notes: string, now: int) returns (r: Outcome<Shifts.Shift>)
      modifies this
      ensures r == Shifts.EndShift(old(shifts), old(sales), old(cashMovements), endCash, notes, now)
      ensures r.Failure? ==> Lists() == old(Lists())
      ensures r.Success? ==> Lists() == old(Lists()).(shifts := Shifts.CloseShift(old(shifts), r.value))
      ensures old(Valid()) ==> Valid() && Active().None?
    {
      r := Shifts.EndShift(shifts, sales, cashMovements, endCash, notes, now);
      if r.Success? {
        if Shifts.AtMostOneOpen(shifts) {
          Shifts.EndShiftClosesTill(shifts, sales, cashMovements, endCash, notes, now);
        }
        shifts := Shifts.CloseShift(shifts, r.value);
      }
    }

    /** `addCashMovement`: records the movement under the open shift, whose
        expected cash then moves by its amount. */
    method AddCashMovement(kind: Shifts.MovementType, amount: real, notes: string, id: string, now: int) returns (r: Outcome<()>)
      modifies this
      ensures var m := Shifts.AddCashMovement(old(shifts), old(sales), old(cashMovements), kind, amount, notes, id, now);
        r == Done(m)
        && (m.Failure? ==> Lists() == old(Lists()))
        && (m.Success? ==> Lists() == old(Lists()).(cashMovements := old(cashMovements) + [m.value]))
      ensures r.Success? ==>
        Active().Some? && Active().value.id == old(Active()).value.id
        && Active().value.expectedCash == old(Active()).value.expectedCash + (if kind == Shifts.In then amount else -amount)
      ensures old(Valid()) ==> Valid()
    {
      var m := Shifts.AddCashMovement(shifts, sales, cashMovements, kind, amount, notes, id, now);
      r := Done(m);
      if m.Success? {
        Shifts.MovementMovesExpectedCash(shifts, sales, cashMovements, kind, amount, notes, id, now);
        ghost var after := Shifts.ActiveShift(shifts, sales, cashMovements + [m.value]);
        cashMovements := cashMovements + [m.value];
        assert Active() == after;
        assert Lists() == old(Lists()).(cashMovements := old(cashMovements) + [m.value]);
      }
    }

    // ---- the catalogue ----

    method AddProduct(data: Catalog.Product, newId: string) returns (r: Outcome<()>)
      modifies this
      ensures var o := Catalog.AddProduct(old(products), categories, units, data, newId);
        r == Done(o)
        && (o.Failure? ==> Lists() == old(Lists()))
        && (o.Success? ==> Lists() == old(Lists()).(products := o.value))
      ensures old(Valid()) && (forall i :: 0 <= i < |old(products)| ==> old(products)[i].id != newId) ==> Valid()
    {
      var o := Catalog.AddProduct(products, categories, units, data, newId);
      r := Done(o);
      if o.Success? {
        if Valid() {
          Catalog.AddProductKeepsCatalog(products, categories, units, data, newId);
        }
        products := o.value;
      }
    }

    /** `updateProduct`: keeps ids unique and SKUs and names distinct, but not
        necessarily the product's category and unit known. */
    method UpdateProduct(updated: Catalog.Product) returns (r: Outcome<()>)
      modifies this
      ensures var o := Catalog.UpdateProduct(old(products), updated);
        r == Done(o)
        && (o.Failure? ==> Lists() == old(Lists()))
        && (o.Success? ==> Lists() == old(Lists()).(products := o.value))
      ensures old(Valid()) ==> Shifts.AtMostOneOpen(shifts) && Catalog.UniqueIds(products) && Catalog.DistinctKeys(products)
    {
      var o := Catalog.UpdateProduct(products, updated);
      r := Done(o);
      if o.Success? {
        if Valid() {
          Catalog.UpdateProductKeepsKeys(products, updated);
        }
        products := o.value;
      }
    }

    method AddCategory(name: string, newId: string)
      modifies this
      ensures Lists() == old(Lists()).(categories := Catalog.AddCategory(old(categories), name, newId))
      ensures old(Valid()) ==> Valid()
    {
      if Valid() {
        Catalog.EditsKeepReferences(products, categories, units, newId, name, 0, newId);
      }
      categories := Catalog.AddCategory(categories, name, newId);
    }

    method UpdateCategory(id: string, name: string)
      modifies this
      ensures Lists() == old(Lists()).(categories := Catalog.UpdateCategory(old(categories), id, name))
      ensures old(Valid()) ==> Valid()
    {
      if Valid() {
        Catalog.EditsKeepReferences(products, categories, units, id, name, 0, id);
      }
      categories := Catalog.UpdateCategory(categories, id, name);
    }

    method DeleteCategory(id: string) returns (r: Outcome<()>)
      modifies this
      ensures var o := Catalog.DeleteCategory(products, old(categories), id);
        r == Done(o)
        && (o.Failure? ==> Lists() == old(Lists()))
        && (o.Success? ==> Lists() == old(Lists()).(categories := o.value))
      ensures old(Valid()) ==> Valid()
    {
      var o := Catalog.DeleteCategory(products, categories, id);
      r := Done(o);
      if o.Success? {
        if Valid() {
          Catalog.DeleteKeepsReferences(products, categories, units, id);
        }
        categories := o.value;
      }
    }

    method AddUnit(name: string, precision: int, newId: string)
      modifies this
      ensures Lists() == old(Lists()).(units := Catalog.AddUnit(old(units), name, precision, newId))
      ensures old(Valid()) ==> Valid()
    {
      if Valid() {
        Catalog.EditsKeepReferences(products, categories, units, newId, name, precision, newId);
      }
      units := Catalog.AddUnit(units, name, precision, newId);
    }

    method UpdateUnit(id: string, name: string, precision: int)
      modifies this
      ensures Lists() == old(Lists()).(units := Catalog.UpdateUnit(old(units), id, name, precision))
      ensures old(Valid()) ==> Valid()
    {
      if Valid() {
        Catalog.EditsKeepReferences(products, categories, units, id, name, precision, id);
      }
      units := Catalog.UpdateUnit(units, id, name, precision);
    }

    method DeleteUnit(id: string) returns (r: Outcome<()>)
      modifies this
      ensures var o := Catalog.DeleteUnit(products, old(units), id);
        r == Done(o)
        && (o.Failure? ==> Lists() == old(Lists()))
        && (o.Success? ==> Lists() == old(Lists()).(units := o.value))
      ensures old(Valid()) ==> Valid()
    {
      var o := Catalog.DeleteUnit(products, units, id);
      r := Done(o);
      if o.Success? {
        if Valid() {
          Catalog.DeleteKeepsReferences(products, categories, units, id);
        }
        units := o.value;
      }
    }
  }
}
