/** The product catalogue of hooks/useData.tsx:206-281: products with their
    SKU/name/negative-value/reference guards, and categories and units of
    measure that cannot be deleted while a product uses them. Each operation
    takes the provider's lists and answers with the new list or a refusal. */
module Catalog {
  import opened Collections
  import opened Text

  datatype Product = Product(
    id: string,
    sku: string,
    barcode: Option<string>,
    name: string,
    categoryId: string,
    unitId: string,
    price: real,
    cost: real,
    stock: int,
    minStock: int,
    isActive: bool,
    isKitchen: bool,
    isFnb: bool)

  datatype Category = Category(id: string, name: string)

  datatype UnitOfMeasure = UnitOfMeasure(id: string, name: string, precision: int)

  const SkuTaken := "A product with this SKU already exists."
  const NameTaken := "A product with this name already exists."
  const NegativeValue := "Price, cost, and stock values cannot be negative."
  const BadCategory := "Invalid category selected."
  const BadUnit := "Invalid unit selected."
  const CategoryInUse := "Cannot delete category in use."
  const UnitInUse := "Cannot delete unit in use."

  /** Some product other than the one with id `except` has this SKU, ignoring case. */
  predicate SkuClash(products: seq<Product>, sku: string, except: Option<string>)
  {
    exists i :: 0 <= i < |products| && Some(products[i].id) != except && Lower(products[i].sku) == Lower(sku)
  }

  predicate NameClash(products: seq<Product>, name: string, except: Option<string>)
  {
    exists i :: 0 <= i < |products| && Some(products[i].id) != except && Lower(products[i].name) == Lower(name)
  }

  predicate HasNegative(p: Product)
  {
    p.price < 0.0 || p.cost < 0.0 || p.stock < 0 || p.minStock < 0
  }

  predicate KnownCategory(categories: seq<Category>, id: string)
  {
    exists i :: 0 <= i < |categories| && categories[i].id == id
  }

  predicate KnownUnit(units: seq<UnitOfMeasure>, id: string)
  {
    exists i :: 0 <= i < |units| && units[i].id == id
  }

  /** `addProduct`: the first failing guard, in the source's order, refuses;
      otherwise the product is appended under the fresh id. */
  function AddProduct(products: seq<Product>, categories: seq<Category>, units: seq<UnitOfMeasure>,
                      data: Product, newId: string): (r: Outcome<seq<Product>>)
    ensures r.Success? <==> !SkuClash(products, data.sku, None) && !NameClash(products, data.name, None)
                            && !HasNegative(data) && KnownCategory(categories, data.categoryId) && KnownUnit(units, data.unitId)
    ensures r.Success? ==> r.value == products + [data.(id := newId)]
    ensures SkuClash(products, data.sku, None) ==> r == Failure(SkuTaken)
    ensures !SkuClash(products, data.sku, None) && NameClash(products, data.name, None) ==> r == Failure(NameTaken)
    ensures !SkuClash(products, data.sku, None) && !NameClash(products, data.name, None) && HasNegative(data)
      ==> r == Failure(NegativeValue)
    ensures (!SkuClash(products, data.sku, None) && !NameClash(products, data.name, None) && !HasNegative(data)
             && !KnownCategory(categories, data.categoryId))
      ==> r == Failure(BadCategory)
    ensures (!SkuClash(products, data.sku, None) && !NameClash(products, data.name, None) && !HasNegative(data)
             && KnownCategory(categories, data.categoryId) && !KnownUnit(units, data.unitId))
      ==> r == Failure(BadUnit)
  {
    if SkuClash(products, data.sku, None) then Failure(SkuTaken)
    else if NameClash(products, data.name, None) then Failure(NameTaken)
    else if HasNegative(data) then Failure(NegativeValue)
    else if !KnownCategory(categories, data.categoryId) then Failure(BadCategory)
    else if !KnownUnit(units, data.unitId) then Failure(BadUnit)
    else Success(products + [data.(id := newId)])
  }

  function Replace(products: seq<Product>, updated: Product): (r: seq<Product>)
    ensures |r| == |products|
    ensures forall i :: 0 <= i < |products| ==> r[i] == if products[i].id == updated.id then updated else products[i]
  {
    Map((p: Product) => if p.id == updated.id then updated else p, products)
  }

  /** `updateProduct`: SKU and name must not clash with another product and no
      value may be negative; the category and unit are not re-checked. */
  function UpdateProduct(products: seq<Product>, updated: Product): (r: Outcome<seq<Product>>)
    ensures r.Success? <==> !SkuClash(products, updated.sku, Some(updated.id))
                            && !NameClash(products, updated.name, Some(updated.id)) && !HasNegative(updated)
    ensures r.Success? ==> r.value == Replace(products, updated)
    ensures SkuClash(products, updated.sku, Some(updated.id)) ==> r == Failure(SkuTaken)
    ensures !SkuClash(products, updated.sku, Some(updated.id)) && NameClash(products, updated.name, Some(updated.id))
      ==> r == Failure(NameTaken)
    ensures (!SkuClash(products, updated.sku, Some(updated.id)) && !NameClash(products, updated.name, Some(updated.id))
             && HasNegative(updated))
      ==> r == Failure(NegativeValue)
  {
    if SkuClash(products, updated.sku, Some(updated.id)) then Failure(SkuTaken)
    else if NameClash(products, updated.name, Some(updated.id)) then Failure(NameTaken)
    else if HasNegative(updated) then Failure(NegativeValue)
    else Success(Replace(products, updated))
  }

  // ---- catalogue invariants ----

  predicate UniqueIds(products: seq<Product>)
  {
    forall i, j :: 0 <= i < j < |products| ==> products[i].id != products[j].id
  }

  /** No two products share a SKU or a name, ignoring case. */
  predicate DistinctKeys(products: seq<Product>)
  {
    forall i, j :: 0 <= i < j < |products| ==>
      Lower(products[i].sku) != Lower(products[j].sku) && Lower(products[i].name) != Lower(products[j].name)
  }

  /** Every product names an existing category and unit. */
  predicate References(products: seq<Product>, categories: seq<Category>, units: seq<UnitOfMeasure>)
  {
    forall i :: 0 <= i < |products| ==> KnownCategory(categories, products[i].categoryId) && KnownUnit(units, products[i].unitId)
  }

  predicate NonNegative(products: seq<Product>)
  {
    forall i :: 0 <= i < |products| ==> !HasNegative(products[i])
  }

  /** A successful `addProduct` keeps SKUs and names distinct, references
      valid and values non-negative if they were, and with a fresh id keeps
      ids unique. */
  lemma AddProductKeepsCatalog(products: seq<Product>, categories: seq<Category>, units: seq<UnitOfMeasure>,
                               data: Product, newId: string)
    requires AddProduct(products, categories, units, data, newId).Success?
    requires DistinctKeys(products) && References(products, categories, units)
    ensures var r := AddProduct(products, categories, units, data, newId).value;
      DistinctKeys(r) && References(r, categories, units)
    ensures NonNegative(products) ==> NonNegative(AddProduct(products, categories, units, data, newId).value)
    ensures UniqueIds(products) && (forall i :: 0 <= i < |products| ==> products[i].id != newId)
      ==> UniqueIds(AddProduct(products, categories, units, data, newId).value)
  {
    var r := products + [data.(id := newId)];
    forall i, j | 0 <= i < j < |r|
      ensures Lower(r[i].sku) != Lower(r[j].sku) && Lower(r[i].name) != Lower(r[j].name)
    {
      if j == |products| {
        assert !(Some(products[i].id) != None && Lower(products[i].sku) == Lower(data.sku));
        assert !(Some(products[i].id) != None && Lower(products[i].name) == Lower(data.name));
      }
    }
  }

  /** A successful `updateProduct` keeps SKUs and names distinct and ids
      unique, and values non-negative if they were. */
  lemma UpdateProductKeepsKeys(products: seq<Product>, updated: Product)
    requires UpdateProduct(products, updated).Success?
    requires UniqueIds(products) && DistinctKeys(products)
    ensures DistinctKeys(UpdateProduct(products, updated).value)
    ensures NonNegative(products) ==> NonNegative(UpdateProduct(products, updated).value)
    ensures UniqueIds(UpdateProduct(products, updated).value)
  {
    var r := Replace(products, updated);
    forall i, j | 0 <= i < j < |r|
      ensures Lower(r[i].sku) != Lower(r[j].sku) && Lower(r[i].name) != Lower(r[j].name)
      ensures r[i].id != r[j].id
    {
      if products[i].id == updated.id {
        assert products[j].id != updated.id;
        assert !(Some(products[j].id) != Some(updated.id) && Lower(products[j].sku) == Lower(updated.sku));
        assert !(Some(products[j].id) != Some(updated.id) && Lower(products[j].name) == Lower(updated.name));
      } else if products[j].id == updated.id {
        assert !(Some(products[i].id) != Some(updated.id) && Lower(products[i].sku) == Lower(updated.sku));
        assert !(Some(products[i].id) != Some(updated.id) && Lower(products[i].name) == Lower(updated.name));
      }
    }
  }

  /** The update does not re-check references: a product moved to a missing
      category is accepted. */
  lemma UpdateProductSkipsReferenceCheck(p: Product, categories: seq<Category>, units: seq<UnitOfMeasure>, missing: string)
    requires References([p], categories, units) && !HasNegative(p)
    requires forall k :: 0 <= k < |categories| ==> categories[k].id != missing
    ensures UpdateProduct([p], p.(categoryId := missing)).Success?
    ensures !References(UpdateProduct([p], p.(categoryId := missing)).value, categories, units)
  {
    var moved := p.(categoryId := missing);
    assert !SkuClash([p], moved.sku, Some(moved.id));
    assert !NameClash([p], moved.name, Some(moved.id));
    assert Replace([p], moved) == [moved];
  }

  // ---- categories ----

  function AddCategory(categories: seq<Category>, name: string, newId: string): (r: seq<Category>)
    ensures r == categories + [Category(newId, name)]
  {
    categories + [Category(newId, name)]
  }

  /** `updateCategory`: renames every category with this id. */
  function UpdateCategory(categories: seq<Category>, id: string, name: string): (r: seq<Category>)
    ensures |r| == |categories|
    ensures forall i :: 0 <= i < |r| ==> r[i].id == categories[i].id
    ensures forall i :: 0 <= i < |r| ==> r[i].name == if categories[i].id == id then name else categories[i].name
  {
    Map((c: Category) => if c.id == id then c.(name := name) else c, categories)
  }

  predicate CategoryUsed(products: seq<Product>, id: string)
  {
    exists i :: 0 <= i < |products| && products[i].categoryId == id
  }

  /** `deleteCategory`: refused while a product uses it; otherwise every
      category with this id goes and the others stay in order. */
  function DeleteCategory(products: seq<Product>, categories: seq<Category>, id: string): (r: Outcome<seq<Category>>)
    ensures r.Failure? <==> CategoryUsed(products, id)
    ensures r.Failure? ==> r.message == CategoryInUse
    ensures r.Success? ==> (forall i :: 0 <= i < |r.value| ==> r.value[i].id != id)
                           && (forall i :: 0 <= i < |categories| && categories[i].id != id ==> categories[i] in r.value)
                           && IsSubsequence(r.value, categories)
                           && (forall c :: multiset(r.value)[c] == if c.id != id then multiset(categories)[c] else 0)
  {
    if CategoryUsed(products, id) then Failure(CategoryInUse)
    else
      FilterIsSubsequence((c: Category) => c.id != id, categories);
      FilterCounts((c: Category) => c.id != id, categories);
      Success(Filter((c: Category) => c.id != id, categories))
  }

  // ---- units of measure ----

  function AddUnit(units: seq<UnitOfMeasure>, name: string, precision: int, newId: string): (r: seq<UnitOfMeasure>)
    ensures r == units + [UnitOfMeasure(newId, name, precision)]
  {
    units + [UnitOfMeasure(newId, name, precision)]
  }

  function UpdateUnit(units: seq<UnitOfMeasure>, id: string, name: string, precision: int): (r: seq<UnitOfMeasure>)
    ensures |r| == |units|
    ensures forall i :: 0 <= i < |r| ==> r[i] == if units[i].id == id then UnitOfMeasure(id, name, precision) else units[i]
  {
    Map((u: UnitOfMeasure) => if u.id == id then u.(name := name, precision := precision) else u, units)
  }

  predicate UnitUsed(products: seq<Product>, id: string)
  {
    exists i :: 0 <= i < |products| && products[i].unitId == id
  }

  function DeleteUnit(products: seq<Product>, units: seq<UnitOfMeasure>, id: string): (r: Outcome<seq<UnitOfMeasure>>)
    ensures r.Failure? <==> UnitUsed(products, id)
    ensures r.Failure? ==> r.message == UnitInUse
    ensures r.Success? ==> (forall i :: 0 <= i < |r.value| ==> r.value[i].id != id)
                           && (forall i :: 0 <= i < |units| && units[i].id != id ==> units[i] in r.value)
                           && IsSubsequence(r.value, units)
                           && (forall u :: multiset(r.value)[u] == if u.id != id then multiset(units)[u] else 0)
  {
    if UnitUsed(products, id) then Failure(UnitInUse)
    else
      FilterIsSubsequence((u: UnitOfMeasure) => u.id != id, units);
      FilterCounts((u: UnitOfMeasure) => u.id != id, units);
      Success(Filter((u: UnitOfMeasure) => u.id != id, units))
  }

  /** Adding, renaming or re-precisioning a category or unit keeps every
      product's category and unit known. */
  lemma EditsKeepReferences(products: seq<Product>, categories: seq<Category>, units: seq<UnitOfMeasure>,
                            id: string, name: string, precision: int, newId: string)
    requires References(products, categories, units)
    ensures References(products, AddCategory(categories, name, newId), units)
    ensures References(products, UpdateCategory(categories, id, name), units)
    ensures References(products, categories, AddUnit(units, name, precision, newId))
    ensures References(products, categories, UpdateUnit(units, id, name, precision))
  {
    forall i | 0 <= i < |products|
      ensures KnownCategory(AddCategory(categories, name, newId), products[i].categoryId)
      ensures KnownCategory(UpdateCategory(categories, id, name), products[i].categoryId)
      ensures KnownUnit(AddUnit(units, name, precision, newId), products[i].unitId)
      ensures KnownUnit(UpdateUnit(units, id, name, precision), products[i].unitId)
    {
      var c :| 0 <= c < |categories| && categories[c].id == products[i].categoryId;
      var u :| 0 <= u < |units| && units[u].id == products[i].unitId;
      assert AddCategory(categories, name, newId)[c] == categories[c];
      assert UpdateCategory(categories, id, name)[c].id == categories[c].id;
      assert AddUnit(units, name, precision, newId)[u] == units[u];
      assert UpdateUnit(units, id, name, precision)[u].id == units[u].id;
    }
  }

  /** Because deletion is refused while in use, deleting a category or unit
      never leaves a product pointing at nothing. */
  lemma DeleteKeepsReferences(products: seq<Product>, categories: seq<Category>, units: seq<UnitOfMeasure>, id: string)
    requires References(products, categories, units)
    ensures DeleteCategory(products, categories, id).Success? ==>
      References(products, DeleteCategory(products, categories, id).value, units)
    ensures DeleteUnit(products, units, id).Success? ==>
      References(products, categories, DeleteUnit(products, units, id).value)
  {
    if DeleteCategory(products, categories, id).Success? {
      var kept := DeleteCategory(products, categories, id).value;
      forall i | 0 <= i < |products| ensures KnownCategory(kept, products[i].categoryId) {
        assert KnownCategory(categories, products[i].categoryId);
        var k :| 0 <= k < |categories| && categories[k].id == products[i].categoryId;
        assert products[i].categoryId != id;
        var m :| 0 <= m < |kept| && kept[m] == categories[k];
      }
    }
    if DeleteUnit(products, units, id).Success? {
      var kept := DeleteUnit(products, units, id).value;
      forall i | 0 <= i < |products| ensures KnownUnit(kept, products[i].unitId) {
        assert KnownUnit(units, products[i].unitId);
        var k :| 0 <= k < |units| && units[k].id == products[i].unitId;
        assert products[i].unitId != id;
        var m :| 0 <= m < |kept| && kept[m] == units[k];
      }
    }
  }
}
