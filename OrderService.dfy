/** The order-placement service: it looks the customer up, fetches the
    requested products in one batch, reconciles them with the request, writes
    the new product quantities and then records the order. The three repositories
    the service uses are in-memory stores held by the service object. */
module OrderService {
  import opened Reconciliation

  /** A recorded order: the customer and its line items. */
  datatype Order = Order(customerId: string, items: seq<LineItem>)

  /** No product id occurs twice in the request. */
  predicate DistinctIds(requested: seq<RequestedItem>)
  {
    forall i, j :: 0 <= i < j < |requested| ==> requested[i].id != requested[j].id
  }

  /** No product occurs twice in a list of products. */
  predicate DistinctProducts(ps: seq<Product>)
  {
    forall i, j :: 0 <= i < j < |ps| ==> ps[i].id != ps[j].id
  }

  /** Every requested product exists in the catalog. */
  predicate AllKnown(table: map<string, Product>, requested: seq<RequestedItem>)
  {
    forall j :: 0 <= j < |requested| ==> requested[j].id in table
  }

  /** Every requested product that exists has stock for its requested quantity. */
  predicate InStock(table: map<string, Product>, requested: seq<RequestedItem>)
  {
    forall j :: 0 <= j < |requested| && requested[j].id in table ==>
      requested[j].quantity <= table[requested[j].id].quantity
  }

  /** Each catalog entry is stored under its own id. */
  predicate WellKeyed(table: map<string, Product>)
  {
    forall id :: id in table ==> table[id].id == id
  }

  /** `found` is an answer the batched lookup may give: each catalog product
      whose id is requested, once, in no promised order. */
  ghost predicate IsLookupResult(table: map<string, Product>, requested: seq<RequestedItem>, found: seq<Product>)
  {
    DistinctProducts(found) &&
    (forall i :: 0 <= i < |found| ==> found[i].id in table && table[found[i].id] == found[i]) &&
    Elems(ProductIds(found)) == Elems(RequestIds(requested)) * table.Keys
  }

  /** The line item a request entry becomes: catalog price and pre-sale stock. */
  function SaleLine(table: map<string, Product>, item: RequestedItem): LineItem
    requires item.id in table
  {
    LineItem(item.id, table[item.id].price, item.quantity, table[item.id].quantity)
  }

  /** The line items of a request, in request order. */
  function ExpectedItems(table: map<string, Product>, requested: seq<RequestedItem>): seq<LineItem>
    requires AllKnown(table, requested)
  {
    seq(|requested|, j requires 0 <= j < |requested| => SaleLine(table, requested[j]))
  }

  /** `items` holds one line item per request entry, in some order. */
  ghost predicate IsSaleOf(table: map<string, Product>, requested: seq<RequestedItem>, items: seq<LineItem>)
  {
    AllKnown(table, requested) && multiset(items) == multiset(ExpectedItems(table, requested))
  }

  /** `after` is `before` with the quantity of every requested product
      decreased by its requested quantity and every other product untouched. */
  ghost predicate IsStockAfterSale(before: map<string, Product>, requested: seq<RequestedItem>, after: map<string, Product>)
  {
    AllKnown(before, requested) && after.Keys == before.Keys &&
    (forall j :: 0 <= j < |requested| ==>
       after[requested[j].id] ==
         before[requested[j].id].(quantity := before[requested[j].id].quantity - requested[j].quantity)) &&
    (forall id :: id in before && (forall j :: 0 <= j < |requested| ==> requested[j].id != id) ==>
       after[id] == before[id])
  }

  /** Saving a list of products one after the other: each replaces the entry
      under its id. */
  function ApplyUpdates(table: map<string, Product>, updates: seq<Product>): map<string, Product>
    decreases |updates|
  {
    if updates == [] then table
    else ApplyUpdates(table[updates[0].id := updates[0]], updates[1..])
  }

  /** With distinct ids the result of saving does not depend on the order:
      every saved product is stored, every other entry is as before. */
  lemma {:induction false} ApplyDistinctUpdates(table: map<string, Product>, updates: seq<Product>)
    requires DistinctProducts(updates)
    decreases |updates|
    ensures forall i :: 0 <= i < |updates| ==>
              updates[i].id in ApplyUpdates(table, updates) &&
              ApplyUpdates(table, updates)[updates[i].id] == updates[i]
    ensures forall id :: (forall i :: 0 <= i < |updates| ==> updates[i].id != id) ==>
              (id in ApplyUpdates(table, updates) <==> id in table) &&
              (id in table ==> ApplyUpdates(table, updates)[id] == table[id])
  {
    if updates != [] {
      var rest := updates[1..];
      var table' := table[updates[0].id := updates[0]];
      assert DistinctProducts(rest);
      ApplyDistinctUpdates(table', rest);
      assert forall i :: 0 <= i < |rest| ==> rest[i].id != updates[0].id;
      forall i | 0 <= i < |updates|
        ensures updates[i].id in ApplyUpdates(table, updates) &&
                ApplyUpdates(table, updates)[updates[i].id] == updates[i]
      {
        if i > 0 {
          assert updates[i] == rest[i - 1];
        }
      }
      forall id | forall i :: 0 <= i < |updates| ==> updates[i].id != id
        ensures (id in ApplyUpdates(table, updates) <==> id in table) &&
                (id in table ==> ApplyUpdates(table, updates)[id] == table[id])
      {
        assert updates[0].id != id;
        assert forall i :: 0 <= i < |rest| ==> rest[i].id == updates[i + 1].id;
      }
    }
  }

  function RequestIds(requested: seq<RequestedItem>): (r: seq<string>)
  {
    seq(|requested|, i requires 0 <= i < |requested| => requested[i].id)
  }

  function ProductIds(ps: seq<Product>): (r: seq<string>)
  {
    seq(|ps|, i requires 0 <= i < |ps| => ps[i].id)
  }

  function Elems(xs: seq<string>): set<string>
  {
    set x | x in xs
  }

  predicate Distinct(xs: seq<string>)
  {
    forall i, j :: 0 <= i < j < |xs| ==> xs[i] != xs[j]
  }

  /** A list has as many different elements as entries exactly when no
      element repeats. */
  lemma {:induction false} DistinctCard(xs: seq<string>)
    ensures |Elems(xs)| <= |xs|
    ensures |Elems(xs)| == |xs| <==> Distinct(xs)
  {
    if xs != [] {
      var rest := xs[1..];
      DistinctCard(rest);
      assert Elems(xs) == {xs[0]} + Elems(rest);
      if xs[0] in rest {
        var k :| 0 <= k < |rest| && rest[k] == xs[0];
        assert xs[k + 1] == xs[0];
        assert Elems(xs) == Elems(rest);
      } else {
        assert xs[0] !in Elems(rest);
        if Distinct(rest) {
          forall i, j | 0 <= i < j < |xs| ensures xs[i] != xs[j] {
            if i == 0 {
              assert xs[j] == rest[j - 1];
            } else {
              assert xs[i] == rest[i - 1] && xs[j] == rest[j - 1];
            }
          }
        }
        if Distinct(xs) {
          forall i, j | 0 <= i < j < |rest| ensures rest[i] != rest[j] {
            assert rest[i] == xs[i + 1] && rest[j] == xs[j + 1];
          }
        }
      }
    }
  }

  lemma SubsetCard(a: set<string>, b: set<string>)
    requires a <= b
    ensures |a| <= |b|
    ensures |a| == |b| ==> a == b
  {
    assert b == a + (b - a);
    if |a| == |b| {
      assert |b - a| == 0;
    }
  }

  /** Every found product is a catalog entry that was requested. */
  lemma RequestedOfFound(table: map<string, Product>, requested: seq<RequestedItem>, found: seq<Product>, i: int)
    requires IsLookupResult(table, requested, found) && 0 <= i < |found|
    ensures found[i].id in table && table[found[i].id] == found[i]
    ensures exists j :: 0 <= j < |requested| && requested[j].id == found[i].id
  {
    assert ProductIds(found)[i] == found[i].id;
    assert found[i].id in ProductIds(found);
    assert found[i].id in Elems(ProductIds(found));
    assert found[i].id in Elems(RequestIds(requested));
    var j :| 0 <= j < |requested| && RequestIds(requested)[j] == found[i].id;
  }

  /** Every requested id that exists in the catalog was found. */
  lemma FoundOfRequested(table: map<string, Product>, requested: seq<RequestedItem>, found: seq<Product>, j: int)
    requires IsLookupResult(table, requested, found) && 0 <= j < |requested| && requested[j].id in table
    ensures exists i :: 0 <= i < |found| && found[i].id == requested[j].id
  {
    assert RequestIds(requested)[j] == requested[j].id;
    assert requested[j].id in Elems(ProductIds(found));
    var i :| 0 <= i < |found| && ProductIds(found)[i] == requested[j].id;
  }

  /** The batched lookup finds as many products as were requested exactly
      when the requested ids are distinct and all exist: a repeated id makes
      the product list invalid even when the product exists. */
  lemma LookupLength(table: map<string, Product>, requested: seq<RequestedItem>, found: seq<Product>)
    requires IsLookupResult(table, requested, found)
    ensures |found| == |requested| <==> DistinctIds(requested) && AllKnown(table, requested)
  {
    var f, r := Elems(ProductIds(found)), Elems(RequestIds(requested));
    assert Distinct(ProductIds(found));
    DistinctCard(ProductIds(found));
    DistinctCard(RequestIds(requested));
    assert Distinct(RequestIds(requested)) <==> DistinctIds(requested) by {
      forall i | 0 <= i < |requested| ensures RequestIds(requested)[i] == requested[i].id {}
    }
    SubsetCard(f, r);
    if AllKnown(table, requested) {
      forall x | x in r ensures x in table {
        var j :| 0 <= j < |requested| && RequestIds(requested)[j] == x;
      }
      assert f == r;
    } else {
      var j :| 0 <= j < |requested| && requested[j].id !in table;
      assert RequestIds(requested)[j] in r;
      assert requested[j].id !in f;
    }
  }

  /** On a lookup result for distinct requested ids, the request entry of
      each found product is the first (and only) one for its id. */
  lemma FoundFirstMatch(table: map<string, Product>, requested: seq<RequestedItem>, found: seq<Product>, i: int)
    requires IsLookupResult(table, requested, found) && DistinctIds(requested)
    requires 0 <= i < |found|
    ensures exists j :: IsFirstMatch(requested, found[i].id, j) && found[i] == table[requested[j].id]
  {
    RequestedOfFound(table, requested, found, i);
    var j :| 0 <= j < |requested| && requested[j].id == found[i].id;
    assert IsFirstMatch(requested, found[i].id, j);
  }

  /** On a lookup result with one product per distinct, existing requested
      id, reconciliation succeeds exactly when every requested quantity is in
      stock, and otherwise fails for insufficient balance. */
  lemma ReconcileOnLookup(table: map<string, Product>, requested: seq<RequestedItem>, found: seq<Product>)
    requires IsLookupResult(table, requested, found)
    requires DistinctIds(requested) && AllKnown(table, requested) && |found| == |requested|
    ensures Reconcile(requested, found).Ok? <==> InStock(table, requested)
    ensures Reconcile(requested, found).Err? ==> Reconcile(requested, found).error == InsufficientBalance
  {
    var r := Reconcile(requested, found);
    if InStock(table, requested) {
      forall i | 0 <= i < |found| ensures ProcessOne(requested, found[i]).Ok? {
        FoundFirstMatch(table, requested, found, i);
      }
    }
    if r.Ok? {
      forall j | 0 <= j < |requested|
        ensures requested[j].quantity <= table[requested[j].id].quantity
      {
        FoundOfRequested(table, requested, found, j);
        var i :| 0 <= i < |found| && found[i].id == requested[j].id;
        RequestedOfFound(table, requested, found, i);
        assert IsFirstMatch(requested, found[i].id, j);
        assert ProcessOne(requested, found[i]).Ok?;
      }
    }
    if r.Err? {
      var n :| 0 <= n < |found| && ProcessOne(requested, found[n]) == Err(r.error);
      FoundFirstMatch(table, requested, found, n);
    }
  }

  /** No line item occurs twice. */
  predicate NoRepeatedItems(items: seq<LineItem>)
  {
    forall i, j :: 0 <= i < j < |items| ==> items[i] != items[j]
  }

  /** In a list without repetitions every element occurs once. */
  lemma {:induction false} OccursOnce(s: seq<LineItem>, x: LineItem)
    requires NoRepeatedItems(s)
    ensures multiset(s)[x] == if x in s then 1 else 0
  {
    if s != [] {
      var rest := s[1..];
      assert s == [s[0]] + rest;
      assert NoRepeatedItems(rest) by {
        forall i, j | 0 <= i < j < |rest| ensures rest[i] != rest[j] {
          assert rest[i] == s[i + 1] && rest[j] == s[j + 1];
        }
      }
      OccursOnce(rest, x);
    }
  }

  /** Two lists without repetitions that hold the same elements are
      permutations of each other. */
  lemma SameElementsPermutation(a: seq<LineItem>, b: seq<LineItem>)
    requires NoRepeatedItems(a) && NoRepeatedItems(b)
    requires forall x :: x in a <==> x in b
    ensures multiset(a) == multiset(b)
  {
    forall x ensures multiset(a)[x] == multiset(b)[x] {
      OccursOnce(a, x);
      OccursOnce(b, x);
    }
  }

  /** On success over such a lookup result, the line item and the update
      at each position are those of the request entry for that position's
      product. */
  lemma ReconciledPairs(table: map<string, Product>, requested: seq<RequestedItem>, found: seq<Product>)
    requires IsLookupResult(table, requested, found) && DistinctIds(requested)
    requires Reconcile(requested, found).Ok?
    ensures forall i, j :: 0 <= i < |found| && 0 <= j < |requested| && requested[j].id == found[i].id ==>
              requested[j].id in table &&
              Reconcile(requested, found).value.0[i] == SaleLine(table, requested[j]) &&
              Reconcile(requested, found).value.1[i] ==
                table[requested[j].id].(quantity := table[requested[j].id].quantity - requested[j].quantity)
  {
  }

  /** On success over such a lookup result, the line items are the request's
      line items in some order, and saving the updates decreases exactly the
      requested products by their requested quantities. */
  lemma SaleOnLookup(table: map<string, Product>, requested: seq<RequestedItem>, found: seq<Product>)
    requires IsLookupResult(table, requested, found)
    requires DistinctIds(requested) && AllKnown(table, requested)
    requires Reconcile(requested, found).Ok?
    ensures IsSaleOf(table, requested, Reconcile(requested, found).value.0)
    ensures IsStockAfterSale(table, requested, ApplyUpdates(table, Reconcile(requested, found).value.1))
  {
    var (items, updates) := Reconcile(requested, found).value;
    var expected := ExpectedItems(table, requested);
    ReconciledPairs(table, requested, found);
    forall i | 0 <= i < |found|
      ensures items[i].productId == found[i].id && updates[i].id == found[i].id && items[i] in expected
    {
      RequestedOfFound(table, requested, found, i);
      var j :| 0 <= j < |requested| && requested[j].id == found[i].id;
      assert expected[j] == items[i];
    }
    forall x | x in expected ensures x in items {
      var j :| 0 <= j < |requested| && expected[j] == x;
      FoundOfRequested(table, requested, found, j);
      var i :| 0 <= i < |found| && found[i].id == requested[j].id;
      assert items[i] == x;
    }
    assert NoRepeatedItems(items) by {
      forall i, k | 0 <= i < k < |items| ensures items[i] != items[k] {
        assert items[i].productId == found[i].id && items[k].productId == found[k].id;
      }
    }
    assert NoRepeatedItems(expected) by {
      forall i, k | 0 <= i < k < |expected| ensures expected[i] != expected[k] {
        assert expected[i].productId == requested[i].id && expected[k].productId == requested[k].id;
      }
    }
    SameElementsPermutation(items, expected);
    StockAfterReconcile(table, requested, found, updates);
  }

  /** Saving the reconciled updates of a lookup result decreases exactly the
      requested products. */
  lemma StockAfterReconcile(table: map<string, Product>, requested: seq<RequestedItem>, found: seq<Product>,
                            updates: seq<Product>)
    requires IsLookupResult(table, requested, found) && AllKnown(table, requested)
    requires |updates| == |found| && forall i :: 0 <= i < |found| ==> updates[i].id == found[i].id
    requires forall i, j :: 0 <= i < |found| && 0 <= j < |requested| && requested[j].id == found[i].id ==>
               updates[i] == table[requested[j].id].(quantity := table[requested[j].id].quantity - requested[j].quantity)
    ensures IsStockAfterSale(table, requested, ApplyUpdates(table, updates))
  {
    assert DistinctProducts(updates) by {
      forall i, k | 0 <= i < k < |updates| ensures updates[i].id != updates[k].id {
        assert updates[i].id == found[i].id && updates[k].id == found[k].id;
      }
    }
    ApplyDistinctUpdates(table, updates);
    var after := ApplyUpdates(table, updates);
    forall j | 0 <= j < |requested|
      ensures after[requested[j].id] ==
                table[requested[j].id].(quantity := table[requested[j].id].quantity - requested[j].quantity)
    {
      FoundOfRequested(table, requested, found, j);
      var i :| 0 <= i < |found| && found[i].id == requested[j].id;
      assert updates[i].id == requested[j].id;
    }
    forall id | id in after ensures id in table {
      if i :| 0 <= i < |updates| && updates[i].id == id {
        RequestedOfFound(table, requested, found, i);
      }
    }
    forall id | id in table && (forall j :: 0 <= j < |requested| ==> requested[j].id != id)
      ensures after[id] == table[id]
    {
      forall i | 0 <= i < |updates| ensures updates[i].id != id {
        RequestedOfFound(table, requested, found, i);
      }
    }
    assert after.Keys == table.Keys;
  }

  /** A stock table keeps every entry under its own id through a sale. */
  lemma StockAfterSaleWellKeyed(before: map<string, Product>, requested: seq<RequestedItem>, after: map<string, Product>)
    requires WellKeyed(before) && IsStockAfterSale(before, requested, after)
    ensures WellKeyed(after)
  {
  }

  /** The service with the three repositories it uses, as in-memory stores. */
  class CreateOrderService {
    /** Ids of the existing customers. */
    var customers: set<string>
    /** The product catalog, by product id. */
    var products: map<string, Product>
    /** The orders created so far, oldest first. */
    var orders: seq<Order>

    ghost predicate Valid()
      reads this
    {
      WellKeyed(products)
    }

    constructor (customers: set<string>, products: map<string, Product>)
      requires WellKeyed(products)
      ensures Valid()
      ensures this.customers == customers && this.products == products && orders == []
    {
      this.customers := customers;
      this.products := products;
      orders := [];
    }

    /** The batched product lookup: each catalog product whose id occurs in
        the request, once. Callers rely on nothing about the order. */
    method FindAllById(requested: seq<RequestedItem>) returns (found: seq<Product>)
      requires Valid()
      ensures IsLookupResult(products, requested, found)
    {
      found := [];
      var seen: set<string> := {};
      for n := 0 to |requested|
        invariant DistinctProducts(found)
        invariant forall i :: 0 <= i < |found| ==> found[i].id in products && products[found[i].id] == found[i]
        invariant seen == Elems(ProductIds(found))
        invariant seen == Elems(RequestIds(requested[..n])) * products.Keys
      {
        var id := requested[n].id;
        assert RequestIds(requested[..n + 1]) == RequestIds(requested[..n]) + [id];
        if id in products && id !in seen {
          forall i | 0 <= i < |found| ensures found[i].id != id {
            assert ProductIds(found)[i] == found[i].id;
          }
          assert ProductIds(found + [products[id]]) == ProductIds(found) + [id];
          found := found + [products[id]];
          seen := seen + {id};
        }
      }
      assert requested[..|requested|] == requested;
    }

    /** Saves the updated products, one after the other. */
    method UpdateQuantity(updates: seq<Product>)
      modifies this`products
      ensures products == ApplyUpdates(old(products), updates)
    {
      for n := 0 to |updates|
        invariant ApplyUpdates(products, updates[n..]) == ApplyUpdates(old(products), updates)
      {
        assert updates[n..][1..] == updates[n + 1..];
        products := products[updates[n].id := updates[n]];
      }
      assert updates[|updates|..] == [];
    }

    /** Records a new order for the customer with the given line items. */
    method Create(customerId: string, items: seq<LineItem>) returns (order: Order)
      modifies this`orders
      ensures order.customerId == customerId && order.items == items
      ensures orders == old(orders) + [order]
    {
      order := Order(customerId, items);
      orders := orders + [order];
    }

    /** Places an order: fails without writing anything when the customer is
        unknown, when the product list is invalid or when some product lacks
        stock; otherwise decreases the stock of exactly the requested
        products and appends one order with one line item per request entry. */
    method Execute(customerId: string, requested: seq<RequestedItem>) returns (r: Result<Order>)
      requires Valid()
      modifies this`products, this`orders
      ensures Valid()
      ensures r == Err(CustomerNotFound) <==> customerId !in customers
      ensures r == Err(InvalidProductList) <==>
                customerId in customers && !(DistinctIds(requested) && AllKnown(old(products), requested))
      ensures r == Err(InsufficientBalance) <==>
                customerId in customers && DistinctIds(requested) && AllKnown(old(products), requested) &&
                !InStock(old(products), requested)
      ensures r.Ok? <==>
                customerId in customers && DistinctIds(requested) && AllKnown(old(products), requested) &&
                InStock(old(products), requested)
      ensures r.Err? ==> products == old(products) && orders == old(orders)
      ensures r.Ok? ==> r.value.customerId == customerId && orders == old(orders) + [r.value]
      ensures r.Ok? ==> IsSaleOf(old(products), requested, r.value.items)
      ensures r.Ok? ==> IsStockAfterSale(old(products), requested, products)
    {
      if customerId !in customers {
        return Err(CustomerNotFound);
      }
      var found := FindAllById(requested);
      LookupLength(products, requested, found);
      var reconciled := Reconcile(requested, found);
      if |found| == |requested| {
        ReconcileOnLookup(products, requested, found);
      }
      if reconciled.Err? {
        return Err(reconciled.error);
      }
      SaleOnLookup(products, requested, found);
      var (items, updates) := reconciled.value;
      UpdateQuantity(updates);
      StockAfterSaleWellKeyed(old(products), requested, products);
      var order := Create(customerId, items);
      r := Ok(order);
    }
  }

  /** A worked example through the service: an existing
      customer orders two units of a product with stock 5 and one unit of a
      product with stock 1; afterwards the stocks are 3 and 0 and one order
      is recorded. Asking for two units of the second product instead fails
      and changes nothing. */
  method ExamplePlacement()
  {
    var p1, p2 := Product("P1", "first", 1000, 500), Product("P2", "second", 2000, 100);
    var service := new CreateOrderService({"C1"}, map["P1" := p1, "P2" := p2]);
    var tooMany := [RequestedItem("P1", 200), RequestedItem("P2", 200)];
    var failed := service.Execute("C1", tooMany);
    assert !InStock(map["P1" := p1, "P2" := p2], tooMany) by {
      assert tooMany[1].id == "P2";
    }
    assert failed == Err(InsufficientBalance);
    assert service.orders == [];
    var unknown := service.Execute("C2", tooMany);
    assert unknown == Err(CustomerNotFound);
    var requested := [RequestedItem("P1", 200), RequestedItem("P2", 100)];
    var placed := service.Execute("C1", requested);
    assert placed.Ok?;
    assert service.products["P1"].quantity == 300 by {
      assert requested[0].id == "P1";
    }
    assert service.products["P2"].quantity == 0 by {
      assert requested[1].id == "P2";
    }
    assert |service.orders| == 1 && service.orders[0].customerId == "C1";
    assert ExpectedItems(map["P1" := p1, "P2" := p2], requested) ==
             [LineItem("P1", 1000, 200, 500), LineItem("P2", 2000, 100, 100)];
    assert multiset(service.orders[0].items) ==
             multiset([LineItem("P1", 1000, 200, 500), LineItem("P2", 2000, 100, 100)]);
  }
}
