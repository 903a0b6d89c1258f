/** Stock reconciliation of an order request: the pure part of
    CreateOrderService.execute that checks the product list against the
    catalog products found for it, and turns every found product into a
    line item for the order and an updated product for the catalog.

    Quantities and prices are integers (a quantity counts hundredths, as the
    decimal column with scale 2 does; a price counts cents). Prices are only
    copied, never computed on. */
module Reconciliation {

  /** The errors the service throws. The first three are the AppError
      messages thrown by the service; ProductNotRequested stands for the TypeError
      that destructuring an absent request entry raises. */
  datatype Error =
    | CustomerNotFound
    | InvalidProductList
    | InsufficientBalance
    | ProductNotRequested

  datatype Result<T> = Ok(value: T) | Err(error: Error)

  /** The message carried by each AppError. */
  function Message(e: Error): string
    requires e != ProductNotRequested
  {
    match e
    case CustomerNotFound => "Customer not found!"
    case InvalidProductList => "Invalid product list!"
    case InsufficientBalance => "Product Insufficient Balance"
  }

  /** One entry of the request: a product id and the quantity wanted. */
  datatype RequestedItem = RequestedItem(id: string, quantity: int)

  /** A catalog product; `name` stands for every field besides id, price
      and quantity. */
  datatype Product = Product(id: string, name: string, price: int, quantity: int)

  /** The row recorded for one product of the order. */
  datatype LineItem = LineItem(productId: string, price: int, quantity: int, productBalance: int)

  /** What the callback of the `map` returns for one found product. */
  datatype Change = Change(register: LineItem, update: Product)

  /** k is the index of the first request entry for `id`. */
  predicate IsFirstMatch(requested: seq<RequestedItem>, id: string, k: int)
  {
    0 <= k < |requested| && requested[k].id == id &&
    forall j :: 0 <= j < k ==> requested[j].id != id
  }

  /** The request entries whose id is `id`, in request order (the `filter`). */
  function Matching(requested: seq<RequestedItem>, id: string): (r: seq<RequestedItem>)
    ensures |r| <= |requested|
    ensures forall k :: 0 <= k < |r| ==> r[k].id == id
    ensures |r| == 0 <==> forall j :: 0 <= j < |requested| ==> requested[j].id != id
  {
    if requested == [] then []
    else if requested[0].id == id then [requested[0]] + Matching(requested[1..], id)
    else Matching(requested[1..], id)
  }

  /** The head of the filtered list is the first request entry for the id. */
  lemma {:induction false} MatchingHeadIsFirst(requested: seq<RequestedItem>, id: string)
    ensures forall k :: IsFirstMatch(requested, id, k) ==>
              |Matching(requested, id)| > 0 && Matching(requested, id)[0] == requested[k]
  {
    if requested != [] && requested[0].id != id {
      MatchingHeadIsFirst(requested[1..], id);
      forall k | IsFirstMatch(requested, id, k)
        ensures |Matching(requested, id)| > 0 && Matching(requested, id)[0] == requested[k]
      {
        assert IsFirstMatch(requested[1..], id, k - 1);
      }
    }
  }

  /** Whenever some entry carries the id, a first such entry exists. */
  lemma {:induction false} FirstMatchExists(requested: seq<RequestedItem>, id: string, j: int)
    requires 0 <= j < |requested| && requested[j].id == id
    ensures exists k :: k <= j && IsFirstMatch(requested, id, k)
    decreases j
  {
    if exists i :: 0 <= i < j && requested[i].id == id {
      var i :| 0 <= i < j && requested[i].id == id;
      FirstMatchExists(requested, id, i);
    } else {
      assert IsFirstMatch(requested, id, j);
    }
  }

  /** The callback of the `map`: take the quantity of the first request entry
      for the product, reject it when it exceeds the stock, and build the line
      item (pre-sale stock as balance) and the product with its quantity
      decreased. */
  function ProcessOne(requested: seq<RequestedItem>, p: Product): (r: Result<Change>)
    ensures r == Err(ProductNotRequested) <==> forall j :: 0 <= j < |requested| ==> requested[j].id != p.id
    ensures forall k :: IsFirstMatch(requested, p.id, k) ==>
              if requested[k].quantity > p.quantity then r == Err(InsufficientBalance)
              else r == Ok(Change(LineItem(p.id, p.price, requested[k].quantity, p.quantity),
                                  p.(quantity := p.quantity - requested[k].quantity)))
    ensures r.Ok? ==> r.value.register.productId == p.id && r.value.register.price == p.price &&
                      r.value.register.productBalance == p.quantity
    ensures r.Ok? ==> r.value.update == p.(quantity := p.quantity - r.value.register.quantity) &&
                      r.value.update.quantity >= 0
  {
    MatchingHeadIsFirst(requested, p.id);
    var matches := Matching(requested, p.id);
    if |matches| == 0 then Err(ProductNotRequested)
    else
      var quantity := matches[0].quantity;
      if quantity > p.quantity then Err(InsufficientBalance)
      else Ok(Change(LineItem(p.id, p.price, quantity, p.quantity),
                     p.(quantity := p.quantity - quantity)))
  }

  /** The `map` over the found products: every product is processed in order
      and the first failure is the one thrown. */
  function MapChanges(requested: seq<RequestedItem>, found: seq<Product>): (r: Result<seq<Change>>)
    ensures r.Ok? <==> forall i :: 0 <= i < |found| ==> ProcessOne(requested, found[i]).Ok?
    ensures r.Ok? ==> (|r.value| == |found| &&
                       forall i :: 0 <= i < |found| ==> ProcessOne(requested, found[i]) == Ok(r.value[i]))
    ensures r.Err? ==> (exists i :: 0 <= i < |found| && ProcessOne(requested, found[i]) == Err(r.error) &&
                          forall j :: 0 <= j < i ==> ProcessOne(requested, found[j]).Ok?)
  {
    if found == [] then Ok([])
    else
      match ProcessOne(requested, found[0])
      case Err(e) => Err(e)
      case Ok(c) =>
        match MapChanges(requested, found[1..])
        case Err(e) =>
          ghost var i :| 0 <= i < |found[1..]| && ProcessOne(requested, found[1..][i]) == Err(e) &&
                         forall j :: 0 <= j < i ==> ProcessOne(requested, found[1..][j]).Ok?;
          assert ProcessOne(requested, found[i + 1]) == Err(e);
          Err(e)
        case Ok(cs) => Ok([c] + cs)
  }

  /** Lines 38-63 of the service: reject a product list whose length differs
      from the request's, then map every found product to its line item and
      its updated product, keeping the order of the found products. */
  function Reconcile(requested: seq<RequestedItem>, found: seq<Product>): (r: Result<(seq<LineItem>, seq<Product>)>)
    ensures |found| != |requested| ==> r == Err(InvalidProductList)
    ensures r.Ok? <==> |found| == |requested| && forall i :: 0 <= i < |found| ==> ProcessOne(requested, found[i]).Ok?
    ensures r.Ok? ==> (|r.value.0| == |found| && |r.value.1| == |found| &&
                       forall i :: 0 <= i < |found| ==>
                         ProcessOne(requested, found[i]) == Ok(Change(r.value.0[i], r.value.1[i])))
    ensures r.Err? && |found| == |requested| ==>
              (exists i :: 0 <= i < |found| && ProcessOne(requested, found[i]) == Err(r.error) &&
                 forall j :: 0 <= j < i ==> ProcessOne(requested, found[j]).Ok?)
  {
    if |found| != |requested| then Err(InvalidProductList)
    else
      match MapChanges(requested, found)
      case Err(e) => Err(e)
      case Ok(cs) =>
        Ok((seq(|cs|, i requires 0 <= i < |cs| => cs[i].register),
            seq(|cs|, i requires 0 <= i < |cs| => cs[i].update)))
  }

  /** The stock of `p` covers the quantity of the first request entry for it. */
  ghost predicate Covered(requested: seq<RequestedItem>, p: Product)
  {
    exists k :: IsFirstMatch(requested, p.id, k) && requested[k].quantity <= p.quantity
  }

  /** Reconciliation succeeds exactly when the lengths agree and every found
      product has a request entry whose quantity its stock covers. */
  lemma {:induction false} ReconcileSucceedsIff(requested: seq<RequestedItem>, found: seq<Product>)
    ensures Reconcile(requested, found).Ok? <==>
              |found| == |requested| && forall i :: 0 <= i < |found| ==> Covered(requested, found[i])
  {
    forall i | 0 <= i < |found|
      ensures ProcessOne(requested, found[i]).Ok? <==> Covered(requested, found[i])
    {
      if ProcessOne(requested, found[i]).Ok? {
        var j :| 0 <= j < |requested| && requested[j].id == found[i].id;
        FirstMatchExists(requested, found[i].id, j);
      }
    }
  }

  /** On success the i-th line item records the i-th found product's id,
      catalog price and pre-sale stock with the first requested quantity, and
      the i-th update is that product with only its quantity decreased by the
      same amount, which leaves it non-negative. */
  lemma {:induction false} ReconcileSale(requested: seq<RequestedItem>, found: seq<Product>)
    requires Reconcile(requested, found).Ok?
    ensures forall i :: 0 <= i < |found| ==>
              exists k :: IsFirstMatch(requested, found[i].id, k) &&
                var (items, updates) := Reconcile(requested, found).value;
                items[i] == LineItem(found[i].id, found[i].price, requested[k].quantity, found[i].quantity) &&
                updates[i] == found[i].(quantity := found[i].quantity - requested[k].quantity) &&
                updates[i].quantity >= 0
  {
    forall i | 0 <= i < |found|
      ensures exists k :: IsFirstMatch(requested, found[i].id, k) &&
                var (items, updates) := Reconcile(requested, found).value;
                items[i] == LineItem(found[i].id, found[i].price, requested[k].quantity, found[i].quantity) &&
                updates[i] == found[i].(quantity := found[i].quantity - requested[k].quantity) &&
                updates[i].quantity >= 0
    {
      var j :| 0 <= j < |requested| && requested[j].id == found[i].id;
      FirstMatchExists(requested, found[i].id, j);
    }
  }

  /** When every found product was requested and the lengths agree, a single
      product whose stock is below its first requested quantity makes the
      whole reconciliation fail with the insufficient-balance error. */
  lemma InsufficientBalanceReported(requested: seq<RequestedItem>, found: seq<Product>, i: int, k: int)
    requires |found| == |requested|
    requires forall n :: 0 <= n < |found| ==> exists j :: 0 <= j < |requested| && requested[j].id == found[n].id
    requires 0 <= i < |found| && IsFirstMatch(requested, found[i].id, k)
    requires requested[k].quantity > found[i].quantity
    ensures Reconcile(requested, found) == Err(InsufficientBalance)
  {
  }

  /** Entries after the first one for a product do not influence how that
      product is processed: later duplicates are ignored. */
  lemma LaterDuplicatesIgnored(requested: seq<RequestedItem>, p: Product, k: int, j: int, other: RequestedItem)
    requires IsFirstMatch(requested, p.id, k) && k < j < |requested|
    ensures ProcessOne(requested[j := other], p) == ProcessOne(requested, p)
  {
    assert IsFirstMatch(requested[j := other], p.id, k);
  }

  /** A worked example: two units of a product with stock 5
      and one unit of a product with stock 1. */
  lemma ExampleSale()
    ensures var requested := [RequestedItem("P1", 200), RequestedItem("P2", 100)];
            var found := [Product("P1", "first", 1000, 500), Product("P2", "second", 2000, 100)];
            Reconcile(requested, found) ==
              Ok(([LineItem("P1", 1000, 200, 500), LineItem("P2", 2000, 100, 100)],
                  [Product("P1", "first", 1000, 300), Product("P2", "second", 2000, 0)]))
  {
    var requested := [RequestedItem("P1", 200), RequestedItem("P2", 100)];
    var found := [Product("P1", "first", 1000, 500), Product("P2", "second", 2000, 100)];
    assert IsFirstMatch(requested, found[0].id, 0);
    assert IsFirstMatch(requested, found[1].id, 1);
    assert ProcessOne(requested, found[0]).Ok? && ProcessOne(requested, found[1]).Ok?;
    var (items, updates) := Reconcile(requested, found).value;
    assert items == [items[0], items[1]] && updates == [updates[0], updates[1]];
  }

  /** A failing example: two units of the product with stock 1. */
  lemma ExampleInsufficient()
    ensures var requested := [RequestedItem("P1", 200), RequestedItem("P2", 200)];
            var found := [Product("P1", "first", 1000, 500), Product("P2", "second", 2000, 100)];
            Reconcile(requested, found) == Err(InsufficientBalance)
  {
  }
}
