# Order placement with stock reconciliation

This project models the order-placement step of a small e-commerce backend,
`CreateOrderService.execute`. The step looks up the customer and then fetches
the requested products in one batch. It checks that every requested product
was found and that the stock covers each requested quantity. It then builds
one line item and one stock update per product, saves the updates and records
the order.

Two modules:

- `Reconciliation` (Reconciliation.dfy) is the pure part. `Matching` is the
  `filter` over the request and `ProcessOne` is the callback of the `map`.
  `MapChanges` is the throwing `map`, where the first failing product decides
  the error. `Reconcile` is the length check followed by that `map`. The
  lemmas state when reconciliation succeeds, what each line item and update
  holds, and that later duplicate request entries are ignored.
- `OrderService` (OrderService.dfy) is the orchestration. The class
  `CreateOrderService` holds the three repositories as in-memory stores: a
  set of customer ids, a product table by id, and a list of orders.
  `FindAllById`, `UpdateQuantity` and `Create` play the repositories.
  `Execute` is the service method. Its postconditions give the outcome for
  every input and the new state of the stores.

Quantities and prices are integers. A quantity counts hundredths, matching
the decimal column of scale 2. A price counts cents and is only copied, never
computed on. Because `Reconcile` is a function, calling it twice on the same
inputs gives the same result; no lemma is needed for that.

A consequence the proofs make explicit (`LookupLength`): the batched lookup
returns each product once. So the found list has as many entries as the
request exactly when the requested ids are distinct and all exist. A request
that names the same product twice is therefore always rejected with
"Invalid product list!" by `execute`. The first-match rule of the `filter`
only matters for the reconciliation taken on its own.

## Model

| member | source | states |
|---|---|---|
| `Reconciliation.Matching` | src/modules/orders/services/CreateOrderService.ts:45-47 | the filtered entries all carry the product's id; the list is empty exactly when no request entry has that id |
| `Reconciliation.MatchingHeadIsFirst` | src/modules/orders/services/CreateOrderService.ts:45-47 | element `[0]` of the filtered list is the first request entry with the product's id |
| `Reconciliation.FirstMatchExists` | src/modules/orders/services/CreateOrderService.ts:45-47 | if any request entry has the id, a first such entry exists |
| `Reconciliation.ProcessOne` | src/modules/orders/services/CreateOrderService.ts:44-62 | fails with the TypeError case exactly when no entry has the product's id; otherwise, with k the first matching entry, fails with "Product Insufficient Balance" when its quantity exceeds the stock, else yields the line item (id, catalog price, requested quantity, pre-sale stock) and the product with only its quantity decreased, which stays non-negative |
| `Reconciliation.MapChanges` | src/modules/orders/services/CreateOrderService.ts:44-63 | succeeds exactly when every found product succeeds, and then has one change per found product in the same order; on failure the error is that of the first failing product |
| `Reconciliation.Reconcile` | src/modules/orders/services/CreateOrderService.ts:40-63 | a length mismatch gives "Invalid product list!"; success exactly when the lengths agree and every product succeeds; the line items and the updates then have one entry per found product, in found order; otherwise the first failing product's error |
| `Reconciliation.ReconcileSucceedsIff` | src/modules/orders/services/CreateOrderService.ts:40-50 | success exactly when the lengths agree and every found product's first request entry is covered by its stock |
| `Reconciliation.ReconcileSale` | src/modules/orders/services/CreateOrderService.ts:51-61 | on success, item i records id, catalog price, first requested quantity and pre-sale stock of found product i; update i is that product with quantity decreased by the same amount and non-negative |
| `Reconciliation.InsufficientBalanceReported` | src/modules/orders/services/CreateOrderService.ts:44-50 | when the lengths agree and every found product was requested, one product short of stock makes the whole result "Product Insufficient Balance" |
| `Reconciliation.LaterDuplicatesIgnored` | src/modules/orders/services/CreateOrderService.ts:45-47 | replacing any request entry after the first one for a product does not change how that product is processed |
| `Reconciliation.ExampleSale` | src/modules/orders/services/CreateOrderService.ts:44-63 | the two-product example yields items [(P1, 10.00, 2, 5), (P2, 20.00, 1, 1)] and stocks 3 and 0 |
| `Reconciliation.ExampleInsufficient` | src/modules/orders/services/CreateOrderService.ts:48-50 | asking for 2 of a product with stock 1 fails with "Product Insufficient Balance" |
| `OrderService.ApplyDistinctUpdates` | src/modules/orders/services/CreateOrderService.ts:65-67 | saving products with distinct ids stores each of them and leaves every other entry as it was |
| `OrderService.RequestedOfFound` | src/modules/orders/services/CreateOrderService.ts:38 | every product the lookup returns is the catalog entry of some requested id |
| `OrderService.FoundOfRequested` | src/modules/orders/services/CreateOrderService.ts:38 | every requested id present in the catalog is among the returned products |
| `OrderService.LookupLength` | src/modules/orders/services/CreateOrderService.ts:38-42 | the lookup returns as many products as were requested exactly when the requested ids are distinct and all exist |
| `OrderService.FoundFirstMatch` | src/modules/orders/services/CreateOrderService.ts:44-47 | with distinct requested ids, each found product's request entry is its first one, and the product is the catalog entry |
| `OrderService.ReconcileOnLookup` | src/modules/orders/services/CreateOrderService.ts:38-50 | after a lookup of distinct existing ids, reconciliation succeeds exactly when every requested quantity is in stock, and otherwise fails with "Product Insufficient Balance" |
| `OrderService.ReconciledPairs` | src/modules/orders/services/CreateOrderService.ts:51-61 | the line item and update at each position are those of the request entry for that position's product |
| `OrderService.SaleOnLookup` | src/modules/orders/services/CreateOrderService.ts:51-74 | the line items are a permutation of the request's line items, and saving the updates decreases exactly the requested products by their quantities |
| `OrderService.StockAfterReconcile` | src/modules/orders/services/CreateOrderService.ts:58-67 | saving the updates leaves the catalog's ids unchanged, decreases every requested product and leaves every other product as it was |
| `OrderService.StockAfterSaleWellKeyed` | src/modules/orders/services/CreateOrderService.ts:58-61 | an update copies the product with only its quantity replaced, so every entry stays under its own id |
| `OrderService.CreateOrderService.constructor` | src/modules/orders/services/CreateOrderService.ts:22-29 | the service starts from the given customers and catalog with no orders |
| `OrderService.CreateOrderService.FindAllById` | src/modules/orders/services/CreateOrderService.ts:38 | returns each catalog product whose id is requested, once, in no promised order |
| `OrderService.CreateOrderService.UpdateQuantity` | src/modules/orders/services/CreateOrderService.ts:65-67 | the products are saved one after the other; nothing but the product table changes |
| `OrderService.CreateOrderService.Create` | src/modules/orders/services/CreateOrderService.ts:69-74 | appends one order for the customer with the given line items and returns it |
| `OrderService.CreateOrderService.Execute` | src/modules/orders/services/CreateOrderService.ts:31-77 | "Customer not found!" exactly when the customer is unknown; "Invalid product list!" exactly when the customer exists but the requested ids repeat or some is missing; "Product Insufficient Balance" exactly when all that holds but some quantity exceeds its stock; success otherwise; a failure writes nothing; a success appends one order for the customer whose items are a permutation of the request's line items, and decreases exactly the requested products by their quantities |

## Left out

- Persistence: the repositories are in-memory stores. The database, TypeORM entity mapping, uuid keys, timestamps and the eager product relation are not modelled.
- `OrderService.CreateOrderService.FindAllById` is one deterministic implementation of the batched lookup (it returns products in request order). `Execute`'s proof uses only its postcondition, which promises no order.
- The `ColumnNumericTransformer` and decimal precision: quantities and prices are integers, with no rounding.
- Dependency injection, the internals of `AppError`, and async/Promise plumbing: the three repositories are fields of the service, and a thrown error is an `Err` result.
- Concurrency: two requests racing on the same product's stock, and the lack of atomicity between saving the updates and creating the order. The model runs the two writes one after the other, and a write never fails.
- Failures inside the repository writes are not modelled.
- `Reconciliation.ProductNotRequested` stands for the TypeError raised when a found product has no request entry. The JavaScript message text is not modelled. `Execute` proves that this case never arises, because the lookup only returns requested ids.
- The customer record passed to the order is modelled by the customer's id.
