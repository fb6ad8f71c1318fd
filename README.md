# Order placement and catalog core of the ChiliClothes backend, in Dafny

This project models the order workflow of `OrdersController` and the product catalog of
`ProductsController` from the ChiliClothes e-commerce backend, and proves what they promise.

The database context is a class, `Data.AppDbContext`. It holds two maps and the two identity
counters the database uses to number new rows:
- the catalog: product id → product (name, description, price, stock, active flag, creation time);
- the order ledger: order id → order (owner, status, total, creation time, items).

Each order item is (product id, quantity, unit price at order time). Prices and totals are
integers in minor units (cents). The caller is a given (user id, role) pair. Creation times
and new ids are supplied values or counters.

Files and modules:
- `models.dfy` (`Models`): the records, the request bodies, the caller and the error results (403, 404, 400 with a reason).
- `catalog.dfy` (`Catalog`): the catalog logic on values. It covers the active-only listing, the administrator's full listing, lookup, field overwrite and soft delete.
- `placement.dfy` (`Placement`): the placement loop of `CreateOrder` on values (`ReserveLines`, `Place`) and the stock compensation of `CancelOrder` (`RestoreAll`), with their lemmas.
- `lifecycle.dfy` (`Lifecycle`): the status names, visibility, `UpdateStatus` (`SetStatus`), `CancelOrder` (`Cancel`) and the newest-first ordering of `GetOrders`.
- `data.dfy` (`Data`): the database context class and its invariant.
- `products_controller.dfy` (`Products`) and `orders_controller.dfy` (`Orders`): classes that mirror the two controllers. Their methods change `context` in place and are proved against the functions above.

Atomicity of `CreateOrder` is modelled the way the code achieves it. The loop works on a
tracked copy of the catalog (`Orders.ReserveCart`). Only when every line passes are the new
stock and the new order written to the context. Every early return leaves the context as it
was, which is what skipping `SaveChangesAsync`/`CommitAsync` achieves in the code.

Where the specification of the system and the code differ, the model follows the code:
- Status changes. The specification describes a transition table (PENDING → PREPARING → DELIVERED, cancellation from PENDING or PREPARING). The code accepts any of the four status strings from any status. `Lifecycle.SetStatusFromAnyStatus` states this permissive behaviour. `Lifecycle.ReopenedOrderIsRestockedTwice` shows one consequence: an administrator can reopen a cancelled order, the owner can cancel it again, and the stock is then given back twice.
- Order of the line checks. The specification lists the non-positive quantity check first. The code checks, in this order: product missing, product inactive, `Stock < Quantity`, `Quantity <= 0`. The specification checks every quantity of the cart before any line is looked at. The two therefore give different errors for any cart holding a line with quantity ≤ 0 that the code refuses for another reason first: an earlier line that fails, or that line's own product being missing, inactive or short of stock. For example, inside the action a single line of quantity 0 for an absent product gets the product-not-found error (`Placement.CheckLine`), where the specification gives the quantity error. This difference holds only for the controller's code. At the endpoint, `[ApiController]` (Controllers/OrdersController.cs:12) makes the framework validate the body before the action runs, and `[Range(1, int.MaxValue)]` on each line's quantity (DTOs/OrderDtos.cs:11) then refuses any such cart with a 400, checking the whole cart first as the specification asks. `Placement.PlaceRequest` models this order, and `Placement.RequestNeverReportsNonPositiveQuantity` proves that the controller's own quantity check cannot be reached through the endpoint.
- Non-negative stock. The specification says stock is never negative. The code lets `CreateProduct` and `UpdateProduct` store any integer. The model therefore proves the weaker facts the code guarantees: a successful placement leaves every product it touched with non-negative stock, and it keeps a catalog with no negative stock free of negative stock (`Placement.ReservedStockNonNegative`).
- Cancellation rights. Only the owning USER may cancel, and only from PENDING (`[Authorize(Roles = "USER")]`). An administrator who sets CANCELLED through the status endpoint gives no stock back (`Orders.OrdersController.UpdateStatus` leaves `products` unchanged).

## Model

| member | source | states |
|---|---|---|
| `Catalog.ActiveProducts` | Controllers/ProductsController.cs:22-29 | the public listing holds exactly the rows whose active flag is set, each unchanged |
| `Catalog.AllProducts` | Controllers/ProductsController.cs:31-37 | administrators get every row, inactive ones included; any other role gets 403 |
| `Catalog.FindProduct` | Controllers/ProductsController.cs:39-45 | 404 exactly when the id is absent, otherwise that row unchanged, whatever its active flag |
| `Catalog.NewProduct` | Controllers/ProductsController.cs:51-58 | a created row carries the request's name, description, price, stock and active flag, under the given id and time |
| `Catalog.Overwrite` | Controllers/ProductsController.cs:72-76 | an update replaces exactly the five request fields and keeps the id and creation time |
| `Catalog.OverwriteWithOwnFields` | Controllers/ProductsController.cs:72-76 | writing back a row's own fields leaves it unchanged |
| `Catalog.Deactivate` | Controllers/ProductsController.cs:89-98 | soft delete keeps every row and changes only the deleted row's active flag |
| `Catalog.DeactivatedIsHiddenButKept` | Controllers/ProductsController.cs:86-98 | after delete the product is gone from the public listing but still in the admin listing and found by id; no other product's listing changes; the row count is the same |
| `Catalog.CreatedIsFound` | Controllers/ProductsController.cs:49-62 | a created product is found under its new id with the request's fields, and is listed publicly exactly when marked active |
| `Catalog.UpdatedIsFound` | Controllers/ProductsController.cs:67-79 | an updated product reads back with the request's fields and its original creation time |
| `Catalog.HasOrderItems` | Controllers/ProductsController.cs:86-89 | whether some stored order has a line for the product, which chooses the delete message |
| `Products.ProductsController.CreateProduct` | Controllers/ProductsController.cs:47-63 | administrators insert the new row under a fresh id; others get 403 and nothing changes |
| `Products.ProductsController.UpdateProduct` | Controllers/ProductsController.cs:65-80 | 403 for non-administrators and 404 for an absent id, with nothing changed; otherwise only that row is overwritten |
| `Products.ProductsController.DeleteProduct` | Controllers/ProductsController.cs:82-99 | 403 and 404 change nothing; otherwise both branches deactivate the row, and the message says whether some order has a line for the product |
| `Placement.CheckLine` | Controllers/OrdersController.cs:50-68 | a line passes exactly when its product exists, is active, has stock at least the quantity and the quantity is positive; it then yields an item at the product's current price; a failing line gets the error of the first check it fails, in the order missing product, inactive product, not enough stock, non-positive quantity |
| `Placement.Take` | Controllers/OrdersController.cs:76 | stock of the line's product drops by the quantity, its other fields stay, every other row is unchanged and no row is added or removed |
| `Placement.ReserveLines` | Controllers/OrdersController.cs:48-77 | the loop over the cart: on success the catalog keeps its rows and there is one item per line; a rejection is always a 400 |
| `Placement.Place` | Controllers/OrdersController.cs:23-91 | non-USER callers get 403 and an empty cart gets 400 before any line is checked; otherwise a rejected cart gives the loop's error; a success is a PENDING order for the caller under the given id and time |
| `Placement.PlaceRequest` | DTOs/OrderDtos.cs:5-18 | at the endpoint a non-USER caller gets 403, then any quantity below 1 anywhere in the cart gets a validation 400 before the action runs, and a cart with every quantity in range gets exactly the action's outcome |
| `Placement.PositiveQuantitiesPassQuantityCheck` | Controllers/OrdersController.cs:48-61 | a cart whose quantities are all positive is never refused with the quantity error |
| `Placement.RequestNeverReportsNonPositiveQuantity` | Controllers/OrdersController.cs:60-61 | through the endpoint no request ends in the controller's quantity error |
| `Placement.RejectionIsFinal` | Controllers/OrdersController.cs:48-61 | once a prefix of the cart is rejected the whole cart is rejected with the same error |
| `Placement.ReserveLinesSucceedsIff` | Controllers/OrdersController.cs:48-77 | the cart is accepted if and only if every line fits against the stock the earlier lines left |
| `Placement.FirstRejectionDecides` | Controllers/OrdersController.cs:48-61 | the first line that does not fit decides the error, by the controller's check order, against the stock the earlier lines left |
| `Placement.ReservedStock` | Controllers/OrdersController.cs:50-76 | a successful placement changes only stock, each product losing the summed quantity of its lines (duplicate lines add up) |
| `Placement.ReservedItems` | Controllers/OrdersController.cs:63-69 | one item per cart line, in cart order, with the line's product and positive quantity and the product's price |
| `Placement.ReservedTotal` | Controllers/OrdersController.cs:37-71 | the accumulated total equals the sum of price × quantity over the items |
| `Placement.ReservedStockNonNegative` | Controllers/OrdersController.cs:57-76 | every product a successful cart touches ends with stock ≥ 0, and a catalog without negative stock keeps none |
| `Placement.PlacedOrder` | Controllers/OrdersController.cs:37-85 | a created order's total is Σ price × quantity over its items; the items copy the cart lines and the prices; the stock left is the original minus what the cart asked |
| `Placement.PlaceSucceedsIff` | Controllers/OrdersController.cs:34-61 | an order is created exactly for a USER with a non-empty cart whose every line fits |
| `Placement.DuplicateLinesShareStock` | Controllers/OrdersController.cs:48-77 | two lines for one product succeed exactly when both quantities fit together, and then take both |
| `Placement.TwoOfFiveInStock` | Controllers/OrdersController.cs:48-85 | 2 units at 10.00 with 5 in stock: a PENDING order of 20.00 and 3 left |
| `Placement.TenOfThreeInStock` | Controllers/OrdersController.cs:57-58 | 10 units with 3 in stock: refused with the not-enough-stock error |
| `Placement.Restock` | Controllers/OrdersController.cs:198-199 | an existing product's stock rises by the quantity with its other fields kept; a missing product is skipped; every other row is unchanged and no row is added or removed |
| `Placement.RestoreAll` | Controllers/OrdersController.cs:195-201 | the compensation loop never adds or removes a row |
| `Placement.RestoredStock` | Controllers/OrdersController.cs:195-201 | the compensation raises each existing product's stock by the summed quantity of its items and changes nothing else |
| `Placement.PlaceThenRestore` | Controllers/OrdersController.cs:48-201 | giving back the items of a successful placement restores the catalog it was placed against exactly |
| `Placement.RestoreRaisesStock` | Controllers/OrdersController.cs:197-200 | with positive quantities the compensation never lowers a stock |
| `Lifecycle.ParseStatus` | Controllers/OrdersController.cs:163-165 | exactly the four status strings are accepted, and each reads back as itself |
| `Lifecycle.StatusNameParses` | Controllers/OrdersController.cs:163-167 | every status's name is accepted as that status |
| `Lifecycle.CanSee` | Controllers/OrdersController.cs:109-122 | the visibility rule of the order endpoints: an administrator sees every order, anyone else only orders whose owner is the caller |
| `Lifecycle.FindOrder` | Controllers/OrdersController.cs:131-154 | 404 exactly for an absent id, 403 exactly for an order that is neither the caller's nor seen by an administrator, otherwise the stored order |
| `Lifecycle.VisibleOrders` | Controllers/OrdersController.cs:100-129 | the listing holds exactly the stored orders the caller may see: all of them for an administrator |
| `Lifecycle.FindOrderAgreesWithListing` | Controllers/OrdersController.cs:109-153 | an order is returned by id exactly when it is in the caller's listing |
| `Lifecycle.InsertByNewest` | Controllers/OrdersController.cs:115-125 | one step of the newest-first sort: the result is one longer and holds the inserted order |
| `Lifecycle.InsertAddsOnce` | Controllers/OrdersController.cs:111-126 | inserting into the listing adds that order once and loses nothing |
| `Lifecycle.InsertKeepsNewestFirst` | Controllers/OrdersController.cs:111-126 | inserting keeps the listing sorted newest first |
| `Lifecycle.SetStatus` | Controllers/OrdersController.cs:156-170 | 403 for non-administrators, 404 for an absent order, 400 for an unknown status; otherwise the order with only its status replaced |
| `Lifecycle.SetStatusFromAnyStatus` | Controllers/OrdersController.cs:160-167 | any of the four statuses can be set from any prior status, terminal ones included |
| `Lifecycle.Cancel` | Controllers/OrdersController.cs:172-205 | 403 for non-USER callers and for someone else's order, 404 for an absent order, 400 for the owner's order that is not PENDING; succeeds exactly for the owning USER on a PENDING order, which becomes CANCELLED while the items' quantities go back |
| `Lifecycle.PlaceThenCancel` | Controllers/OrdersController.cs:23-203 | placing an order and then cancelling it gives back exactly the original catalog and leaves the order CANCELLED |
| `Lifecycle.ReopenedOrderIsRestockedTwice` | Controllers/OrdersController.cs:156-203 | reopening a cancelled order and cancelling it again gives the items' quantities back a second time |
| `Orders.ReserveCart` | Controllers/OrdersController.cs:48-77 | the loop over the cart computes exactly the reservation or the first line's error |
| `Orders.OrdersController.CreateOrder` | Controllers/OrdersController.cs:23-91 | on success the reserved stock and the new order are saved under the next id; on any refusal products, orders and counters are unchanged |
| `Orders.OrdersController.GetOrders` | Controllers/OrdersController.cs:100-129 | on a database whose rows are stored under their own ids, returns each stored order the caller may see exactly once, newest first, and nothing else |
| `Orders.OrdersController.UpdateStatus` | Controllers/OrdersController.cs:156-170 | the result is `SetStatus`'s; only that order's status changes and stock is never touched |
| `Orders.OrdersController.CancelOrder` | Controllers/OrdersController.cs:172-205 | on success the status and the given-back stock are saved together; every refusal changes nothing |

## Left out

- Authentication (`Controllers/AuthController.cs`): password hashing and token issuing go through foreign libraries. The core only consumes the (user id, role) pair.
- Reading the claims and `int.Parse` of the subject, with its 401 Unauthorized path. The caller is a given pair; the role gates of the `[Authorize(Roles = ...)]` attributes are modelled as 403 with no change.
- The exception path of `CreateOrder` (rollback and 500). Persistence faults are not modelled.
- Entity Framework, async and transaction mechanics. Atomicity is modelled as "new state on success, old state on failure".
- Concurrency between simultaneous requests and row locking. Every operation runs alone.
- Decimal arithmetic: prices and totals are unbounded integers in minor units, so decimal rounding and overflow are absent.
- Placement.Restock: the addition is unbounded. The code's 32-bit `Stock += Quantity` would wrap above 2,147,483,647. A place-then-cancel round trip never exceeds the original stock, so `Placement.PlaceThenRestore` is unaffected.
- Catalog.NewProduct: the model stores the request's active flag as given. The database model declares `HasDefaultValue(true)` for `IsActive` (Data/AppDbContext.cs:35-37). Entity Framework treats `false`, the CLR default, as "not set" and leaves it out of the insert, so a relational store may record `true`. A product created inactive may then be active and listed publicly. This depends on the database provider, which is not part of this model, so `Catalog.CreatedIsFound` states the flag as requested.
- Timestamps and database-generated ids are supplied values (`createdAt` parameters and the counters of `Data.AppDbContext`).
- Validation attributes on the request bodies, other than the `[Range(1, int.MaxValue)]` on quantities. That one is modelled by `Placement.PlaceRequest`, which refuses a quantity below 1 with a single validation 400 (its message is not modelled). The controller methods model the action body alone, so their `NonPositiveQuantity` branch is unreachable through the endpoint (`Placement.RequestNeverReportsNonPositiveQuantity`). Turning automatic validation off would require startup code, which is not part of this model.
- A null cart cannot be expressed. Inside the action it behaves as the empty cart, which the model covers. At the endpoint, `[Required]` on `Items` (DTOs/OrderDtos.cs:17) refuses an explicit null first, with a validation 400 whose message differs.
- Response shapes: serialised navigation properties (`Include` of users and products), messages of 400 results other than their reason, and the `OrderItem` fields the controller does not assign (its own id and order id).
- Listings of products are maps keyed by id, because the code imposes no order. The order listing is sorted newest first; orders with equal timestamps may appear in any order, as the database leaves them.
- The reload of the order inside `CancelOrder` always finds the order the method has just found. The model uses that order's items.
