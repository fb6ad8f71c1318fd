/** Records shared by the catalog and order controllers: the entities stored by the
    database context, the request bodies, the authenticated caller and the HTTP-shaped
    outcomes. Money is kept as an integer number of minor units (cents). */
module Models {

  datatype Option<+T> = None | Some(value: T)

  datatype Result<+T> = Success(value: T) | Failure(error: Error)

  /** Why a request was answered with 400 Bad Request. */
  datatype Reason =
    | EmptyCart                   // "Order must have at least one item."
    | ProductMissing(productId: int)
    | ProductInactive(name: string)
    | NotEnoughStock(name: string)
    | NonPositiveQuantity         // "Quantity must be > 0"
    | InvalidStatus
    | NotPending                  // "Can only cancel pending orders"
    | InvalidBody                 // the framework's validation of the request body failed

  /** The non-success HTTP results the controllers return. */
  datatype Error = Forbidden | NotFound | BadRequest(reason: Reason)

  /** The two claims the controllers read from the bearer token: subject id and role. */
  datatype Caller = Caller(userId: int, role: string)

  const AdminRole := "ADMIN"
  const UserRole := "USER"

  predicate IsAdmin(caller: Caller) { caller.role == AdminRole }
  predicate IsUser(caller: Caller) { caller.role == UserRole }

  /** A catalog row. `Stock` is not constrained by the entity: an administrator may store any integer. */
  datatype Product = Product(
    id: int,
    name: string,
    description: Option<string>,
    price: int,
    stock: int,
    isActive: bool,
    createdAt: int)

  /** The body of the product create and update requests. */
  datatype ProductDto = ProductDto(
    name: string,
    description: Option<string>,
    price: int,
    stock: int,
    isActive: bool)

  /** One line of a cart as the caller sends it. */
  datatype CartLine = CartLine(productId: int, quantity: int)

  /** One line of a stored order, with the unit price captured when the order was placed. */
  datatype OrderItem = OrderItem(productId: int, quantity: int, price: int)

  /** The four status strings an order may hold. */
  datatype Status = Pending | Preparing | Delivered | Cancelled

  datatype Order = Order(
    id: int,
    userId: int,
    status: Status,
    total: int,
    createdAt: int,
    items: seq<OrderItem>)

  type Catalog = map<int, Product>
  type Ledger = map<int, Order>
}
