/** OrdersController: placing orders, listing them, the administrator's status change and
    the owner's cancellation. GetOrder is the function FindOrder of module Lifecycle applied
    to `context.orders`. */
module Orders {
  import opened Models
  import opened Placement
  import opened Lifecycle
  import opened Data

  /** The body of CreateOrder's loop, run on the tracked copy of the catalog: each line in
      cart order is looked up (seeing the stock earlier lines took), checked, turned into an
      item at the product's current price, added to the total and taken from the stock.
      The first failing line returns its error and the copy is dropped. */
  method ReserveCart(catalog: Catalog, cart: seq<CartLine>) returns (r: Result<Reservation>)
    ensures r == ReserveLines(catalog, cart)
  {
    var tracked := catalog;
    var total := 0;
    var items: seq<OrderItem> := [];
    var i := 0;
    while i < |cart|
      invariant 0 <= i <= |cart|
      invariant ReserveLines(catalog, cart[..i]) == Success(Reservation(tracked, items, total))
    {
      var line := cart[i];
      var done := Reservation(tracked, items, total);
      if line.productId !in tracked {
        LineRejected(catalog, cart, i, done, BadRequest(ProductMissing(line.productId)));
        return Failure(BadRequest(ProductMissing(line.productId)));
      }
      var product := tracked[line.productId];
      if !product.isActive {
        LineRejected(catalog, cart, i, done, BadRequest(ProductInactive(product.name)));
        return Failure(BadRequest(ProductInactive(product.name)));
      }
      if product.stock < line.quantity {
        LineRejected(catalog, cart, i, done, BadRequest(NotEnoughStock(product.name)));
        return Failure(BadRequest(NotEnoughStock(product.name)));
      }
      if line.quantity <= 0 {
        LineRejected(catalog, cart, i, done, BadRequest(NonPositiveQuantity));
        return Failure(BadRequest(NonPositiveQuantity));
      }
      LineReserved(catalog, cart, i, done);
      items := items + [OrderItem(line.productId, line.quantity, product.price)];
      total := total + product.price * line.quantity;
      tracked := Take(tracked, line.productId, line.quantity);
      i := i + 1;
    }
    assert cart[..i] == cart;
    r := Success(Reservation(tracked, items, total));
  }

  class OrdersController {
    const context: AppDbContext

    constructor (context: AppDbContext)
      ensures this.context == context
    {
      this.context := context;
    }

    /** POST (USER role): refuses an empty cart, then reserves the cart line by line on a
        tracked copy of the catalog (ReserveCart). Only when every line passes are the new
        stock and the new PENDING order saved; any refusal leaves the database as it was. */
    method CreateOrder(caller: Caller, cart: seq<CartLine>, createdAt: int) returns (r: Result<Order>)
      requires context.Valid()
      modifies context
      ensures context.Valid()
      ensures context.nextProductId == old(context.nextProductId)
      ensures var placed := Place(old(context.products), caller, cart, old(context.nextOrderId), createdAt);
        if placed.Success? then
          && r == Success(placed.value.order)
          && context.products == placed.value.catalog
          && context.orders == old(context.orders)[placed.value.order.id := placed.value.order]
          && context.nextOrderId == old(context.nextOrderId) + 1
        else
          && r == Failure(placed.error)
          && context.products == old(context.products)
          && context.orders == old(context.orders)
          && context.nextOrderId == old(context.nextOrderId)
    {
      if !IsUser(caller) {
        return Failure(Forbidden);
      }
      if |cart| == 0 {
        return Failure(BadRequest(EmptyCart));
      }
      var reserved := ReserveCart(context.products, cart);
      if reserved.Failure? {
        return Failure(reserved.error);
      }
      var order := Order(context.nextOrderId, caller.userId, Pending, reserved.value.total, createdAt, reserved.value.items);
      ReservedItems(context.products, cart);
      ReservedStock(context.products, cart);
      context.products := reserved.value.catalog;
      context.orders := context.orders[order.id := order];
      context.nextOrderId := context.nextOrderId + 1;
      r := Success(order);
    }

    /** GET: the orders the caller may see (all of them for an administrator, otherwise the
        caller's own), each once, newest first. Orders with equal timestamps may come in
        any order. */
    method GetOrders(caller: Caller) returns (r: seq<Order>)
      requires context.Valid()
      ensures NewestFirst(r)
      ensures multiset(r) == multiset(VisibleOrders(context.orders, caller))
      ensures forall id | id in context.orders && CanSee(caller, context.orders[id]) ::
        multiset(r)[context.orders[id]] == 1
    {
      var visible := VisibleOrders(context.orders, caller);
      var pending := visible;
      r := [];
      while pending != {}
        invariant pending <= visible
        invariant NewestFirst(r)
        invariant multiset(r) + multiset(pending) == multiset(visible)
        decreases pending
      {
        var o :| o in pending;
        InsertAddsOnce(r, o);
        InsertKeepsNewestFirst(r, o);
        r := InsertByNewest(r, o);
        assert multiset(pending) == multiset(pending - {o}) + multiset{o};
        pending := pending - {o};
      }
    }

    /** PUT status (ADMIN role): replaces the status of an existing order with any of the
        four statuses; no stock is touched, whatever the new status. */
    method UpdateStatus(caller: Caller, id: int, status: string) returns (r: Result<Order>)
      requires context.Valid()
      modifies context
      ensures context.Valid()
      ensures r == SetStatus(old(context.orders), caller, id, status)
      ensures context.orders == if r.Success? then old(context.orders)[id := r.value] else old(context.orders)
      ensures context.products == old(context.products)
      ensures context.nextProductId == old(context.nextProductId) && context.nextOrderId == old(context.nextOrderId)
    {
      if !IsAdmin(caller) {
        return Failure(Forbidden);
      }
      if id !in context.orders {
        return Failure(NotFound);
      }
      var parsed := ParseStatus(status);
      if parsed.None? {
        return Failure(BadRequest(InvalidStatus));
      }
      var order := context.orders[id].(status := parsed.value);
      context.orders := context.orders[id := order];
      r := Success(order);
    }

    /** PUT cancel (USER role): the owner of a PENDING order cancels it and every item's
        quantity goes back to its product (items of products that no longer exist are
        skipped). The status and the stock are saved together; a refusal changes nothing. */
    method CancelOrder(caller: Caller, id: int) returns (r: Result<Order>)
      requires context.Valid()
      modifies context
      ensures context.Valid()
      ensures context.nextProductId == old(context.nextProductId) && context.nextOrderId == old(context.nextOrderId)
      ensures var cancelled := Cancel(old(context.products), old(context.orders), caller, id);
        if cancelled.Success? then
          && r == Success(cancelled.value.order)
          && context.products == cancelled.value.catalog
          && context.orders == old(context.orders)[id := cancelled.value.order]
        else
          && r == Failure(cancelled.error)
          && context.products == old(context.products)
          && context.orders == old(context.orders)
    {
      if !IsUser(caller) {
        return Failure(Forbidden);
      }
      if id !in context.orders {
        return Failure(NotFound);
      }
      var order := context.orders[id];
      if order.userId != caller.userId {
        return Failure(Forbidden);
      }
      if order.status != Pending {
        return Failure(BadRequest(NotPending));
      }
      var cancelled := order.(status := Cancelled);
      var tracked := context.products;
      var i := 0;
      while i < |order.items|
        invariant 0 <= i <= |order.items|
        invariant unchanged(context)
        invariant tracked == RestoreAll(context.products, order.items[..i])
      {
        var item := order.items[i];
        if item.productId in tracked {
          var product := tracked[item.productId];
          tracked := tracked[item.productId := product.(stock := product.stock + item.quantity)];
        }
        assert order.items[..i + 1][..i] == order.items[..i];
        i := i + 1;
      }
      assert order.items[..i] == order.items;
      RestoredStock(context.products, order.items);
      context.orders := context.orders[id := cancelled];
      context.products := tracked;
      r := Success(cancelled);
    }
  }
}
