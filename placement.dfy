/** The order placement engine of OrdersController.CreateOrder, stated on values.

    The controller walks the cart in the caller's order. For each line it looks the
    product up in the tracked catalog (so a line sees the stock already taken by earlier
    lines of the same cart), checks it, snapshots the price, adds price * quantity to the
    total and takes the quantity off the stock. The first failing line ends the request
    before anything is saved. ReserveLines is that walk, defined on the last line so that
    the loop in the controller keeps `ReserveLines(catalog, cart[..i])` as its invariant.

    The compensation of CancelOrder (adding every line's quantity back) is here too,
    because its main property is that it undoes a placement. */
module Placement {
  import opened Models

  /** Units of product `pid` that the lines of `cart` ask for, duplicates included. */
  function Requested(cart: seq<CartLine>, pid: int): int
  {
    if cart == [] then 0
    else
      var line := cart[|cart| - 1];
      Requested(cart[..|cart| - 1], pid) + (if line.productId == pid then line.quantity else 0)
  }

  /** The catalog once every line of `cart` has taken its quantity: only stock changes. */
  function Remaining(c: Catalog, cart: seq<CartLine>): (r: Catalog)
    ensures r.Keys == c.Keys
  {
    map pid | pid in c :: c[pid].(stock := c[pid].stock - Requested(cart, pid))
  }

  /** The conditions a cart line must meet against the catalog it is checked against. */
  predicate LineFits(c: Catalog, line: CartLine)
  {
    && line.productId in c
    && c[line.productId].isActive
    && c[line.productId].stock >= line.quantity
    && line.quantity > 0
  }

  /** One line's checks, in the controller's order: missing product, inactive product,
      not enough stock, non-positive quantity. A line that passes becomes an order item
      carrying the product's current price. */
  function CheckLine(c: Catalog, line: CartLine): (r: Result<OrderItem>)
    ensures r.Success? <==> LineFits(c, line)
    ensures r.Success? ==> r.value == OrderItem(line.productId, line.quantity, c[line.productId].price)
    ensures line.productId !in c ==> r == Failure(BadRequest(ProductMissing(line.productId)))
    ensures line.productId in c && !c[line.productId].isActive ==>
      r == Failure(BadRequest(ProductInactive(c[line.productId].name)))
    ensures line.productId in c && c[line.productId].isActive && c[line.productId].stock < line.quantity ==>
      r == Failure(BadRequest(NotEnoughStock(c[line.productId].name)))
    ensures (line.productId in c && c[line.productId].isActive && c[line.productId].stock >= line.quantity
      && line.quantity <= 0) ==> r == Failure(BadRequest(NonPositiveQuantity))
  {
    if line.productId !in c then Failure(BadRequest(ProductMissing(line.productId)))
    else
      var p := c[line.productId];
      if !p.isActive then Failure(BadRequest(ProductInactive(p.name)))
      else if p.stock < line.quantity then Failure(BadRequest(NotEnoughStock(p.name)))
      else if line.quantity <= 0 then Failure(BadRequest(NonPositiveQuantity))
      else Success(OrderItem(line.productId, line.quantity, p.price))
  }

  /** `product.Stock -= quantity` on the tracked row. */
  function Take(c: Catalog, pid: int, quantity: int): (r: Catalog)
    requires pid in c
    ensures r.Keys == c.Keys
    ensures r[pid] == c[pid].(stock := c[pid].stock - quantity)
    ensures forall q | q in c && q != pid :: r[q] == c[q]
  {
    c[pid := c[pid].(stock := c[pid].stock - quantity)]
  }

  /** Sum of price * quantity over the items of an order. */
  function ItemsTotal(items: seq<OrderItem>): int
  {
    if items == [] then 0
    else
      var item := items[|items| - 1];
      ItemsTotal(items[..|items| - 1]) + item.price * item.quantity
  }

  /** The state the placement loop carries: the tracked catalog, the items so far and the
      running total. */
  datatype Reservation = Reservation(catalog: Catalog, items: seq<OrderItem>, total: int)

  /** The placement loop over the whole cart: the reservation after every line, or the
      error of the first line that fails. */
  function ReserveLines(c: Catalog, cart: seq<CartLine>): (r: Result<Reservation>)
    ensures r.Success? ==> r.value.catalog.Keys == c.Keys && |r.value.items| == |cart|
    ensures r.Failure? ==> r.error.BadRequest?
  {
    if cart == [] then Success(Reservation(c, [], 0))
    else
      match ReserveLines(c, cart[..|cart| - 1])
      case Failure(e) => Failure(e)
      case Success(done) =>
        var line := cart[|cart| - 1];
        match CheckLine(done.catalog, line)
        case Failure(e) => Failure(e)
        case Success(item) =>
          Success(Reservation(Take(done.catalog, line.productId, line.quantity),
                              done.items + [item],
                              done.total + item.price * item.quantity))
  }

  /** The outcome of a successful CreateOrder: the catalog to persist and the new order. */
  datatype Placed = Placed(catalog: Catalog, order: Order)

  /** CreateOrder: only the USER role may place orders; an empty cart is refused before any
      line is looked at; otherwise the cart is reserved line by line and, if every line
      passes, a PENDING order for the caller is built from the reservation. */
  function Place(c: Catalog, caller: Caller, cart: seq<CartLine>, orderId: int, createdAt: int): (r: Result<Placed>)
    ensures !IsUser(caller) ==> r == Failure(Forbidden)
    ensures IsUser(caller) && cart == [] ==> r == Failure(BadRequest(EmptyCart))
    ensures r.Success? ==> IsUser(caller) && cart != [] && ReserveLines(c, cart).Success?
    ensures IsUser(caller) && cart != [] && ReserveLines(c, cart).Failure? ==> r == Failure(ReserveLines(c, cart).error)
    ensures r.Success? ==> r.value.order.id == orderId && r.value.order.userId == caller.userId
    ensures r.Success? ==> r.value.order.status == Pending && r.value.order.createdAt == createdAt
  {
    if !IsUser(caller) then Failure(Forbidden)
    else if cart == [] then Failure(BadRequest(EmptyCart))
    else
      match ReserveLines(c, cart)
      case Failure(e) => Failure(e)
      case Success(res) =>
        Success(Placed(res.catalog, Order(orderId, caller.userId, Pending, res.total, createdAt, res.items)))
  }

  /** The validation attribute on a cart line's quantity: at least 1. */
  predicate QuantitiesInRange(cart: seq<CartLine>)
  {
    forall k | 0 <= k < |cart| :: cart[k].quantity >= 1
  }

  /** CreateOrder as reached over HTTP. The role gate runs first. Then the framework's
      automatic validation of the body refuses the request with a 400 when any line's
      quantity is below 1, whichever line it is. Only then does the action (Place) run. */
  function PlaceRequest(c: Catalog, caller: Caller, cart: seq<CartLine>, orderId: int, createdAt: int): (r: Result<Placed>)
    ensures !IsUser(caller) ==> r == Failure(Forbidden)
    ensures IsUser(caller) && !QuantitiesInRange(cart) ==> r == Failure(BadRequest(InvalidBody))
    ensures QuantitiesInRange(cart) ==> r == Place(c, caller, cart, orderId, createdAt)
  {
    if !IsUser(caller) then Failure(Forbidden)
    else if !QuantitiesInRange(cart) then Failure(BadRequest(InvalidBody))
    else Place(c, caller, cart, orderId, createdAt)
  }

  // ---------------------------------------------------------------------------
  // Properties of the placement loop

  /** Once a prefix of the cart is rejected, the whole cart is rejected with the same error:
      no later line is looked at. */
  lemma {:induction false} RejectionIsFinal(c: Catalog, cart: seq<CartLine>, n: nat)
    requires n <= |cart|
    requires ReserveLines(c, cart[..n]).Failure?
    ensures ReserveLines(c, cart) == ReserveLines(c, cart[..n])
    decreases |cart| - n
  {
    if n < |cart| {
      var front := cart[..|cart| - 1];
      assert front[..n] == cart[..n];
      RejectionIsFinal(c, front, n);
    } else {
      assert cart[..n] == cart;
    }
  }

  /** The placement loop's exit on a rejected line: the cart as a whole is rejected with
      that line's error. */
  lemma LineRejected(c: Catalog, cart: seq<CartLine>, i: nat, done: Reservation, e: Error)
    requires i < |cart|
    requires ReserveLines(c, cart[..i]) == Success(done)
    requires CheckLine(done.catalog, cart[i]) == Failure(e)
    ensures ReserveLines(c, cart) == Failure(e)
  {
    var upto := cart[..i + 1];
    assert upto[..i] == cart[..i] && upto[i] == cart[i];
    RejectionIsFinal(c, cart, i + 1);
  }

  /** The placement loop's step on an accepted line: it becomes the next item, its price
      times its quantity is added to the total and its quantity is taken from the stock. */
  lemma LineReserved(c: Catalog, cart: seq<CartLine>, i: nat, done: Reservation)
    requires i < |cart|
    requires ReserveLines(c, cart[..i]) == Success(done)
    requires LineFits(done.catalog, cart[i])
    ensures ReserveLines(c, cart[..i + 1]) ==
      var line := cart[i];
      var price := done.catalog[line.productId].price;
      Success(Reservation(Take(done.catalog, line.productId, line.quantity),
                          done.items + [OrderItem(line.productId, line.quantity, price)],
                          done.total + price * line.quantity))
  {
    var upto := cart[..i + 1];
    assert upto[..i] == cart[..i] && upto[i] == cart[i];
  }

  /** A successful reservation changes only stock, and each product's stock drops by the
      total quantity the cart asks of it (duplicate lines add up). */
  lemma {:induction false} ReservedStock(c: Catalog, cart: seq<CartLine>)
    requires ReserveLines(c, cart).Success?
    ensures ReserveLines(c, cart).value.catalog == Remaining(c, cart)
  {
    if cart == [] {
      assert Remaining(c, cart) == c;
    } else {
      var front := cart[..|cart| - 1];
      var line := cart[|cart| - 1];
      ReservedStock(c, front);
      var done := ReserveLines(c, front).value;
      var r := ReserveLines(c, cart).value.catalog;
      assert r == Take(done.catalog, line.productId, line.quantity);
      forall pid | pid in c
        ensures r[pid] == Remaining(c, cart)[pid]
      {
      }
    }
  }

  /** Line `k` of `cart` passes its checks against the stock the lines before it left. */
  predicate Accepted(c: Catalog, cart: seq<CartLine>, k: nat)
    requires k < |cart|
  {
    LineFits(Remaining(c, cart[..k]), cart[k])
  }

  /** Whether a line is accepted depends only on the lines up to it. */
  lemma AcceptedInPrefix(c: Catalog, cart: seq<CartLine>, n: nat, k: nat)
    requires k < n <= |cart|
    ensures Accepted(c, cart[..n], k) == Accepted(c, cart, k)
  {
    assert cart[..n][..k] == cart[..k];
  }

  /** The placement succeeds if and only if every line is accepted against the stock the
      lines before it left. */
  lemma {:induction false} ReserveLinesSucceedsIff(c: Catalog, cart: seq<CartLine>)
    ensures ReserveLines(c, cart).Success? <==> forall k | 0 <= k < |cart| :: Accepted(c, cart, k)
  {
    if cart != [] {
      var last := |cart| - 1;
      var front := cart[..last];
      ReserveLinesSucceedsIff(c, front);
      forall k | 0 <= k < last
        ensures Accepted(c, front, k) == Accepted(c, cart, k)
      {
        AcceptedInPrefix(c, cart, last, k);
      }
      if ReserveLines(c, front).Success? {
        ReservedStock(c, front);
        assert ReserveLines(c, cart).Success? <==> Accepted(c, cart, last);
      }
    }
  }

  /** The first line that is not accepted decides the error: it is that line's own check,
      against the stock the earlier lines left. */
  lemma FirstRejectionDecides(c: Catalog, cart: seq<CartLine>, k: nat)
    requires k < |cart|
    requires forall j | 0 <= j < k :: Accepted(c, cart, j)
    requires !Accepted(c, cart, k)
    ensures ReserveLines(c, cart) == Failure(CheckLine(Remaining(c, cart[..k]), cart[k]).error)
  {
    var prefix := cart[..k];
    forall j | 0 <= j < k
      ensures Accepted(c, prefix, j)
    {
      AcceptedInPrefix(c, cart, k, j);
    }
    ReserveLinesSucceedsIff(c, prefix);
    ReservedStock(c, prefix);
    var upto := cart[..k + 1];
    assert upto[..k] == prefix && upto[k] == cart[k];
    assert ReserveLines(c, upto) == Failure(CheckLine(Remaining(c, prefix), cart[k]).error);
    RejectionIsFinal(c, cart, k + 1);
  }

  /** On success there is one item per cart line, in cart order, with that line's product
      and quantity and the price the product had in the catalog the cart was placed against. */
  lemma {:induction false} ReservedItems(c: Catalog, cart: seq<CartLine>)
    requires ReserveLines(c, cart).Success?
    ensures |ReserveLines(c, cart).value.items| == |cart|
    ensures forall k | 0 <= k < |cart| ::
      && cart[k].productId in c
      && cart[k].quantity > 0
      && ReserveLines(c, cart).value.items[k] == OrderItem(cart[k].productId, cart[k].quantity, c[cart[k].productId].price)
  {
    if cart != [] {
      var front := cart[..|cart| - 1];
      ReservedItems(c, front);
      ReservedStock(c, front);
    }
  }

  /** The running total is the sum of price * quantity over the captured items. */
  lemma {:induction false} ReservedTotal(c: Catalog, cart: seq<CartLine>)
    requires ReserveLines(c, cart).Success?
    ensures ReserveLines(c, cart).value.total == ItemsTotal(ReserveLines(c, cart).value.items)
  {
    if cart != [] {
      var front := cart[..|cart| - 1];
      ReservedTotal(c, front);
      var items := ReserveLines(c, cart).value.items;
      assert items[..|items| - 1] == ReserveLines(c, front).value.items;
    }
  }

  /** Every product a successful cart touches is left with non-negative stock, and a catalog
      without negative stock keeps none. */
  lemma {:induction false} ReservedStockNonNegative(c: Catalog, cart: seq<CartLine>)
    requires ReserveLines(c, cart).Success?
    ensures forall k | 0 <= k < |cart| ::
      cart[k].productId in ReserveLines(c, cart).value.catalog &&
      ReserveLines(c, cart).value.catalog[cart[k].productId].stock >= 0
    ensures (forall pid | pid in c :: c[pid].stock >= 0) ==>
      forall pid | pid in ReserveLines(c, cart).value.catalog :: ReserveLines(c, cart).value.catalog[pid].stock >= 0
  {
    if cart != [] {
      var front := cart[..|cart| - 1];
      ReservedStockNonNegative(c, front);
      var before := ReserveLines(c, front).value.catalog;
      var after := ReserveLines(c, cart).value.catalog;
      assert forall k | 0 <= k < |front| :: front[k] == cart[k];
      assert forall pid | pid in before && pid != cart[|cart| - 1].productId :: after[pid] == before[pid];
    }
  }

  /** What a successful CreateOrder produces: one item per line at the catalog's prices,
      a total that is the sum of price * quantity over those items, each product's stock
      lowered by what the cart asks of it, and no touched product left with negative stock. */
  lemma PlacedOrder(c: Catalog, caller: Caller, cart: seq<CartLine>, orderId: int, createdAt: int)
    requires Place(c, caller, cart, orderId, createdAt).Success?
    ensures var placed := Place(c, caller, cart, orderId, createdAt).value;
      && placed.catalog == Remaining(c, cart)
      && placed.order.total == ItemsTotal(placed.order.items)
      && |placed.order.items| == |cart|
      && (forall k | 0 <= k < |cart| ::
            && cart[k].productId in c
            && placed.order.items[k] == OrderItem(cart[k].productId, cart[k].quantity, c[cart[k].productId].price)
            && placed.catalog[cart[k].productId].stock >= 0)
  {
    ReservedStock(c, cart);
    ReservedItems(c, cart);
    ReservedTotal(c, cart);
    ReservedStockNonNegative(c, cart);
  }

  /** CreateOrder succeeds exactly for a USER with a non-empty cart whose every line is
      accepted against the stock the lines before it left. */
  lemma PlaceSucceedsIff(c: Catalog, caller: Caller, cart: seq<CartLine>, orderId: int, createdAt: int)
    ensures Place(c, caller, cart, orderId, createdAt).Success? <==>
      IsUser(caller) && cart != [] && forall k | 0 <= k < |cart| :: Accepted(c, cart, k)
  {
    ReserveLinesSucceedsIff(c, cart);
  }

  /** A cart whose quantities are all positive is never refused for a non-positive
      quantity: some earlier check of the failing line decides first. */
  lemma {:induction false} PositiveQuantitiesPassQuantityCheck(c: Catalog, cart: seq<CartLine>)
    requires QuantitiesInRange(cart)
    ensures ReserveLines(c, cart) != Failure(BadRequest(NonPositiveQuantity))
  {
    if cart != [] {
      var front := cart[..|cart| - 1];
      assert QuantitiesInRange(front) by {
        forall k | 0 <= k < |front|
          ensures front[k].quantity >= 1
        {
          assert front[k] == cart[k];
        }
      }
      PositiveQuantitiesPassQuantityCheck(c, front);
      assert cart[|cart| - 1].quantity >= 1;
    }
  }

  /** Through the endpoint the controller's own quantity check is unreachable: a cart with a
      quantity below 1 is refused by validation, and any other cart passes that check. */
  lemma RequestNeverReportsNonPositiveQuantity(c: Catalog, caller: Caller, cart: seq<CartLine>, orderId: int, createdAt: int)
    ensures PlaceRequest(c, caller, cart, orderId, createdAt) != Failure(BadRequest(NonPositiveQuantity))
  {
    if IsUser(caller) && QuantitiesInRange(cart) && cart != [] {
      PositiveQuantitiesPassQuantityCheck(c, cart);
    }
  }

  /** Two lines for the same product draw on one stock counter: together they must fit, and
      on success the stock drops by both quantities. */
  lemma DuplicateLinesShareStock(c: Catalog, caller: Caller, pid: int, q1: int, q2: int, orderId: int, createdAt: int)
    requires IsUser(caller) && pid in c && c[pid].isActive && q1 > 0 && q2 > 0
    ensures var placed := Place(c, caller, [CartLine(pid, q1), CartLine(pid, q2)], orderId, createdAt);
      && (placed.Success? <==> c[pid].stock >= q1 + q2)
      && (placed.Success? ==> placed.value.catalog[pid].stock == c[pid].stock - q1 - q2)
  {
    var cart := [CartLine(pid, q1), CartLine(pid, q2)];
    ReserveLinesSucceedsIff(c, cart);
    assert cart[..0] == [] && cart[..1] == [CartLine(pid, q1)];
    assert Requested(cart[..1], pid) == q1 by {
      assert cart[..1][..0] == [];
    }
    assert Accepted(c, cart, 0) <==> c[pid].stock >= q1;
    assert Accepted(c, cart, 1) <==> c[pid].stock - q1 >= q2;
    if ReserveLines(c, cart).Success? {
      ReservedStock(c, cart);
      assert cart[..1] == [CartLine(pid, q1)];
      assert Requested(cart, pid) == q1 + q2;
    }
  }

  /** Two units of a product priced 10.00 with five in stock: a 20.00 order, three left. */
  lemma TwoOfFiveInStock(c: Catalog, caller: Caller, orderId: int, createdAt: int)
    requires IsUser(caller) && 1 in c && c[1].isActive && c[1].stock == 5 && c[1].price == 1000
    ensures Place(c, caller, [CartLine(1, 2)], orderId, createdAt).Success?
    ensures var placed := Place(c, caller, [CartLine(1, 2)], orderId, createdAt).value;
      placed.order.total == 2000 && placed.catalog[1].stock == 3 && placed.order.status == Pending
  {
    var cart := [CartLine(1, 2)];
    assert cart[..|cart| - 1] == [];
    assert ReserveLines(c, cart[..|cart| - 1]) == Success(Reservation(c, [], 0));
    assert CheckLine(c, cart[0]) == Success(OrderItem(1, 2, 1000));
  }

  /** Ten units of a product with three in stock: refused, and nothing is reserved. */
  lemma TenOfThreeInStock(c: Catalog, caller: Caller, orderId: int, createdAt: int)
    requires IsUser(caller) && 1 in c && c[1].isActive && c[1].stock == 3
    ensures Place(c, caller, [CartLine(1, 10)], orderId, createdAt) == Failure(BadRequest(NotEnoughStock(c[1].name)))
  {
    var cart := [CartLine(1, 10)];
    assert cart[..|cart| - 1] == [];
    assert ReserveLines(c, cart[..|cart| - 1]) == Success(Reservation(c, [], 0));
    assert CheckLine(c, cart[0]) == Failure(BadRequest(NotEnoughStock(c[1].name)));
  }

  // ---------------------------------------------------------------------------
  // Compensation on cancellation

  /** `product.Stock += quantity` when the product still exists; a missing product is skipped. */
  function Restock(c: Catalog, pid: int, quantity: int): (r: Catalog)
    ensures r.Keys == c.Keys
    ensures pid in c ==> r[pid] == c[pid].(stock := c[pid].stock + quantity)
    ensures forall q | q in c && q != pid :: r[q] == c[q]
  {
    if pid in c then c[pid := c[pid].(stock := c[pid].stock + quantity)] else c
  }

  /** The cancellation loop: every item, in order, gives its quantity back. */
  function RestoreAll(c: Catalog, items: seq<OrderItem>): (r: Catalog)
    ensures r.Keys == c.Keys
  {
    if items == [] then c
    else
      var item := items[|items| - 1];
      Restock(RestoreAll(c, items[..|items| - 1]), item.productId, item.quantity)
  }

  /** Units of product `pid` the items of an order give back. */
  function Returned(items: seq<OrderItem>, pid: int): int
  {
    if items == [] then 0
    else
      var item := items[|items| - 1];
      Returned(items[..|items| - 1], pid) + (if item.productId == pid then item.quantity else 0)
  }

  /** The compensation raises each existing product's stock by the total quantity the items
      hold for it, and changes nothing else. */
  lemma {:induction false} RestoredStock(c: Catalog, items: seq<OrderItem>)
    ensures RestoreAll(c, items).Keys == c.Keys
    ensures forall pid | pid in c ::
      RestoreAll(c, items)[pid] == c[pid].(stock := c[pid].stock + Returned(items, pid))
  {
    if items != [] {
      RestoredStock(c, items[..|items| - 1]);
    }
  }

  /** Items that copy the product and quantity of the cart lines give back what the cart asked for. */
  lemma {:induction false} ReturnedIsRequested(cart: seq<CartLine>, items: seq<OrderItem>, pid: int)
    requires |items| == |cart|
    requires forall k | 0 <= k < |cart| :: items[k].productId == cart[k].productId && items[k].quantity == cart[k].quantity
    ensures Returned(items, pid) == Requested(cart, pid)
  {
    if cart != [] {
      ReturnedIsRequested(cart[..|cart| - 1], items[..|items| - 1], pid);
    }
  }

  /** Giving back the items of a successful placement restores the catalog it was placed
      against exactly. */
  lemma PlaceThenRestore(c: Catalog, cart: seq<CartLine>)
    requires ReserveLines(c, cart).Success?
    ensures RestoreAll(ReserveLines(c, cart).value.catalog, ReserveLines(c, cart).value.items) == c
  {
    var res := ReserveLines(c, cart).value;
    ReservedStock(c, cart);
    ReservedItems(c, cart);
    RestoredStock(res.catalog, res.items);
    var back := RestoreAll(res.catalog, res.items);
    forall pid | pid in c
      ensures back[pid] == c[pid]
    {
      ReturnedIsRequested(cart, res.items, pid);
    }
  }

  /** With positive quantities, the compensation never lowers a stock. */
  lemma RestoreRaisesStock(c: Catalog, items: seq<OrderItem>)
    requires forall k | 0 <= k < |items| :: items[k].quantity > 0
    ensures forall pid | pid in c :: RestoreAll(c, items)[pid].stock >= c[pid].stock
  {
    RestoredStock(c, items);
    forall pid | pid in c
      ensures Returned(items, pid) >= 0
    {
      ReturnedNonNegative(items, pid);
    }
  }

  lemma {:induction false} ReturnedNonNegative(items: seq<OrderItem>, pid: int)
    requires forall k | 0 <= k < |items| :: items[k].quantity > 0
    ensures Returned(items, pid) >= 0
  {
    if items != [] {
      ReturnedNonNegative(items[..|items| - 1], pid);
    }
  }
}
