/** The order lifecycle of OrdersController, stated on values: the status strings, who may
    see an order, the administrator's status change and the owner's cancellation with its
    stock compensation. */
module Lifecycle {
  import opened Models
  import opened Placement

  /** The string stored for each status. */
  function StatusName(s: Status): string
  {
    match s
    case Pending => "PENDING"
    case Preparing => "PREPARING"
    case Delivered => "DELIVERED"
    case Cancelled => "CANCELLED"
  }

  /** UpdateStatus's allowed-status check: exactly the four names are accepted, case and all. */
  function ParseStatus(name: string): (r: Option<Status>)
    ensures r.Some? ==> StatusName(r.value) == name
    ensures r.None? <==> name !in {"PENDING", "PREPARING", "DELIVERED", "CANCELLED"}
  {
    if name == "PENDING" then Some(Pending)
    else if name == "PREPARING" then Some(Preparing)
    else if name == "DELIVERED" then Some(Delivered)
    else if name == "CANCELLED" then Some(Cancelled)
    else None
  }

  /** Every status's name is accepted and read back as that status. */
  lemma StatusNameParses(s: Status)
    ensures ParseStatus(StatusName(s)) == Some(s)
  {
  }

  /** An administrator sees every order; anyone else only their own. */
  predicate CanSee(caller: Caller, o: Order)
  {
    IsAdmin(caller) || o.userId == caller.userId
  }

  /** GetOrder: 404 for an absent id, 403 for an order the caller may not see. */
  function FindOrder(ledger: Ledger, caller: Caller, id: int): (r: Result<Order>)
    ensures r.Success? <==> id in ledger && CanSee(caller, ledger[id])
    ensures r.Success? ==> r.value == ledger[id]
    ensures r == Failure(NotFound) <==> id !in ledger
    ensures r == Failure(Forbidden) <==> id in ledger && !CanSee(caller, ledger[id])
  {
    if id !in ledger then Failure(NotFound)
    else if !IsAdmin(caller) && ledger[id].userId != caller.userId then Failure(Forbidden)
    else Success(ledger[id])
  }

  /** The orders GetOrders returns, before sorting. */
  function VisibleOrders(ledger: Ledger, caller: Caller): (r: set<Order>)
    ensures forall o :: o in r <==> o in ledger.Values && CanSee(caller, o)
    ensures IsAdmin(caller) ==> r == ledger.Values
  {
    set o | o in ledger.Values && CanSee(caller, o)
  }

  /** GetOrder and GetOrders apply one visibility rule: a stored order is returned by id
      exactly when it is among the orders listed for that caller. */
  lemma FindOrderAgreesWithListing(ledger: Ledger, caller: Caller, id: int)
    requires id in ledger
    ensures FindOrder(ledger, caller, id).Success? <==> ledger[id] in VisibleOrders(ledger, caller)
  {
  }

  predicate NewestFirst(s: seq<Order>)
  {
    forall i, j | 0 <= i < j < |s| :: s[i].createdAt >= s[j].createdAt
  }

  /** Insertion into a list kept newest first (OrderByDescending on CreatedAt). */
  function InsertByNewest(s: seq<Order>, o: Order): (r: seq<Order>)
    ensures |r| == |s| + 1
    ensures o in r
  {
    if s == [] || o.createdAt >= s[0].createdAt then [o] + s
    else [s[0]] + InsertByNewest(s[1..], o)
  }

  /** Insertion adds the order once and loses nothing. */
  lemma {:induction false} InsertAddsOnce(s: seq<Order>, o: Order)
    ensures multiset(InsertByNewest(s, o)) == multiset(s) + multiset{o}
  {
    if s != [] && o.createdAt < s[0].createdAt {
      InsertAddsOnce(s[1..], o);
      assert s == [s[0]] + s[1..];
    }
  }

  /** Insertion keeps a newest-first list newest first. */
  lemma {:induction false} InsertKeepsNewestFirst(s: seq<Order>, o: Order)
    requires NewestFirst(s)
    ensures NewestFirst(InsertByNewest(s, o))
  {
    if s != [] && o.createdAt < s[0].createdAt {
      var rest := InsertByNewest(s[1..], o);
      InsertKeepsNewestFirst(s[1..], o);
      InsertAddsOnce(s[1..], o);
      forall x | x in rest
        ensures x.createdAt <= s[0].createdAt
      {
        assert x in multiset(rest);
        if x != o {
          var k :| 0 <= k < |s[1..]| && s[1..][k] == x;
          assert s[k + 1] == x;
        }
      }
    }
  }

  /** UpdateStatus (administrators only): 404 for an absent order, 400 for a string that is
      not one of the four statuses, otherwise the order with its status replaced, whatever
      the status was before. */
  function SetStatus(ledger: Ledger, caller: Caller, id: int, name: string): (r: Result<Order>)
    ensures !IsAdmin(caller) ==> r == Failure(Forbidden)
    ensures IsAdmin(caller) && id !in ledger ==> r == Failure(NotFound)
    ensures IsAdmin(caller) && id in ledger && ParseStatus(name).None? ==> r == Failure(BadRequest(InvalidStatus))
    ensures r.Success? <==> IsAdmin(caller) && id in ledger && ParseStatus(name).Some?
    ensures r.Success? ==> r.value == ledger[id].(status := ParseStatus(name).value)
  {
    if !IsAdmin(caller) then Failure(Forbidden)
    else if id !in ledger then Failure(NotFound)
    else match ParseStatus(name)
      case None => Failure(BadRequest(InvalidStatus))
      case Some(s) => Success(ledger[id].(status := s))
  }

  /** The status change enforces no transition table: any of the four statuses can be set
      from any status, including the terminal ones. */
  lemma SetStatusFromAnyStatus(ledger: Ledger, caller: Caller, id: int, target: Status)
    requires IsAdmin(caller) && id in ledger
    ensures SetStatus(ledger, caller, id, StatusName(target)) == Success(ledger[id].(status := target))
  {
    StatusNameParses(target);
  }

  /** The outcome of a successful cancellation: the catalog to persist and the updated order. */
  datatype Cancellation = Cancellation(catalog: Catalog, order: Order)

  /** CancelOrder (USER role only): 404 for an absent order, 403 for someone else's order,
      400 unless the order is PENDING; otherwise the order becomes CANCELLED and every item's
      quantity goes back to its product. */
  function Cancel(c: Catalog, ledger: Ledger, caller: Caller, id: int): (r: Result<Cancellation>)
    ensures r.Success? <==>
      IsUser(caller) && id in ledger && ledger[id].userId == caller.userId && ledger[id].status == Pending
    ensures !IsUser(caller) ==> r == Failure(Forbidden)
    ensures IsUser(caller) && id !in ledger ==> r == Failure(NotFound)
    ensures IsUser(caller) && id in ledger && ledger[id].userId != caller.userId ==> r == Failure(Forbidden)
    ensures IsUser(caller) && id in ledger && ledger[id].userId == caller.userId && ledger[id].status != Pending ==>
      r == Failure(BadRequest(NotPending))
    ensures r.Success? ==> r.value.order == ledger[id].(status := Cancelled)
    ensures r.Success? ==> r.value.catalog == RestoreAll(c, ledger[id].items)
  {
    if !IsUser(caller) then Failure(Forbidden)
    else if id !in ledger then Failure(NotFound)
    else
      var o := ledger[id];
      if o.userId != caller.userId then Failure(Forbidden)
      else if o.status != Pending then Failure(BadRequest(NotPending))
      else Success(Cancellation(RestoreAll(c, o.items), o.(status := Cancelled)))
  }

  /** Placing an order and then cancelling it as the same caller gives back the catalog the
      order was placed against, stock for stock, and leaves the order CANCELLED. */
  lemma PlaceThenCancel(c: Catalog, ledger: Ledger, caller: Caller, cart: seq<CartLine>, orderId: int, createdAt: int)
    requires Place(c, caller, cart, orderId, createdAt).Success?
    ensures var placed := Place(c, caller, cart, orderId, createdAt).value;
      Cancel(placed.catalog, ledger[orderId := placed.order], caller, orderId)
        == Success(Cancellation(c, placed.order.(status := Cancelled)))
  {
    PlaceThenRestore(c, cart);
  }

  /** Because the status change is permissive, an administrator can put a cancelled order
      back to PENDING and its owner can cancel it again: the compensation then runs twice
      and every product of the order gains its quantity twice over. */
  lemma ReopenedOrderIsRestockedTwice(c: Catalog, ledger: Ledger, owner: Caller, admin: Caller, id: int)
    requires IsUser(owner) && IsAdmin(admin)
    requires id in ledger && ledger[id].userId == owner.userId && ledger[id].status == Pending
    ensures var first := Cancel(c, ledger, owner, id).value;
      var afterFirst := ledger[id := first.order];
      var reopened := SetStatus(afterFirst, admin, id, "PENDING").value;
      var second := Cancel(first.catalog, afterFirst[id := reopened], owner, id);
      && second.Success?
      && forall pid | pid in c ::
           second.value.catalog[pid].stock == c[pid].stock + 2 * Returned(ledger[id].items, pid)
  {
    var items := ledger[id].items;
    RestoredStock(c, items);
    RestoredStock(RestoreAll(c, items), items);
  }
}
