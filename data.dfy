/** The database context both controllers share: the product rows, the order rows and
    the identity counters the database uses to number new rows. */
module Data {
  import opened Models

  class AppDbContext {
    var products: Catalog
    var orders: Ledger
    /** The id the next inserted product receives. */
    var nextProductId: int
    /** The id the next inserted order receives. */
    var nextOrderId: int

    /** Rows are stored under their own ids, which the counters have already handed out,
        and every stored order line holds a positive quantity. */
    ghost predicate Valid()
      reads this
    {
      && 0 < nextProductId
      && 0 < nextOrderId
      && (forall id | id in products :: products[id].id == id && 0 < id < nextProductId)
      && (forall id | id in orders :: orders[id].id == id && 0 < id < nextOrderId)
      && (forall id, k | id in orders && 0 <= k < |orders[id].items| :: orders[id].items[k].quantity > 0)
    }

    /** An empty database whose identity columns start at 1. */
    constructor ()
      ensures Valid()
      ensures products == map[] && orders == map[]
      ensures nextProductId == 1 && nextOrderId == 1
    {
      products := map[];
      orders := map[];
      nextProductId := 1;
      nextOrderId := 1;
    }
  }
}
