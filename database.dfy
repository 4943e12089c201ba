/** The persistent state both order handlers work on: the Products table,
    the Orders table (each order carrying its OrderDetail rows), and the
    identity counter that assigns order ids. */
module Database {
  import opened Common
  import opened Entities

  class AppDb {
    /** Products by ProductId. */
    var products: map<int, Product>
    /** Orders by OrderId, each with its details. */
    var orders: map<int, Order>
    /** The id the next inserted order receives (an `int` identity column:
        ids are never reused, even after a delete). */
    var nextOrderId: int

    /** What the database itself guarantees: order ids are positive `int`s
        below the identity counter. */
    ghost predicate IdsValid()
      reads this
    {
      && 1 <= nextOrderId <= MaxInt32 + 1
      && forall id :: id in orders ==> 1 <= id < nextOrderId
    }

    /** The table invariant the placement and deletion paths keep, on top of
        `IdsValid`: every order is consistent with its details. The edit page
        can break it, and both paths still run then. */
    ghost predicate Valid()
      reads this
    {
      && IdsValid()
      && forall id :: id in orders ==> Consistent(orders[id])
    }

    /** A database holding the given catalogue and no orders yet. */
    constructor (catalog: map<int, Product>)
      ensures Valid()
      ensures products == catalog && orders == map[] && nextOrderId == 1
    {
      products := catalog;
      orders := map[];
      nextOrderId := 1;
    }
  }
}
