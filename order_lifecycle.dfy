/** Placement followed by deletion of the same order. */
module OrderLifecycle {
  import opened Common
  import opened Entities
  import opened Database
  import opened OrderPlacement
  import opened OrderDeletion
  import opened OrderNumbering

  /** Giving back the details an order was placed with restores every
      product's row exactly: the stock debited per product equals the
      quantity its details record. */
  lemma ReversalUndoesPlacement(products: map<int, Product>, productIds: seq<int>, quantities: seq<int>)
    requires |productIds| <= |quantities|
    ensures StockAfterReversal(StockAfterPlacement(products, productIds, quantities),
                               PlacedDetails(products, productIds, quantities)) == products
  {
    var placed := StockAfterPlacement(products, productIds, quantities);
    var ds := PlacedDetails(products, productIds, quantities);
    forall p | p in products
      ensures StockAfterReversal(placed, ds)[p] == products[p]
    {
      DebitedMatchesDetails(products, productIds, quantities, p);
    }
  }

  /** Placing an order from a valid post whose customer and agent exist, and
      then deleting it, with nothing in between, leaves the Products and
      Orders tables as they were; only the identity counter has moved on. */
  method PlaceThenDelete(db: AppDb, form: OrderForm, productIds: seq<int>, quantities: seq<int>)
    requires db.Valid()
    requires 0 < |productIds| <= |quantities| && db.nextOrderId <= MaxInt32
    modifies db
    ensures db.Valid()
    ensures db.products == old(db.products) && db.orders == old(db.orders)
    ensures db.nextOrderId == old(db.nextOrderId) + 1
  {
    var placed := PlaceOrder(db, form, true, true, productIds, quantities);
    var deleted := DeleteOrder(db, Some(placed.orderId));
    ReversalUndoesPlacement(old(db.products), productIds, quantities);
    assert db.orders == old(db.orders);
  }

  /** Order numbers proposed on the create page grow with placements: when
      `ids` lists the Orders table's keys, a placement stores the order under
      a key above all of them, and unless that key is `int.MaxValue` (where
      the proposal wraps to a negative number) the number proposed next has
      a strictly larger numeric suffix than the one proposed before. */
  method PlaceThenPropose(db: AppDb, form: OrderForm, formValid: bool, referencesExist: bool,
                          productIds: seq<int>, quantities: seq<int>, ids: seq<int>)
    returns (r: PlaceOutcome)
    requires db.Valid()
    requires forall k :: k in ids <==> k in db.orders
    modifies db
    ensures db.Valid()
    ensures r.Placed? ==> forall k :: k in ids + [r.orderId] <==> k in db.orders
    ensures r.Placed? && r.orderId < MaxInt32 ==>
      var before, after := ProposedOrderNumber(ids), ProposedOrderNumber(ids + [r.orderId]);
      && |before| >= 9 && AllDigits(before[3..])
      && |after| >= 9 && AllDigits(after[3..])
      && ParseDigits(before[3..]) < ParseDigits(after[3..])
  {
    assert forall k :: k in ids ==> 1 <= k < db.nextOrderId;
    r := PlaceOrder(db, form, formValid, referencesExist, productIds, quantities);
    if r.Placed? {
      assert forall k :: k in ids + [r.orderId] <==> k in ids || k == r.orderId;
      if r.orderId < MaxInt32 {
        SuffixGrowsAfterPlacement(ids, r.orderId);
      }
    }
  }
}
