/** The delete-order page's POST handler: give back the stock of every
    detail whose product still exists, then remove the order; its details go
    with it. */
module OrderDeletion {
  import opened Common
  import opened Entities
  import opened Database
  import opened OrderPlacement

  /** What the handler answers. A missing id is NotFound; any other id,
      whether or not it names an order, redirects with a success message. */
  datatype DeleteOutcome = NotFound | Redirected

  /** The Products table after the details `ds` are given back: each
      product that still exists regains the quantities its details recorded;
      details of products no longer present restore nothing. */
  function StockAfterReversal(products: map<int, Product>, ds: seq<OrderDetail>): map<int, Product> {
    map p | p in products :: products[p].(stock := products[p].stock + QuantityOf(ds, p))
  }

  method DeleteOrder(db: AppDb, id: Option<int>) returns (r: DeleteOutcome)
    requires db.IdsValid()
    modifies db
    ensures db.IdsValid()
    ensures old(db.Valid()) ==> db.Valid()
    ensures r == NotFound <==> id.None?
    ensures db.nextOrderId == old(db.nextOrderId)
    ensures (id.None? || id.value !in old(db.orders)) ==> db.products == old(db.products) && db.orders == old(db.orders)
    ensures id.Some? && id.value in old(db.orders) ==>
      && db.orders == old(db.orders) - {id.value}
      && db.products == StockAfterReversal(old(db.products), old(db.orders)[id.value].details)
  {
    if id.None? {
      return NotFound;
    }
    var key := id.value;
    if key in db.orders {
      var ds := db.orders[key].details;
      var catalog := db.products;
      var stock := catalog;
      var i := 0;
      while i < |ds|
        invariant 0 <= i <= |ds|
        invariant unchanged(db)
        invariant stock == StockAfterReversal(catalog, ds[..i])
      {
        ReversalStep(catalog, ds, i);
        var detail := ds[i];
        if detail.productId in stock {
          var product := stock[detail.productId];
          stock := stock[detail.productId := product.(stock := product.stock + detail.quantity)];
        }
        i := i + 1;
      }
      assert ds[..i] == ds;
      db.products := stock;
      db.orders := db.orders - {key};
    }
    r := Redirected;
  }

  /** One turn of the restoring loop, stated on the specification function. */
  lemma ReversalStep(products: map<int, Product>, ds: seq<OrderDetail>, i: int)
    requires 0 <= i < |ds|
    ensures var before := StockAfterReversal(products, ds[..i]);
      var p := ds[i].productId;
      StockAfterReversal(products, ds[..i + 1])
        == if p in products then before[p := before[p].(stock := before[p].stock + ds[i].quantity)] else before
  {
    assert ds[..i + 1][..i] == ds[..i];
  }

  /** Details that never name product `p` give it nothing back. */
  lemma {:induction false} UnreferencedQuantityIsZero(ds: seq<OrderDetail>, p: int)
    requires forall d :: d in ds ==> d.productId != p
    ensures QuantityOf(ds, p) == 0
    decreases |ds|
  {
    if ds != [] {
      assert forall d :: d in ds[..|ds| - 1] ==> d in ds;
      UnreferencedQuantityIsZero(ds[..|ds| - 1], p);
    }
  }

  /** Deleting an order leaves every product its details do not name
      exactly as it was. */
  lemma UnreferencedProductUnchanged(products: map<int, Product>, ds: seq<OrderDetail>, p: int)
    requires p in products
    requires forall d :: d in ds ==> d.productId != p
    ensures StockAfterReversal(products, ds)[p] == products[p]
  {
    UnreferencedQuantityIsZero(ds, p);
  }

  lemma {:induction false} QuantityNonNegative(ds: seq<OrderDetail>, p: int)
    requires forall d :: d in ds ==> d.quantity > 0
    ensures QuantityOf(ds, p) >= 0
    decreases |ds|
  {
    if ds != [] {
      assert forall d :: d in ds[..|ds| - 1] ==> d in ds;
      QuantityNonNegative(ds[..|ds| - 1], p);
    }
  }

  /** Deleting a consistent order never takes a product out of the picker:
      its quantities are positive, so stock only goes up. */
  lemma DeletionNeverRemovesOffers(products: map<int, Product>, o: Order)
    requires Consistent(o)
    ensures InStockProducts(products).Keys <= InStockProducts(StockAfterReversal(products, o.details)).Keys
  {
    forall p | p in products
      ensures products[p].stock <= StockAfterReversal(products, o.details)[p].stock
    {
      QuantityNonNegative(o.details, p);
    }
  }
}
