/** The create-order page: the blank form it proposes (order number and
    date), the products it offers, and the placement handler that turns the
    posted (product id, quantity) lists into an order, its details and stock
    movements. */
module OrderPlacement {
  import opened Common
  import opened Entities
  import opened OrderNumbering
  import opened Database

  /** What the placement handler does with a post. */
  datatype PlaceOutcome =
    | InvalidForm        // model validation failed: the page is shown again
    | EmptySelection     // no product ids posted: the page is shown again
    | QuantityMissing    // fewer quantities than product ids: the indexer throws
    | SaveFailed         // the database rejects the save: no identity value is left, or a foreign key fails
    | Placed(orderId: int)

  /** The form the page starts from: a blank order whose number is proposed
      from the existing order ids and whose date is the current time. */
  function NewOrderForm(orderIds: seq<int>, now: int): (form: OrderForm)
    requires forall k :: k in orderIds ==> IsInt32(k)
    ensures form.orderDate == now && form.totalAmount == 0 && form.status == "Pending"
    ensures orderIds == [] ==> form.orderNumber == FirstOrderNumber
    ensures orderIds != [] ==>
      exists m :: m in orderIds && (forall k :: k in orderIds ==> k <= m) && form.orderNumber == OrderNumberAfter(m)
  {
    BlankForm.(orderNumber := ProposedOrderNumber(orderIds), orderDate := now)
  }

  /** The products offered in the product picker. */
  function InStockProducts(products: map<int, Product>): (offered: map<int, Product>)
    ensures forall id :: id in offered <==> id in products && products[id].stock > 0
    ensures forall id :: id in offered ==> offered[id] == products[id]
  {
    map id | id in products && products[id].stock > 0 :: products[id]
  }

  /** A posted line is turned into a detail when its quantity is positive
      and its product exists; every other line is skipped silently. */
  predicate Accepts(products: map<int, Product>, productId: int, quantity: int) {
    quantity > 0 && productId in products
  }

  /** The detail written for an accepted line: the product's current price
      is copied into the detail, and the line total is price times quantity. */
  function DetailFor(products: map<int, Product>, productId: int, quantity: int): (d: OrderDetail)
    requires productId in products
  {
    var price := products[productId].unitPrice;
    OrderDetail(productId, quantity, price, price * quantity)
  }

  /** The details the handler appends, in the order of the posted lines. */
  function PlacedDetails(products: map<int, Product>, productIds: seq<int>, quantities: seq<int>): (ds: seq<OrderDetail>)
    requires |productIds| <= |quantities|
    ensures |ds| <= |productIds|
    ensures forall d :: d in ds ==>
      && d.productId in products
      && d.quantity > 0
      && d.unitPrice == products[d.productId].unitPrice
      && d.lineTotal == d.unitPrice * d.quantity
    decreases |productIds|
  {
    if productIds == [] then []
    else
      var n := |productIds| - 1;
      PlacedDetails(products, productIds[..n], quantities[..n])
        + (if Accepts(products, productIds[n], quantities[n]) then [DetailFor(products, productIds[n], quantities[n])] else [])
  }

  /** How much stock the posted lines take from product `p`: the sum of the
      quantities of the accepted lines naming it. */
  function DebitedQty(products: map<int, Product>, productIds: seq<int>, quantities: seq<int>, p: int): int
    requires |productIds| <= |quantities|
    decreases |productIds|
  {
    if productIds == [] then 0
    else
      var n := |productIds| - 1;
      DebitedQty(products, productIds[..n], quantities[..n], p)
        + (if productIds[n] == p && Accepts(products, p, quantities[n]) then quantities[n] else 0)
  }

  /** The Products table after placement: each product loses what the
      accepted lines debit from it. */
  function StockAfterPlacement(products: map<int, Product>, productIds: seq<int>, quantities: seq<int>): map<int, Product>
    requires |productIds| <= |quantities|
  {
    map p | p in products :: products[p].(stock := products[p].stock - DebitedQty(products, productIds, quantities, p))
  }

  /** The order row written by placement: the posted header, with the total
      recomputed from the details (the posted total is discarded). */
  function PlacedOrder(form: OrderForm, ds: seq<OrderDetail>): (o: Order)
    requires forall d :: d in ds ==> d.quantity > 0 && d.lineTotal == d.unitPrice * d.quantity
    ensures Consistent(o) && o.details == ds
    ensures o.orderNumber == form.orderNumber && o.orderDate == form.orderDate && o.customerId == form.customerId
    ensures o.agentId == form.agentId && o.status == form.status && o.notes == form.notes
  {
    Order(form.orderNumber, form.orderDate, form.customerId, form.agentId,
          SumLineTotals(ds), form.status, form.notes, ds)
  }

  /** The placement handler (the page's POST). The line loop works on a copy
      of the affected rows, which is committed in one step at the end, as the
      single SaveChanges call does. `referencesExist` says whether the posted
      customer id, and the agent id when one is given, name existing rows:
      the Customers and Agents tables are not held here, and the database's
      foreign keys reject the save when they do not. */
  method PlaceOrder(db: AppDb, form: OrderForm, formValid: bool, referencesExist: bool, productIds: seq<int>, quantities: seq<int>)
    returns (r: PlaceOutcome)
    requires db.IdsValid()
    modifies db
    ensures db.IdsValid()
    ensures old(db.Valid()) ==> db.Valid()
    ensures !formValid ==> r == InvalidForm
    ensures formValid && |productIds| == 0 ==> r == EmptySelection
    ensures formValid && 0 < |productIds| && |quantities| < |productIds| ==> r == QuantityMissing
    ensures formValid && 0 < |productIds| <= |quantities| ==>
      r == if old(db.nextOrderId) <= MaxInt32 && referencesExist then Placed(old(db.nextOrderId)) else SaveFailed
    ensures !r.Placed? ==> db.products == old(db.products) && db.orders == old(db.orders) && db.nextOrderId == old(db.nextOrderId)
    ensures r.Placed? ==>
      && |productIds| <= |quantities|
      && r.orderId !in old(db.orders)
      && db.orders == old(db.orders)[r.orderId := PlacedOrder(form, PlacedDetails(old(db.products), productIds, quantities))]
      && db.products == StockAfterPlacement(old(db.products), productIds, quantities)
      && db.nextOrderId == r.orderId + 1
  {
    if !formValid {
      return InvalidForm;
    }
    if |productIds| == 0 {
      return EmptySelection;
    }
    var complete, stock, details, total := ProcessLines(db.products, productIds, quantities);
    if !complete {
      return QuantityMissing;
    }
    if db.nextOrderId > MaxInt32 || !referencesExist {
      return SaveFailed;
    }
    var id := db.nextOrderId;
    var order := Order(form.orderNumber, form.orderDate, form.customerId, form.agentId, total, form.status, form.notes, details);
    assert order == PlacedOrder(form, details);
    db.orders := db.orders[id := order];
    db.products := stock;
    db.nextOrderId := id + 1;
    r := Placed(id);
  }

  /** The handler's loop over the posted lines, on a copy of the catalogue.
      It stops, incomplete, at the first line without a quantity, where the
      C# indexer throws; otherwise it yields the new stock, the details and
      their total. */
  method ProcessLines(catalog: map<int, Product>, productIds: seq<int>, quantities: seq<int>)
    returns (complete: bool, stock: map<int, Product>, details: seq<OrderDetail>, total: int)
    ensures complete <==> |productIds| <= |quantities|
    ensures complete ==>
      && stock == StockAfterPlacement(catalog, productIds, quantities)
      && details == PlacedDetails(catalog, productIds, quantities)
      && total == SumLineTotals(details)
  {
    stock := catalog;
    details := [];
    total := 0;
    var i := 0;
    NothingPlaced(catalog, productIds, quantities);
    while i < |productIds|
      invariant 0 <= i <= |productIds| && i <= |quantities|
      invariant stock == StockAfterPlacement(catalog, productIds[..i], quantities[..i])
      invariant details == PlacedDetails(catalog, productIds[..i], quantities[..i])
      invariant total == SumLineTotals(details)
    {
      if i >= |quantities| {
        return false, stock, details, total;
      }
      stock, details, total := ProcessLine(catalog, productIds, quantities, i, stock, details, total);
      i := i + 1;
    }
    assert productIds[..i] == productIds && quantities[..i] == quantities[..|productIds|];
    PlacedDetailsIgnoresSurplus(catalog, productIds, quantities);
    StockIgnoresSurplus(catalog, productIds, quantities);
    complete := true;
  }

  /** One turn of the handler's loop: line `i` is turned into a detail and
      debited from its product when it is accepted, and skipped otherwise. */
  method ProcessLine(catalog: map<int, Product>, productIds: seq<int>, quantities: seq<int>, i: int,
                     stock: map<int, Product>, details: seq<OrderDetail>, total: int)
    returns (stock': map<int, Product>, details': seq<OrderDetail>, total': int)
    requires 0 <= i < |productIds| && i < |quantities|
    requires stock == StockAfterPlacement(catalog, productIds[..i], quantities[..i])
    requires details == PlacedDetails(catalog, productIds[..i], quantities[..i])
    requires total == SumLineTotals(details)
    ensures stock' == StockAfterPlacement(catalog, productIds[..i + 1], quantities[..i + 1])
    ensures details' == PlacedDetails(catalog, productIds[..i + 1], quantities[..i + 1])
    ensures total' == SumLineTotals(details')
  {
    PlacementStep(catalog, productIds, quantities, i);
    stock', details', total' := stock, details, total;
    var q := quantities[i];
    var pid := productIds[i];
    if q > 0 && pid in stock {
      var product := stock[pid];
      var lineTotal := product.unitPrice * q;
      var detail := OrderDetail(pid, q, product.unitPrice, lineTotal);
      assert detail == DetailFor(catalog, pid, q);
      assert (details + [detail])[..|details|] == details;
      details' := details + [detail];
      total' := total + lineTotal;
      stock' := stock[pid := product.(stock := product.stock - q)];
    }
  }

  /** Before the first line nothing is debited or written. */
  lemma NothingPlaced(products: map<int, Product>, productIds: seq<int>, quantities: seq<int>)
    ensures StockAfterPlacement(products, productIds[..0], quantities[..0]) == products
    ensures PlacedDetails(products, productIds[..0], quantities[..0]) == []
  {
    assert productIds[..0] == [] && quantities[..0] == [];
  }

  /** One turn of the placement loop, stated on the specification
      functions: line `i` adds its detail and debits its product when it is
      accepted, and changes nothing otherwise. */
  lemma PlacementStep(products: map<int, Product>, productIds: seq<int>, quantities: seq<int>, i: int)
    requires 0 <= i < |productIds| && i < |quantities|
    ensures var before := StockAfterPlacement(products, productIds[..i], quantities[..i]);
      StockAfterPlacement(products, productIds[..i + 1], quantities[..i + 1])
        == if Accepts(products, productIds[i], quantities[i])
           then before[productIds[i] := before[productIds[i]].(stock := before[productIds[i]].stock - quantities[i])]
           else before
    ensures PlacedDetails(products, productIds[..i + 1], quantities[..i + 1])
        == PlacedDetails(products, productIds[..i], quantities[..i])
           + (if Accepts(products, productIds[i], quantities[i]) then [DetailFor(products, productIds[i], quantities[i])] else [])
  {
    var ps, qs := productIds[..i + 1], quantities[..i + 1];
    assert ps[..i] == productIds[..i] && qs[..i] == quantities[..i];
    assert ps[i] == productIds[i] && qs[i] == quantities[i];
  }

  /** Quantities beyond the last product id are never read. */
  lemma PlacedDetailsIgnoresSurplus(products: map<int, Product>, productIds: seq<int>, quantities: seq<int>)
    requires |productIds| <= |quantities|
    ensures PlacedDetails(products, productIds, quantities[..|productIds|]) == PlacedDetails(products, productIds, quantities)
  {
    if productIds != [] {
      var n := |productIds| - 1;
      assert quantities[..|productIds|][..n] == quantities[..n];
    }
  }

  lemma StockIgnoresSurplus(products: map<int, Product>, productIds: seq<int>, quantities: seq<int>)
    requires |productIds| <= |quantities|
    ensures StockAfterPlacement(products, productIds, quantities[..|productIds|]) == StockAfterPlacement(products, productIds, quantities)
  {
    forall p | p in products
      ensures DebitedQty(products, productIds, quantities[..|productIds|], p) == DebitedQty(products, productIds, quantities, p)
    {
      DebitedIgnoresSurplus(products, productIds, quantities, p);
    }
  }

  lemma DebitedIgnoresSurplus(products: map<int, Product>, productIds: seq<int>, quantities: seq<int>, p: int)
    requires |productIds| <= |quantities|
    ensures DebitedQty(products, productIds, quantities[..|productIds|], p) == DebitedQty(products, productIds, quantities, p)
  {
    if productIds != [] {
      var n := |productIds| - 1;
      assert quantities[..|productIds|][..n] == quantities[..n];
    }
  }

  /** A posted line yields a detail exactly when it is accepted: the
      details are the accepted lines, each with its price snapshot, and
      nothing else (an unknown product id or a quantity <= 0 is skipped). */
  lemma {:induction false} PlacedDetailsAreAcceptedLines(products: map<int, Product>, productIds: seq<int>, quantities: seq<int>, d: OrderDetail)
    requires |productIds| <= |quantities|
    ensures d in PlacedDetails(products, productIds, quantities) <==>
      exists i :: 0 <= i < |productIds| && Accepts(products, productIds[i], quantities[i]) && d == DetailFor(products, productIds[i], quantities[i])
    decreases |productIds|
  {
    if productIds != [] {
      var n := |productIds| - 1;
      var ps, qs := productIds[..n], quantities[..n];
      PlacedDetailsAreAcceptedLines(products, ps, qs, d);
      if d in PlacedDetails(products, productIds, quantities) {
        if d in PlacedDetails(products, ps, qs) {
          var i :| 0 <= i < |ps| && Accepts(products, ps[i], qs[i]) && d == DetailFor(products, ps[i], qs[i]);
          assert productIds[i] == ps[i] && quantities[i] == qs[i];
        } else {
          assert Accepts(products, productIds[n], quantities[n]) && d == DetailFor(products, productIds[n], quantities[n]);
        }
      } else {
        forall i | 0 <= i < |productIds| && Accepts(products, productIds[i], quantities[i])
          ensures d != DetailFor(products, productIds[i], quantities[i])
        {
          if i < n {
            assert ps[i] == productIds[i] && qs[i] == quantities[i];
          }
        }
      }
    }
  }

  /** What placement takes from a product's stock is exactly the quantity
      its new details record for that product; this is what deletion gives
      back. */
  lemma {:induction false} DebitedMatchesDetails(products: map<int, Product>, productIds: seq<int>, quantities: seq<int>, p: int)
    requires |productIds| <= |quantities|
    ensures DebitedQty(products, productIds, quantities, p) == QuantityOf(PlacedDetails(products, productIds, quantities), p)
    decreases |productIds|
  {
    if productIds != [] {
      var n := |productIds| - 1;
      var ps, qs := productIds[..n], quantities[..n];
      DebitedMatchesDetails(products, ps, qs, p);
      var before := PlacedDetails(products, ps, qs);
      if Accepts(products, productIds[n], quantities[n]) {
        var ds := before + [DetailFor(products, productIds[n], quantities[n])];
        assert ds[..|ds| - 1] == before;
      } else {
        assert PlacedDetails(products, productIds, quantities) == before;
      }
    }
  }

  /** Accepted quantities are positive, so placement never adds stock. */
  lemma {:induction false} DebitedNonNegative(products: map<int, Product>, productIds: seq<int>, quantities: seq<int>, p: int)
    requires |productIds| <= |quantities|
    ensures DebitedQty(products, productIds, quantities, p) >= 0
    decreases |productIds|
  {
    if productIds != [] {
      var n := |productIds| - 1;
      DebitedNonNegative(products, productIds[..n], quantities[..n], p);
    }
  }

  /** A product named by no accepted line keeps its row unchanged. */
  lemma {:induction false} UnreferencedProductKeepsStock(products: map<int, Product>, productIds: seq<int>, quantities: seq<int>, p: int)
    requires |productIds| <= |quantities| && p in products
    requires forall i :: 0 <= i < |productIds| && Accepts(products, productIds[i], quantities[i]) ==> productIds[i] != p
    ensures DebitedQty(products, productIds, quantities, p) == 0
    ensures StockAfterPlacement(products, productIds, quantities)[p] == products[p]
    decreases |productIds|
  {
    if productIds != [] {
      var n := |productIds| - 1;
      var ps, qs := productIds[..n], quantities[..n];
      forall i | 0 <= i < |ps| && Accepts(products, ps[i], qs[i])
        ensures ps[i] != p
      {
        assert ps[i] == productIds[i] && qs[i] == quantities[i];
      }
      UnreferencedProductKeepsStock(products, ps, qs, p);
    }
  }

  /** When every posted line is skipped, the order is still written, with no
      details and a zero total, and no stock moves. */
  lemma {:induction false} AllLinesSkipped(products: map<int, Product>, form: OrderForm, productIds: seq<int>, quantities: seq<int>)
    requires |productIds| <= |quantities|
    requires forall i :: 0 <= i < |productIds| ==> !Accepts(products, productIds[i], quantities[i])
    ensures PlacedDetails(products, productIds, quantities) == []
    ensures PlacedOrder(form, []).totalAmount == 0
    ensures StockAfterPlacement(products, productIds, quantities) == products
    decreases |productIds|
  {
    forall p | p in products
      ensures StockAfterPlacement(products, productIds, quantities)[p] == products[p]
    {
      UnreferencedProductKeepsStock(products, productIds, quantities, p);
    }
    if productIds != [] {
      var n := |productIds| - 1;
      var ps, qs := productIds[..n], quantities[..n];
      forall i | 0 <= i < |ps|
        ensures !Accepts(products, ps[i], qs[i])
      {
        assert ps[i] == productIds[i] && qs[i] == quantities[i];
      }
      AllLinesSkipped(products, form, ps, qs);
    }
  }

  /** Placement never puts a product into the picker that was not there
      before: stock only goes down. */
  lemma PlacementNeverAddsOffers(products: map<int, Product>, productIds: seq<int>, quantities: seq<int>)
    requires |productIds| <= |quantities|
    ensures InStockProducts(StockAfterPlacement(products, productIds, quantities)).Keys <= InStockProducts(products).Keys
  {
    forall p | p in products
      ensures StockAfterPlacement(products, productIds, quantities)[p].stock <= products[p].stock
    {
      DebitedNonNegative(products, productIds, quantities, p);
    }
  }

  /** There is no stock check: two lines for the same product are debited
      cumulatively, and the stock goes below zero when they ask for more
      than there is. */
  lemma RepeatedLinesAccumulate(products: map<int, Product>, p: int, q1: int, q2: int)
    requires p in products && q1 > 0 && q2 > 0
    ensures StockAfterPlacement(products, [p, p], [q1, q2])[p].stock == products[p].stock - q1 - q2
    ensures products[p].stock < q1 + q2 ==> StockAfterPlacement(products, [p, p], [q1, q2])[p].stock < 0
    ensures |PlacedDetails(products, [p, p], [q1, q2])| == 2
  {
    var ps, qs := [p, p], [q1, q2];
    assert ps[..1] == [p] && qs[..1] == [q1];
    assert [p][..0] == [] && [q1][..0] == [];
    assert DebitedQty(products, [p], [q1], p) == q1;
    assert DebitedQty(products, ps, qs, p) == q1 + q2;
    assert |PlacedDetails(products, [p], [q1])| == 1;
  }

  /** One accepted line: its product loses exactly the quantity, the order
      gets one detail priced at the product's current price, and the total
      is that line's total. */
  lemma SingleLinePlacement(products: map<int, Product>, form: OrderForm, p: int, q: int)
    requires p in products && q > 0
    ensures StockAfterPlacement(products, [p], [q])[p].stock == products[p].stock - q
    ensures PlacedDetails(products, [p], [q]) == [OrderDetail(p, q, products[p].unitPrice, products[p].unitPrice * q)]
    ensures PlacedOrder(form, PlacedDetails(products, [p], [q])).totalAmount == q * products[p].unitPrice
  {
    assert [p][..0] == [] && [q][..0] == [];
    assert DebitedQty(products, [p], [q], p) == q;
    assert PlacedDetails(products, [], []) == [];
    var ds := PlacedDetails(products, [p], [q]);
    assert ds == [] + [DetailFor(products, p, q)];
    assert ds[..0] == [];
    assert SumLineTotals(ds) == ds[0].lineTotal;
  }

  /** A line naming an unknown product is skipped: the order holds only the
      valid line, and its total is that line's alone. */
  lemma UnknownProductSkipped(products: map<int, Product>, form: OrderForm, unknown: int, p: int, q1: int, q2: int)
    requires unknown !in products && p in products && q2 > 0
    ensures PlacedDetails(products, [unknown, p], [q1, q2]) == [DetailFor(products, p, q2)]
    ensures PlacedOrder(form, PlacedDetails(products, [unknown, p], [q1, q2])).totalAmount == products[p].unitPrice * q2
  {
    assert [unknown, p][..1] == [unknown] && [q1, q2][..1] == [q1];
    assert [unknown][..0] == [] && [q1][..0] == [];
    assert PlacedDetails(products, [unknown], [q1]) == [];
    var ds := PlacedDetails(products, [unknown, p], [q1, q2]);
    assert ds == [] + [DetailFor(products, p, q2)];
    assert ds[..0] == [];
    assert SumLineTotals(ds) == ds[0].lineTotal;
  }
}
