/** The customer purchases report: orders filtered by customer and date
    window, flattened into their lines, grouped by customer and product,
    and sorted by customer name, then by amount spent (largest first). */
module CustomerPurchases {
  import opened Common
  import opened Grouping
  import opened Sorting
  import opened ReportData

  /** One detail line of an order, joined to its product. */
  datatype OrderLine = OrderLine(productId: int, productName: string, category: Option<string>, quantity: int, lineTotal: int)

  /** An order joined to its customer, with its lines. */
  datatype OrderRecord = OrderRecord(
    orderNumber: string,
    orderDate: int,
    customerId: int,
    customerName: string,
    email: Option<string>,
    lines: seq<OrderLine>)

  datatype CustomerPurchase = CustomerPurchase(
    customerId: int,
    customerName: string,
    customerEmail: string,
    productId: int,
    productName: string,
    totalQuantity: int,
    totalSpent: int,
    purchaseCount: int,
    lastPurchaseDate: int)

  datatype PurchaseKey = PurchaseKey(customerId: int, customerName: string, email: Option<string>, productId: int, productName: string)

  predicate MatchesOrder(o: OrderRecord, customerId: Option<int>, start: Option<int>, end: Option<int>) {
    (customerId.None? || o.customerId == customerId.value) && InDateRange(o.orderDate, start, end)
  }

  function LineCount(o: OrderRecord): int { |o.lines| }

  /** The orders the report reads. */
  function FilteredOrders(orders: seq<OrderRecord>, customerId: Option<int>, start: Option<int>, end: Option<int>): (r: seq<OrderRecord>)
    ensures forall o :: o in r <==> o in orders && MatchesOrder(o, customerId, start, end)
  {
    Where(orders, (o: OrderRecord) => MatchesOrder(o, customerId, start, end))
  }

  /** An order's lines, each carrying its order's date, number and customer. */
  function LinesOf(o: OrderRecord): (r: seq<LineRecord>)
    ensures |r| == |o.lines|
    ensures forall l :: l in r ==>
      l.orderDate == o.orderDate && l.orderNumber == o.orderNumber && l.customerId == o.customerId
      && l.customerName == o.customerName && l.email == o.email
    ensures forall i :: 0 <= i < |r| ==>
      r[i].productId == o.lines[i].productId && r[i].productName == o.lines[i].productName
      && r[i].category == o.lines[i].category
      && r[i].quantity == o.lines[i].quantity && r[i].lineTotal == o.lines[i].lineTotal
  {
    seq(|o.lines|, i requires 0 <= i < |o.lines| =>
      LineRecord(o.orderDate, o.orderNumber, o.customerId, o.customerName, o.email,
        o.lines[i].productId, o.lines[i].productName, o.lines[i].category,
        o.lines[i].quantity, o.lines[i].lineTotal))
  }

  /** LINQ's `SelectMany`: every order's lines, order after order. */
  function Flatten(orders: seq<OrderRecord>): (r: seq<LineRecord>)
    ensures forall l :: l in r ==> exists o :: o in orders && l in LinesOf(o)
    ensures forall o, l :: o in orders && l in LinesOf(o) ==> l in r
    ensures |r| == SumBy(orders, LineCount)
    decreases |orders|
  {
    if orders == [] then []
    else
      var rest := Flatten(orders[1..]);
      assert forall l :: l in rest ==> exists o :: o in orders && l in LinesOf(o) by {
        forall l | l in rest ensures exists o :: o in orders && l in LinesOf(o) {
          var o :| o in orders[1..] && l in LinesOf(o);
          assert o in orders;
        }
      }
      LinesOf(orders[0]) + rest
  }

  /** `SelectMany` adds up: a sum over the flattened lines is the sum, order
      by order, of the sums over each order's lines. */
  lemma {:induction false} FlattenSum(orders: seq<OrderRecord>, f: LineRecord -> int)
    ensures SumBy(Flatten(orders), f) == SumBy(orders, (o: OrderRecord) => SumBy(LinesOf(o), f))
    decreases |orders|
  {
    if orders != [] {
      FlattenSum(orders[1..], f);
      SumByAppend(LinesOf(orders[0]), Flatten(orders[1..]), f);
    }
  }

  /** `SelectMany` keeps multiplicities: a line occurs in the flattened
      sequence as often as it occurs, in total, among the orders' lines. */
  lemma {:induction false} FlattenCount(orders: seq<OrderRecord>, l: LineRecord)
    ensures multiset(Flatten(orders))[l] == SumBy(orders, (o: OrderRecord) => multiset(LinesOf(o))[l])
    decreases |orders|
  {
    if orders != [] {
      FlattenCount(orders[1..], l);
      assert Flatten(orders) == LinesOf(orders[0]) + Flatten(orders[1..]);
      assert multiset(Flatten(orders)) == multiset(LinesOf(orders[0])) + multiset(Flatten(orders[1..]));
    }
  }

  function KeyOf(l: LineRecord): PurchaseKey {
    PurchaseKey(l.customerId, l.customerName, l.email, l.productId, l.productName)
  }

  /** The flattened lines of the orders the report reads. */
  function PurchaseLines(orders: seq<OrderRecord>, customerId: Option<int>, start: Option<int>, end: Option<int>): seq<LineRecord> {
    Flatten(FilteredOrders(orders, customerId, start, end))
  }

  function RowOf(g: Group<PurchaseKey, LineRecord>): CustomerPurchase
    requires |g.members| > 0
  {
    CustomerPurchase(g.key.customerId, g.key.customerName, EmailOrEmpty(g.key.email),
      g.key.productId, g.key.productName,
      SumBy(g.members, Quantity), SumBy(g.members, LineTotal), |g.members|,
      MaxBy(g.members, OrderDate))
  }

  function Rows(gs: seq<Group<PurchaseKey, LineRecord>>): (r: seq<CustomerPurchase>)
    requires NonEmpty(gs)
    ensures |r| == |gs| && forall i :: 0 <= i < |gs| ==> r[i] == RowOf(gs[i])
  {
    seq(|gs|, i requires 0 <= i < |gs| => RowOf(gs[i]))
  }

  predicate ByNameThenSpent(a: CustomerPurchase, b: CustomerPurchase) {
    NameThenDescending(a.customerName, a.totalSpent, b.customerName, b.totalSpent)
  }

  lemma ByNameThenSpentIsTotalPreorder()
    ensures IsTotalPreorder(ByNameThenSpent)
  {
    forall a, b ensures ByNameThenSpent(a, b) || ByNameThenSpent(b, a) {
      NameThenDescendingTotal(a.customerName, a.totalSpent, b.customerName, b.totalSpent);
    }
    forall a, b, c | ByNameThenSpent(a, b) && ByNameThenSpent(b, c) ensures ByNameThenSpent(a, c) {
      NameThenDescendingTransitive(a.customerName, a.totalSpent, b.customerName, b.totalSpent, c.customerName, c.totalSpent);
    }
  }

  function Groups(orders: seq<OrderRecord>, customerId: Option<int>, start: Option<int>, end: Option<int>): (gs: seq<Group<PurchaseKey, LineRecord>>)
    ensures NonEmpty(gs)
  {
    GroupBy(PurchaseLines(orders, customerId, start, end), KeyOf)
  }

  /** The report, ordered by customer name (ordinal order), then by amount
      spent, largest first. */
  function CustomerPurchases(orders: seq<OrderRecord>, customerId: Option<int>, start: Option<int>, end: Option<int>): (r: seq<CustomerPurchase>)
    ensures forall i, j :: 0 <= i < j < |r| ==>
      && StrLe(r[i].customerName, r[j].customerName)
      && (r[i].customerName == r[j].customerName ==> r[i].totalSpent >= r[j].totalSpent)
  {
    ByNameThenSpentIsTotalPreorder();
    var r := SortBy(Rows(Groups(orders, customerId, start, end)), ByNameThenSpent);
    SortedByNameThenSpent(r);
    r
  }

  lemma SortedByNameThenSpent(r: seq<CustomerPurchase>)
    requires SortedBy(r, ByNameThenSpent)
    ensures forall i, j :: 0 <= i < j < |r| ==>
      && StrLe(r[i].customerName, r[j].customerName)
      && (r[i].customerName == r[j].customerName ==> r[i].totalSpent >= r[j].totalSpent)
  {
    forall i, j | 0 <= i < j < |r|
      ensures StrLe(r[i].customerName, r[j].customerName)
    {
      assert ByNameThenSpent(r[i], r[j]);
      StrLeReflexive(r[i].customerName);
    }
  }

  /** `row` summarises the lines `ms` of `xs` that have key `k`: its sums and
      count are over exactly those lines, its last purchase date is the
      latest of their order dates, and a missing e-mail reads "". */
  ghost predicate Summarises(row: CustomerPurchase, xs: seq<LineRecord>, k: PurchaseKey) {
    var ms := MembersWithKey(xs, KeyOf, k);
    && |ms| > 0
    && row.customerId == k.customerId && row.customerName == k.customerName
    && row.customerEmail == EmailOrEmpty(k.email)
    && row.productId == k.productId && row.productName == k.productName
    && row.totalQuantity == SumBy(ms, Quantity)
    && row.totalSpent == SumBy(ms, LineTotal)
    && row.purchaseCount == |ms|
    && (forall l :: l in ms ==> l.orderDate <= row.lastPurchaseDate)
    && (exists l :: l in ms && l.orderDate == row.lastPurchaseDate)
  }

  lemma GroupRowSummarises(g: Group<PurchaseKey, LineRecord>, xs: seq<LineRecord>)
    requires |g.members| > 0 && g.members == MembersWithKey(xs, KeyOf, g.key)
    ensures Summarises(RowOf(g), xs, g.key)
  {
  }

  /** Every row summarises one non-empty customer-and-product group of the
      selected lines. */
  lemma {:induction false} RowsSummariseGroups(orders: seq<OrderRecord>, customerId: Option<int>, start: Option<int>, end: Option<int>)
    ensures forall row :: row in CustomerPurchases(orders, customerId, start, end) ==>
      exists k: PurchaseKey :: Summarises(row, PurchaseLines(orders, customerId, start, end), k)
  {
    var xs := PurchaseLines(orders, customerId, start, end);
    var gs := Groups(orders, customerId, start, end);
    ByNameThenSpentIsTotalPreorder();
    assert CustomerPurchases(orders, customerId, start, end) == SortBy(Rows(gs), ByNameThenSpent);
    SortedRowsSummarise(gs, xs);
  }

  lemma SortedRowsSummarise(gs: seq<Group<PurchaseKey, LineRecord>>, xs: seq<LineRecord>)
    requires NonEmpty(gs) && Exact(gs, xs, KeyOf)
    requires IsTotalPreorder(ByNameThenSpent)
    ensures forall row :: row in SortBy(Rows(gs), ByNameThenSpent) ==> exists k: PurchaseKey :: Summarises(row, xs, k)
  {
    var rows := Rows(gs);
    forall row | row in SortBy(rows, ByNameThenSpent)
      ensures exists k: PurchaseKey :: Summarises(row, xs, k)
    {
      assert row in multiset(rows);
      var i :| 0 <= i < |rows| && rows[i] == row;
      GroupRowSummarises(gs[i], xs);
    }
  }

  /** Every selected line is counted: some row summarises the lines of its
      customer-and-product group. */
  lemma {:induction false} EveryLineHasARow(orders: seq<OrderRecord>, customerId: Option<int>, start: Option<int>, end: Option<int>, l: LineRecord)
    requires l in PurchaseLines(orders, customerId, start, end)
    ensures exists row :: row in CustomerPurchases(orders, customerId, start, end) && Summarises(row, PurchaseLines(orders, customerId, start, end), KeyOf(l))
  {
    var xs := PurchaseLines(orders, customerId, start, end);
    var gs := Groups(orders, customerId, start, end);
    GroupOfElement(xs, KeyOf, l);
    var i :| 0 <= i < |gs| && gs[i].key == KeyOf(l);
    assert gs[i].members == MembersWithKey(xs, KeyOf, gs[i].key);
    GroupRowSummarises(gs[i], xs);
    ByNameThenSpentIsTotalPreorder();
    SortKeepsElements(Rows(gs), ByNameThenSpent, Rows(gs)[i]);
  }

  /** The report has one row per distinct customer-and-product key of the selected
      lines. */
  lemma {:induction false} OneRowPerKey(orders: seq<OrderRecord>, customerId: Option<int>, start: Option<int>, end: Option<int>)
    ensures |CustomerPurchases(orders, customerId, start, end)| == |KeySet(PurchaseLines(orders, customerId, start, end), KeyOf)|
  {
    var gs := Groups(orders, customerId, start, end);
    ByNameThenSpentIsTotalPreorder();
    assert |CustomerPurchases(orders, customerId, start, end)| == |Rows(gs)| == |gs|;
    GroupCount(PurchaseLines(orders, customerId, start, end), KeyOf);
  }

  /** With a customer selected, every row is about that customer. */
  lemma {:induction false} SelectedCustomerOnly(orders: seq<OrderRecord>, customerId: Option<int>, start: Option<int>, end: Option<int>)
    requires customerId.Some?
    ensures forall row :: row in CustomerPurchases(orders, customerId, start, end) ==> row.customerId == customerId.value
  {
    var xs := PurchaseLines(orders, customerId, start, end);
    RowsSummariseGroups(orders, customerId, start, end);
    PurchaseLinesSelected(orders, customerId, start, end);
    forall row | row in CustomerPurchases(orders, customerId, start, end)
      ensures row.customerId == customerId.value
    {
      var k: PurchaseKey :| Summarises(row, xs, k);
      RowOfSelectedLines(row, xs, k, customerId, start, end);
    }
  }

  /** Every row's last purchase date lies in the window. */
  lemma {:induction false} LastPurchaseInWindow(orders: seq<OrderRecord>, customerId: Option<int>, start: Option<int>, end: Option<int>)
    ensures forall row :: row in CustomerPurchases(orders, customerId, start, end) ==> InDateRange(row.lastPurchaseDate, start, end)
  {
    var xs := PurchaseLines(orders, customerId, start, end);
    RowsSummariseGroups(orders, customerId, start, end);
    PurchaseLinesSelected(orders, customerId, start, end);
    forall row | row in CustomerPurchases(orders, customerId, start, end)
      ensures InDateRange(row.lastPurchaseDate, start, end)
    {
      var k: PurchaseKey :| Summarises(row, xs, k);
      RowOfSelectedLines(row, xs, k, customerId, start, end);
    }
  }

  /** Every line the report reads comes from a selected order, so it carries
      that order's customer and date. */
  lemma PurchaseLinesSelected(orders: seq<OrderRecord>, customerId: Option<int>, start: Option<int>, end: Option<int>)
    ensures forall l :: l in PurchaseLines(orders, customerId, start, end) ==>
      (customerId.None? || l.customerId == customerId.value) && InDateRange(l.orderDate, start, end)
  {
    forall l | l in PurchaseLines(orders, customerId, start, end)
      ensures (customerId.None? || l.customerId == customerId.value) && InDateRange(l.orderDate, start, end)
    {
      var o :| o in FilteredOrders(orders, customerId, start, end) && l in LinesOf(o);
    }
  }

  /** A row summarising selected lines inherits what the selection demands. */
  lemma RowOfSelectedLines(row: CustomerPurchase, xs: seq<LineRecord>, k: PurchaseKey, customerId: Option<int>, start: Option<int>, end: Option<int>)
    requires Summarises(row, xs, k)
    requires forall l :: l in xs ==> (customerId.None? || l.customerId == customerId.value) && InDateRange(l.orderDate, start, end)
    ensures customerId.Some? ==> row.customerId == customerId.value
    ensures InDateRange(row.lastPurchaseDate, start, end)
  {
    var ms := MembersWithKey(xs, KeyOf, k);
    MembersHaveKey(xs, KeyOf, k);
    assert ms[0] in ms;
    var l :| l in ms && l.orderDate == row.lastPurchaseDate;
  }

  /** A window that excludes every order gives an empty report. */
  lemma {:induction false} EmptyWindowEmptyReport(orders: seq<OrderRecord>, customerId: Option<int>, start: Option<int>, end: Option<int>)
    requires forall o :: o in orders ==> !InDateRange(o.orderDate, start, end)
    ensures CustomerPurchases(orders, customerId, start, end) == []
  {
    NoOrderSelected(orders, customerId, start, end);
  }

  lemma {:induction false} NoOrderSelected(orders: seq<OrderRecord>, customerId: Option<int>, start: Option<int>, end: Option<int>)
    requires forall o :: o in orders ==> !InDateRange(o.orderDate, start, end)
    ensures FilteredOrders(orders, customerId, start, end) == []
    decreases |orders|
  {
    if orders != [] {
      assert orders[0] in orders;
      NoOrderSelected(orders[1..], customerId, start, end);
    }
  }

  /** Orders without lines contribute nothing: dropping them from the input
      leaves the report as it is. */
  lemma {:induction false} EmptyOrdersContributeNothing(orders: seq<OrderRecord>, customerId: Option<int>, start: Option<int>, end: Option<int>)
    ensures CustomerPurchases(orders, customerId, start, end)
         == CustomerPurchases(Where(orders, (o: OrderRecord) => |o.lines| > 0), customerId, start, end)
  {
    FlattenSkipsEmptyOrders(orders, customerId, start, end);
  }

  lemma {:induction false} FlattenSkipsEmptyOrders(orders: seq<OrderRecord>, customerId: Option<int>, start: Option<int>, end: Option<int>)
    ensures PurchaseLines(orders, customerId, start, end)
         == PurchaseLines(Where(orders, (o: OrderRecord) => |o.lines| > 0), customerId, start, end)
    decreases |orders|
  {
    if orders != [] {
      FlattenSkipsEmptyOrders(orders[1..], customerId, start, end);
    }
  }

  function TotalQuantity(p: CustomerPurchase): int { p.totalQuantity }
  function TotalSpent(p: CustomerPurchase): int { p.totalSpent }

  /** The rows share out exactly the quantity and amount of the selected
      lines. */
  lemma {:induction false} RowsConserve(orders: seq<OrderRecord>, customerId: Option<int>, start: Option<int>, end: Option<int>)
    ensures SumBy(CustomerPurchases(orders, customerId, start, end), TotalQuantity) == SumBy(PurchaseLines(orders, customerId, start, end), Quantity)
    ensures SumBy(CustomerPurchases(orders, customerId, start, end), TotalSpent) == SumBy(PurchaseLines(orders, customerId, start, end), LineTotal)
  {
    var gs := Groups(orders, customerId, start, end);
    var rows := Rows(gs);
    ByNameThenSpentIsTotalPreorder();
    SortPreservesSum(rows, ByNameThenSpent, TotalQuantity);
    SortPreservesSum(rows, ByNameThenSpent, TotalSpent);
    SumOfRows(gs, rows, TotalQuantity, Quantity);
    SumOfRows(gs, rows, TotalSpent, LineTotal);
    GroupByConserves(PurchaseLines(orders, customerId, start, end), KeyOf, Quantity);
    GroupByConserves(PurchaseLines(orders, customerId, start, end), KeyOf, LineTotal);
  }
}
