/** The product customers report: order lines filtered by product and date
    window, grouped by product and customer, and sorted by product name,
    then by quantity (largest first). */
module ProductCustomers {
  import opened Common
  import opened Grouping
  import opened Sorting
  import opened ReportData

  datatype ProductCustomer = ProductCustomer(
    productId: int,
    productName: string,
    category: string,
    customerId: int,
    customerName: string,
    customerEmail: string,
    totalQuantity: int,
    totalSpent: int,
    orderCount: int,
    firstPurchase: int,
    lastPurchase: int)

  datatype BuyerKey = BuyerKey(
    productId: int,
    productName: string,
    category: Option<string>,
    customerId: int,
    customerName: string,
    email: Option<string>)

  predicate MatchesLine(l: LineRecord, productId: Option<int>, start: Option<int>, end: Option<int>) {
    (productId.None? || l.productId == productId.value) && InDateRange(l.orderDate, start, end)
  }

  /** The lines the report reads. */
  function FilteredLines(lines: seq<LineRecord>, productId: Option<int>, start: Option<int>, end: Option<int>): (r: seq<LineRecord>)
    ensures forall l :: l in r <==> l in lines && MatchesLine(l, productId, start, end)
  {
    Where(lines, (l: LineRecord) => MatchesLine(l, productId, start, end))
  }

  function KeyOf(l: LineRecord): BuyerKey {
    BuyerKey(l.productId, l.productName, l.category, l.customerId, l.customerName, l.email)
  }

  function RowOf(g: Group<BuyerKey, LineRecord>): ProductCustomer
    requires |g.members| > 0
  {
    ProductCustomer(g.key.productId, g.key.productName, CategoryOrNA(g.key.category),
      g.key.customerId, g.key.customerName, EmailOrEmpty(g.key.email),
      SumBy(g.members, Quantity), SumBy(g.members, LineTotal), |g.members|,
      MinBy(g.members, OrderDate), MaxBy(g.members, OrderDate))
  }

  function Rows(gs: seq<Group<BuyerKey, LineRecord>>): (r: seq<ProductCustomer>)
    requires NonEmpty(gs)
    ensures |r| == |gs| && forall i :: 0 <= i < |gs| ==> r[i] == RowOf(gs[i])
  {
    seq(|gs|, i requires 0 <= i < |gs| => RowOf(gs[i]))
  }

  predicate ByNameThenQuantity(a: ProductCustomer, b: ProductCustomer) {
    NameThenDescending(a.productName, a.totalQuantity, b.productName, b.totalQuantity)
  }

  lemma ByNameThenQuantityIsTotalPreorder()
    ensures IsTotalPreorder(ByNameThenQuantity)
  {
    forall a, b ensures ByNameThenQuantity(a, b) || ByNameThenQuantity(b, a) {
      NameThenDescendingTotal(a.productName, a.totalQuantity, b.productName, b.totalQuantity);
    }
    forall a, b, c | ByNameThenQuantity(a, b) && ByNameThenQuantity(b, c) ensures ByNameThenQuantity(a, c) {
      NameThenDescendingTransitive(a.productName, a.totalQuantity, b.productName, b.totalQuantity, c.productName, c.totalQuantity);
    }
  }

  function Groups(lines: seq<LineRecord>, productId: Option<int>, start: Option<int>, end: Option<int>): (gs: seq<Group<BuyerKey, LineRecord>>)
    ensures NonEmpty(gs)
  {
    GroupBy(FilteredLines(lines, productId, start, end), KeyOf)
  }

  /** The report, ordered by product name (ordinal order), then by quantity,
      largest first. */
  function ProductCustomers(lines: seq<LineRecord>, productId: Option<int>, start: Option<int>, end: Option<int>): (r: seq<ProductCustomer>)
    ensures forall i, j :: 0 <= i < j < |r| ==>
      && StrLe(r[i].productName, r[j].productName)
      && (r[i].productName == r[j].productName ==> r[i].totalQuantity >= r[j].totalQuantity)
  {
    ByNameThenQuantityIsTotalPreorder();
    var r := SortBy(Rows(Groups(lines, productId, start, end)), ByNameThenQuantity);
    SortedByNameThenQuantity(r);
    r
  }

  lemma SortedByNameThenQuantity(r: seq<ProductCustomer>)
    requires SortedBy(r, ByNameThenQuantity)
    ensures forall i, j :: 0 <= i < j < |r| ==>
      && StrLe(r[i].productName, r[j].productName)
      && (r[i].productName == r[j].productName ==> r[i].totalQuantity >= r[j].totalQuantity)
  {
    forall i, j | 0 <= i < j < |r|
      ensures StrLe(r[i].productName, r[j].productName)
    {
      assert ByNameThenQuantity(r[i], r[j]);
      StrLeReflexive(r[i].productName);
    }
  }

  /** `row` summarises the lines `ms` of `xs` that have key `k`: its sums and
      count are over exactly those lines, its first and last purchase dates
      are the earliest and latest of their order dates, and a missing
      category reads "N/A" and a missing e-mail "". */
  ghost predicate Summarises(row: ProductCustomer, xs: seq<LineRecord>, k: BuyerKey) {
    var ms := MembersWithKey(xs, KeyOf, k);
    && |ms| > 0
    && row.productId == k.productId && row.productName == k.productName
    && row.category == CategoryOrNA(k.category)
    && row.customerId == k.customerId && row.customerName == k.customerName
    && row.customerEmail == EmailOrEmpty(k.email)
    && row.totalQuantity == SumBy(ms, Quantity)
    && row.totalSpent == SumBy(ms, LineTotal)
    && row.orderCount == |ms|
    && (forall l :: l in ms ==> row.firstPurchase <= l.orderDate <= row.lastPurchase)
    && (exists l :: l in ms && l.orderDate == row.firstPurchase)
    && (exists l :: l in ms && l.orderDate == row.lastPurchase)
  }

  lemma GroupRowSummarises(g: Group<BuyerKey, LineRecord>, xs: seq<LineRecord>)
    requires |g.members| > 0 && g.members == MembersWithKey(xs, KeyOf, g.key)
    ensures Summarises(RowOf(g), xs, g.key)
  {
  }

  /** Every row summarises one non-empty product-and-customer group of the
      selected lines. */
  lemma {:induction false} RowsSummariseGroups(lines: seq<LineRecord>, productId: Option<int>, start: Option<int>, end: Option<int>)
    ensures forall row :: row in ProductCustomers(lines, productId, start, end) ==>
      exists k: BuyerKey :: Summarises(row, FilteredLines(lines, productId, start, end), k)
  {
    var xs := FilteredLines(lines, productId, start, end);
    var gs := Groups(lines, productId, start, end);
    ByNameThenQuantityIsTotalPreorder();
    assert ProductCustomers(lines, productId, start, end) == SortBy(Rows(gs), ByNameThenQuantity);
    SortedRowsSummarise(gs, xs);
  }

  lemma SortedRowsSummarise(gs: seq<Group<BuyerKey, LineRecord>>, xs: seq<LineRecord>)
    requires NonEmpty(gs) && Exact(gs, xs, KeyOf)
    requires IsTotalPreorder(ByNameThenQuantity)
    ensures forall row :: row in SortBy(Rows(gs), ByNameThenQuantity) ==> exists k: BuyerKey :: Summarises(row, xs, k)
  {
    var rows := Rows(gs);
    forall row | row in SortBy(rows, ByNameThenQuantity)
      ensures exists k: BuyerKey :: Summarises(row, xs, k)
    {
      assert row in multiset(rows);
      var i :| 0 <= i < |rows| && rows[i] == row;
      GroupRowSummarises(gs[i], xs);
    }
  }

  /** Every row's first purchase is no later than its last, and both lie in
      the window. */
  lemma {:induction false} PurchaseDatesOrdered(lines: seq<LineRecord>, productId: Option<int>, start: Option<int>, end: Option<int>)
    ensures forall row :: row in ProductCustomers(lines, productId, start, end) ==>
      && row.firstPurchase <= row.lastPurchase
      && InDateRange(row.firstPurchase, start, end)
      && InDateRange(row.lastPurchase, start, end)
  {
    var xs := FilteredLines(lines, productId, start, end);
    RowsSummariseGroups(lines, productId, start, end);
    forall row | row in ProductCustomers(lines, productId, start, end)
      ensures row.firstPurchase <= row.lastPurchase
      ensures InDateRange(row.firstPurchase, start, end) && InDateRange(row.lastPurchase, start, end)
    {
      var k: BuyerKey :| Summarises(row, xs, k);
      RowOfSelectedLines(row, xs, k, productId, start, end);
    }
  }

  /** Every selected line is counted: some row summarises the lines of its
      product-and-customer group. */
  lemma {:induction false} EveryLineHasARow(lines: seq<LineRecord>, productId: Option<int>, start: Option<int>, end: Option<int>, l: LineRecord)
    requires l in FilteredLines(lines, productId, start, end)
    ensures exists row :: row in ProductCustomers(lines, productId, start, end) && Summarises(row, FilteredLines(lines, productId, start, end), KeyOf(l))
  {
    var xs := FilteredLines(lines, productId, start, end);
    var gs := Groups(lines, productId, start, end);
    GroupOfElement(xs, KeyOf, l);
    var i :| 0 <= i < |gs| && gs[i].key == KeyOf(l);
    assert gs[i].members == MembersWithKey(xs, KeyOf, gs[i].key);
    GroupRowSummarises(gs[i], xs);
    ByNameThenQuantityIsTotalPreorder();
    SortKeepsElements(Rows(gs), ByNameThenQuantity, Rows(gs)[i]);
  }

  /** The report has one row per distinct product-and-customer key of the selected
      lines. */
  lemma {:induction false} OneRowPerKey(lines: seq<LineRecord>, productId: Option<int>, start: Option<int>, end: Option<int>)
    ensures |ProductCustomers(lines, productId, start, end)| == |KeySet(FilteredLines(lines, productId, start, end), KeyOf)|
  {
    var gs := Groups(lines, productId, start, end);
    ByNameThenQuantityIsTotalPreorder();
    assert |ProductCustomers(lines, productId, start, end)| == |Rows(gs)| == |gs|;
    GroupCount(FilteredLines(lines, productId, start, end), KeyOf);
  }

  /** With a product selected, every row is about that product. */
  lemma {:induction false} SelectedProductOnly(lines: seq<LineRecord>, productId: Option<int>, start: Option<int>, end: Option<int>)
    requires productId.Some?
    ensures forall row :: row in ProductCustomers(lines, productId, start, end) ==> row.productId == productId.value
  {
    var xs := FilteredLines(lines, productId, start, end);
    RowsSummariseGroups(lines, productId, start, end);
    forall row | row in ProductCustomers(lines, productId, start, end)
      ensures row.productId == productId.value
    {
      var k: BuyerKey :| Summarises(row, xs, k);
      RowOfSelectedLines(row, xs, k, productId, start, end);
    }
  }

  /** A row summarising selected lines inherits what the selection demands. */
  lemma RowOfSelectedLines(row: ProductCustomer, xs: seq<LineRecord>, k: BuyerKey, productId: Option<int>, start: Option<int>, end: Option<int>)
    requires Summarises(row, xs, k)
    requires forall l :: l in xs ==> MatchesLine(l, productId, start, end)
    ensures productId.Some? ==> row.productId == productId.value
    ensures row.firstPurchase <= row.lastPurchase
    ensures InDateRange(row.firstPurchase, start, end) && InDateRange(row.lastPurchase, start, end)
  {
    var ms := MembersWithKey(xs, KeyOf, k);
    MembersHaveKey(xs, KeyOf, k);
    assert ms[0] in ms;
    var f :| f in ms && f.orderDate == row.firstPurchase;
    var l :| l in ms && l.orderDate == row.lastPurchase;
  }

  function TotalQuantity(p: ProductCustomer): int { p.totalQuantity }
  function TotalSpent(p: ProductCustomer): int { p.totalSpent }

  /** The rows share out exactly the quantity and amount of the selected
      lines. */
  lemma {:induction false} RowsConserve(lines: seq<LineRecord>, productId: Option<int>, start: Option<int>, end: Option<int>)
    ensures SumBy(ProductCustomers(lines, productId, start, end), TotalQuantity) == SumBy(FilteredLines(lines, productId, start, end), Quantity)
    ensures SumBy(ProductCustomers(lines, productId, start, end), TotalSpent) == SumBy(FilteredLines(lines, productId, start, end), LineTotal)
  {
    var gs := Groups(lines, productId, start, end);
    var rows := Rows(gs);
    ByNameThenQuantityIsTotalPreorder();
    SortPreservesSum(rows, ByNameThenQuantity, TotalQuantity);
    SortPreservesSum(rows, ByNameThenQuantity, TotalSpent);
    SumOfRows(gs, rows, TotalQuantity, Quantity);
    SumOfRows(gs, rows, TotalSpent, LineTotal);
    GroupByConserves(FilteredLines(lines, productId, start, end), KeyOf, Quantity);
    GroupByConserves(FilteredLines(lines, productId, start, end), KeyOf, LineTotal);
  }
}
