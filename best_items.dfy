/** The best-selling products report: order lines inside the date window,
    grouped by product, summed, sorted by quantity sold (largest first) and
    cut to the first `topCount` rows. */
module BestItems {
  import opened Common
  import opened Grouping
  import opened Sorting
  import opened ReportData

  datatype BestSellingProduct = BestSellingProduct(
    productId: int,
    productName: string,
    category: string,
    totalQuantitySold: int,
    totalRevenue: int,
    orderCount: int)

  /** The grouping key; the category is kept raw, so a missing category and
      the text "N/A" are different groups that print alike. */
  datatype ProductKey = ProductKey(productId: int, productName: string, category: Option<string>)

  const DefaultTopCount: int := 10

  function KeyOf(l: LineRecord): ProductKey {
    ProductKey(l.productId, l.productName, l.category)
  }

  /** The lines whose order date lies in the window. */
  function DateFiltered(lines: seq<LineRecord>, start: Option<int>, end: Option<int>): (r: seq<LineRecord>)
    ensures forall l :: l in r <==> l in lines && InDateRange(l.orderDate, start, end)
  {
    Where(lines, (l: LineRecord) => InDateRange(l.orderDate, start, end))
  }

  function RowOf(g: Group<ProductKey, LineRecord>): BestSellingProduct {
    BestSellingProduct(g.key.productId, g.key.productName, CategoryOrNA(g.key.category),
      SumBy(g.members, Quantity), SumBy(g.members, LineTotal), |g.members|)
  }

  function Rows(gs: seq<Group<ProductKey, LineRecord>>): (r: seq<BestSellingProduct>)
    ensures |r| == |gs| && forall i :: 0 <= i < |gs| ==> r[i] == RowOf(gs[i])
  {
    seq(|gs|, i requires 0 <= i < |gs| => RowOf(gs[i]))
  }

  predicate ByQuantityDesc(a: BestSellingProduct, b: BestSellingProduct) {
    a.totalQuantitySold >= b.totalQuantitySold
  }

  lemma ByQuantityDescIsTotalPreorder()
    ensures IsTotalPreorder(ByQuantityDesc)
  {
  }

  function Groups(lines: seq<LineRecord>, start: Option<int>, end: Option<int>): seq<Group<ProductKey, LineRecord>> {
    GroupBy(DateFiltered(lines, start, end), KeyOf)
  }

  /** Every product group of the window, largest quantity first. */
  function AllBestSelling(lines: seq<LineRecord>, start: Option<int>, end: Option<int>): (r: seq<BestSellingProduct>)
    ensures forall i, j :: 0 <= i < j < |r| ==> r[i].totalQuantitySold >= r[j].totalQuantitySold
  {
    ByQuantityDescIsTotalPreorder();
    SortBy(Rows(Groups(lines, start, end)), ByQuantityDesc)
  }

  /** What the page gets from the query: the rows, or a database error when
      the row count in the query's `TOP` clause is negative. */
  datatype BestItemsPage = Shown(rows: seq<BestSellingProduct>) | QueryRejected

  /** The report: the first `topCount` rows of the sorted grouping. The count
      comes unchecked from the query string; the database refuses a negative
      one, and a count of zero gives no rows. */
  function BestItems(lines: seq<LineRecord>, start: Option<int>, end: Option<int>, topCount: int): (r: BestItemsPage)
    ensures r.QueryRejected? <==> topCount < 0
    ensures r.Shown? ==> |r.rows| == if topCount < |AllBestSelling(lines, start, end)| then topCount else |AllBestSelling(lines, start, end)|
    ensures r.Shown? ==> r.rows == AllBestSelling(lines, start, end)[..|r.rows|]
    ensures r.Shown? ==> forall i, j :: 0 <= i < j < |r.rows| ==> r.rows[i].totalQuantitySold >= r.rows[j].totalQuantitySold
  {
    if topCount < 0 then QueryRejected else Shown(Take(AllBestSelling(lines, start, end), topCount))
  }

  /** What holds however the database orders rows of equal quantity: no
      product left out by the cut sold more than a product shown. */
  lemma ShownRowsOutrankTheRest(lines: seq<LineRecord>, start: Option<int>, end: Option<int>, topCount: int)
    requires topCount >= 0
    ensures var all, shown := AllBestSelling(lines, start, end), BestItems(lines, start, end, topCount).rows;
      forall r, r' :: r in shown && r' in all[|shown|..] ==> r.totalQuantitySold >= r'.totalQuantitySold
  {
    var all, shown := AllBestSelling(lines, start, end), BestItems(lines, start, end, topCount).rows;
    CutOfSortedRows(all, |shown|);
  }

  lemma CutOfSortedRows(all: seq<BestSellingProduct>, n: nat)
    requires n <= |all|
    requires forall i, j :: 0 <= i < j < |all| ==> all[i].totalQuantitySold >= all[j].totalQuantitySold
    ensures forall r, r' :: r in all[..n] && r' in all[n..] ==> r.totalQuantitySold >= r'.totalQuantitySold
  {
    forall r, r' | r in all[..n] && r' in all[n..]
      ensures r.totalQuantitySold >= r'.totalQuantitySold
    {
      var i :| 0 <= i < n && all[..n][i] == r;
      var j :| 0 <= j < |all| - n && all[n..][j] == r';
      assert all[i] == r && all[n + j] == r';
    }
  }

  function TotalQuantitySold(p: BestSellingProduct): int { p.totalQuantitySold }
  function TotalRevenue(p: BestSellingProduct): int { p.totalRevenue }

  /** Before the cut, the rows share out exactly the quantity and revenue of
      the lines in the window. */
  lemma {:induction false} AllBestSellingConserves(lines: seq<LineRecord>, start: Option<int>, end: Option<int>)
    ensures SumBy(AllBestSelling(lines, start, end), TotalQuantitySold) == SumBy(DateFiltered(lines, start, end), Quantity)
    ensures SumBy(AllBestSelling(lines, start, end), TotalRevenue) == SumBy(DateFiltered(lines, start, end), LineTotal)
  {
    var gs := Groups(lines, start, end);
    var rows := Rows(gs);
    ByQuantityDescIsTotalPreorder();
    SortPreservesSum(rows, ByQuantityDesc, TotalQuantitySold);
    SortPreservesSum(rows, ByQuantityDesc, TotalRevenue);
    SumOfRows(gs, rows, TotalQuantitySold, Quantity);
    SumOfRows(gs, rows, TotalRevenue, LineTotal);
    GroupByConserves(DateFiltered(lines, start, end), KeyOf, Quantity);
    GroupByConserves(DateFiltered(lines, start, end), KeyOf, LineTotal);
  }

  /** `row` summarises the lines `ms` of `xs` that have key `k`: its sums
      are over exactly those lines, its count is their number (lines, not
      distinct orders), and a missing category reads "N/A". */
  ghost predicate Summarises(row: BestSellingProduct, xs: seq<LineRecord>, k: ProductKey) {
    var ms := MembersWithKey(xs, KeyOf, k);
    && |ms| > 0
    && row.productId == k.productId && row.productName == k.productName
    && row.category == CategoryOrNA(k.category)
    && row.totalQuantitySold == SumBy(ms, Quantity)
    && row.totalRevenue == SumBy(ms, LineTotal)
    && row.orderCount == |ms|
  }

  lemma GroupRowSummarises(g: Group<ProductKey, LineRecord>, xs: seq<LineRecord>)
    requires |g.members| > 0 && g.members == MembersWithKey(xs, KeyOf, g.key)
    ensures Summarises(RowOf(g), xs, g.key)
  {
  }

  /** Every row is the summary of one non-empty product group of the
      window. */
  lemma {:induction false} RowsSummariseGroups(lines: seq<LineRecord>, start: Option<int>, end: Option<int>)
    ensures forall row :: row in AllBestSelling(lines, start, end) ==>
      exists k: ProductKey :: Summarises(row, DateFiltered(lines, start, end), k)
  {
    var xs := DateFiltered(lines, start, end);
    var gs := Groups(lines, start, end);
    ByQuantityDescIsTotalPreorder();
    assert AllBestSelling(lines, start, end) == SortBy(Rows(gs), ByQuantityDesc);
    SortedRowsSummarise(gs, xs);
  }

  lemma SortedRowsSummarise(gs: seq<Group<ProductKey, LineRecord>>, xs: seq<LineRecord>)
    requires NonEmpty(gs) && Exact(gs, xs, KeyOf)
    requires IsTotalPreorder(ByQuantityDesc)
    ensures forall row :: row in SortBy(Rows(gs), ByQuantityDesc) ==> exists k: ProductKey :: Summarises(row, xs, k)
  {
    var rows := Rows(gs);
    forall row | row in SortBy(rows, ByQuantityDesc)
      ensures exists k: ProductKey :: Summarises(row, xs, k)
    {
      assert row in multiset(rows);
      var i :| 0 <= i < |rows| && rows[i] == row;
      GroupRowSummarises(gs[i], xs);
    }
  }

  /** Every line in the window is counted: some row summarises the window's
      lines of its product. */
  lemma {:induction false} EveryWindowLineHasARow(lines: seq<LineRecord>, start: Option<int>, end: Option<int>, l: LineRecord)
    requires l in lines && InDateRange(l.orderDate, start, end)
    ensures exists row :: row in AllBestSelling(lines, start, end) && Summarises(row, DateFiltered(lines, start, end), KeyOf(l))
  {
    var xs := DateFiltered(lines, start, end);
    var gs := Groups(lines, start, end);
    GroupOfElement(xs, KeyOf, l);
    var i :| 0 <= i < |gs| && gs[i].key == KeyOf(l);
    assert gs[i].members == MembersWithKey(xs, KeyOf, gs[i].key);
    GroupRowSummarises(gs[i], xs);
    ByQuantityDescIsTotalPreorder();
    SortKeepsElements(Rows(gs), ByQuantityDesc, Rows(gs)[i]);
  }

  /** Before the cut there is one row per distinct product key of the
      window. */
  lemma {:induction false} OneRowPerKey(lines: seq<LineRecord>, start: Option<int>, end: Option<int>)
    ensures |AllBestSelling(lines, start, end)| == |KeySet(DateFiltered(lines, start, end), KeyOf)|
  {
    var gs := Groups(lines, start, end);
    ByQuantityDescIsTotalPreorder();
    assert |AllBestSelling(lines, start, end)| == |Rows(gs)| == |gs|;
    GroupCount(DateFiltered(lines, start, end), KeyOf);
  }

  /** Two products, the first sold in a larger quantity than the second:
      the report lists the first before the second, and a top count of one
      keeps only the first. */
  lemma {:induction false} LargerQuantityRanksFirst(a: LineRecord, b: LineRecord)
    requires a.productId != b.productId && a.quantity > b.quantity
    ensures var top := RowOf(Group(KeyOf(a), [a]));
      && BestItems([a, b], None, None, DefaultTopCount) == Shown([top, RowOf(Group(KeyOf(b), [b]))])
      && BestItems([a, b], None, None, 1) == Shown([top])
      && BestItems([b, a], None, None, DefaultTopCount) == Shown([top, RowOf(Group(KeyOf(b), [b]))])
      && BestItems([b, a], None, None, 1) == Shown([top])
      && top.productId == a.productId && top.totalQuantitySold == a.quantity && top.orderCount == 1
  {
    var ra, rb := RowOf(Group(KeyOf(a), [a])), RowOf(Group(KeyOf(b), [b]));
    SingleLineRow(a);
    SingleLineRow(b);
    TwoProductsSorted(a, b);
    TopOfTwo([a, b], ra, rb);
    SwappedProductsSorted(a, b);
    TopOfTwo([b, a], ra, rb);
  }

  /** Listed smaller first, the two products are reordered by the sort. */
  lemma SwappedProductsSorted(a: LineRecord, b: LineRecord)
    requires a.productId != b.productId && a.quantity > b.quantity
    ensures AllBestSelling([b, a], None, None) == [RowOf(Group(KeyOf(a), [a])), RowOf(Group(KeyOf(b), [b]))]
  {
    var ra, rb := RowOf(Group(KeyOf(a), [a])), RowOf(Group(KeyOf(b), [b]));
    SingleLineRow(a);
    SingleLineRow(b);
    RowsOfTwo(b, a);
    SortSwappedRows(ra, rb);
  }

  lemma TwoProductsSorted(a: LineRecord, b: LineRecord)
    requires a.productId != b.productId && a.quantity > b.quantity
    ensures AllBestSelling([a, b], None, None) == [RowOf(Group(KeyOf(a), [a])), RowOf(Group(KeyOf(b), [b]))]
  {
    var ra, rb := RowOf(Group(KeyOf(a), [a])), RowOf(Group(KeyOf(b), [b]));
    SingleLineRow(a);
    SingleLineRow(b);
    RowsOfTwo(a, b);
    SortedOfTwo([a, b], ra, rb);
  }

  lemma RowsOfTwo(a: LineRecord, b: LineRecord)
    requires a.productId != b.productId
    ensures Rows(Groups([a, b], None, None)) == [RowOf(Group(KeyOf(a), [a])), RowOf(Group(KeyOf(b), [b]))]
  {
    OpenWindowKeepsAll([a, b]);
    TwoProductsTwoGroups(a, b);
    RowsOfPair(Group(KeyOf(a), [a]), Group(KeyOf(b), [b]));
  }

  lemma RowsOfPair(g: Group<ProductKey, LineRecord>, h: Group<ProductKey, LineRecord>)
    ensures Rows([g, h]) == [RowOf(g), RowOf(h)]
  {
  }

  lemma SortedOfTwo(lines: seq<LineRecord>, ra: BestSellingProduct, rb: BestSellingProduct)
    requires Rows(Groups(lines, None, None)) == [ra, rb]
    requires ra.totalQuantitySold >= rb.totalQuantitySold
    ensures AllBestSelling(lines, None, None) == [ra, rb]
  {
    SortTwoRows(ra, rb);
  }

  lemma TopOfTwo(lines: seq<LineRecord>, ra: BestSellingProduct, rb: BestSellingProduct)
    requires AllBestSelling(lines, None, None) == [ra, rb]
    ensures BestItems(lines, None, None, DefaultTopCount) == Shown([ra, rb])
    ensures BestItems(lines, None, None, 1) == Shown([ra])
  {
    TakeOfTwo(ra, rb);
  }

  lemma TakeOfTwo<T>(x: T, y: T)
    ensures Take([x, y], DefaultTopCount) == [x, y] && Take([x, y], 1) == [x]
  {
  }

  lemma SingleLineRow(x: LineRecord)
    ensures var row := RowOf(Group(KeyOf(x), [x]));
      row.productId == x.productId && row.totalQuantitySold == x.quantity && row.orderCount == 1
  {
    assert [x][1..] == [];
    assert SumBy([x], Quantity) == Quantity(x) + SumBy([x][1..], Quantity);
  }

  /** With neither bound given, every line is in the window. */
  lemma OpenWindowKeepsAll(lines: seq<LineRecord>)
    ensures DateFiltered(lines, None, None) == lines
  {
    WhereKeepsAll(lines, (l: LineRecord) => InDateRange(l.orderDate, None, None));
  }

  lemma TwoProductsTwoGroups(a: LineRecord, b: LineRecord)
    requires a.productId != b.productId
    ensures GroupBy([a, b], KeyOf) == [Group(KeyOf(a), [a]), Group(KeyOf(b), [b])]
  {
    GroupByTwoKeys(a, b, KeyOf);
  }

  lemma SortSwappedRows(ra: BestSellingProduct, rb: BestSellingProduct)
    requires ra.totalQuantitySold > rb.totalQuantitySold
    ensures IsTotalPreorder(ByQuantityDesc)
    ensures SortBy([rb, ra], ByQuantityDesc) == [ra, rb]
  {
    ByQuantityDescIsTotalPreorder();
    assert [rb, ra][1..] == [ra] && [ra][1..] == [];
    assert SortBy([ra], ByQuantityDesc) == [ra];
    assert !ByQuantityDesc(rb, ra);
  }

  lemma SortTwoRows(ra: BestSellingProduct, rb: BestSellingProduct)
    requires ra.totalQuantitySold >= rb.totalQuantitySold
    ensures IsTotalPreorder(ByQuantityDesc)
    ensures SortBy([ra, rb], ByQuantityDesc) == [ra, rb]
  {
    ByQuantityDescIsTotalPreorder();
    assert [ra, rb][1..] == [rb] && [rb][1..] == [];
    assert SortBy([rb], ByQuantityDesc) == [rb];
  }

  /** Lines outside the window do not change the report. */
  lemma {:induction false} OutsideLinesIgnored(lines: seq<LineRecord>, l: LineRecord, start: Option<int>, end: Option<int>, topCount: int)
    requires !InDateRange(l.orderDate, start, end)
    ensures BestItems(lines + [l], start, end, topCount) == BestItems(lines, start, end, topCount)
  {
    WhereSkipsLast(lines, l, start, end);
  }

  lemma {:induction false} WhereSkipsLast(lines: seq<LineRecord>, l: LineRecord, start: Option<int>, end: Option<int>)
    requires !InDateRange(l.orderDate, start, end)
    ensures DateFiltered(lines + [l], start, end) == DateFiltered(lines, start, end)
    decreases |lines|
  {
    if lines != [] {
      assert (lines + [l])[1..] == lines[1..] + [l];
      WhereSkipsLast(lines[1..], l, start, end);
    } else {
      assert (lines + [l])[1..] == [];
    }
  }
}
