/** The joined order line every report reads: an order detail together with
    its order's date and number, its product and its customer. */
module ReportData {
  import opened Common

  datatype LineRecord = LineRecord(
    orderDate: int,
    orderNumber: string,
    customerId: int,
    customerName: string,
    email: Option<string>,
    productId: int,
    productName: string,
    category: Option<string>,
    quantity: int,
    lineTotal: int)

  /** The optional, inclusive `[start, end]` date window of every report. */
  predicate InDateRange(date: int, start: Option<int>, end: Option<int>) {
    (start.None? || date >= start.value) && (end.None? || date <= end.value)
  }

  /** A missing category is shown as "N/A". */
  function CategoryOrNA(c: Option<string>): string {
    if c.Some? then c.value else "N/A"
  }

  /** A missing e-mail address is shown as the empty string. */
  function EmailOrEmpty(e: Option<string>): string {
    if e.Some? then e.value else ""
  }

  function Quantity(l: LineRecord): int { l.quantity }
  function LineTotal(l: LineRecord): int { l.lineTotal }
  function OrderDate(l: LineRecord): int { l.orderDate }

  /** The first `n` rows, or all of them if there are fewer, and none when
      `n` is not positive (LINQ's `Take`). */
  function Take<T>(s: seq<T>, n: int): (r: seq<T>)
    ensures |r| == if n <= 0 then 0 else if n < |s| then n else |s|
    ensures r == s[..|r|]
  {
    if n <= 0 then [] else if n < |s| then s[..n] else s
  }
}
