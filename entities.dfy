/** The persisted records of the order-management back office, reduced to the
    fields the order handlers and the reports read or write. Money is an exact
    `decimal(18,2)` column, held here as an integer number of cents; dates are
    integer timestamps. */
module Entities {
  import opened Common

  /** A catalogue row. `category` is optional because the reports coalesce a
      null category to "N/A". */
  datatype Product = Product(
    name: string,
    unitPrice: int,   // cents
    stock: int,       // StockQuantity; the placement path lets it go negative
    category: Option<string>)

  /** One line of an order: a snapshot of the product's price at placement
      time and the line total derived from it. */
  datatype OrderDetail = OrderDetail(
    productId: int,
    quantity: int,
    unitPrice: int,   // cents
    lineTotal: int)   // cents

  /** An order row together with its details. The details live inside the
      order, so removing the order removes them too, which is the cascade
      rule configured for OrderDetail -> Order. */
  datatype Order = Order(
    orderNumber: string,
    orderDate: int,
    customerId: int,
    agentId: Option<int>,
    totalAmount: int, // cents
    status: string,
    notes: string,
    details: seq<OrderDetail>)

  /** The order header as the create form posts it back. */
  datatype OrderForm = OrderForm(
    orderNumber: string,
    orderDate: int,
    customerId: int,
    agentId: Option<int>,
    totalAmount: int, // whatever the client sent; placement discards it
    status: string,
    notes: string)

  /** A freshly constructed form: the defaults of the Order entity. */
  const BlankForm: OrderForm := OrderForm("", 0, 0, None, 0, "Pending", "")

  /** Sum of the line totals of some details. */
  function SumLineTotals(ds: seq<OrderDetail>): int
    decreases |ds|
  {
    if ds == [] then 0 else SumLineTotals(ds[..|ds| - 1]) + ds[|ds| - 1].lineTotal
  }

  /** Total of the quantities among `ds` that refer to product `p`. */
  function QuantityOf(ds: seq<OrderDetail>, p: int): int
    decreases |ds|
  {
    if ds == [] then 0
    else QuantityOf(ds[..|ds| - 1], p) + (if ds[|ds| - 1].productId == p then ds[|ds| - 1].quantity else 0)
  }

  /** The consistency an order has when the placement path wrote it: positive
      quantities, each line total is price times quantity, and the order
      total is the sum of the line totals. */
  ghost predicate Consistent(o: Order) {
    && (forall d :: d in o.details ==> d.quantity > 0 && d.lineTotal == d.unitPrice * d.quantity)
    && o.totalAmount == SumLineTotals(o.details)
  }
}
