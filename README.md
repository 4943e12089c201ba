# Order management back office: order placement, deletion and sales reports

This project models the core of OrderManagementRazor, an ASP.NET Core Razor
Pages back office for products, customers, agents and orders, in Dafny.
The model has two parts.

- **Orders.** The create-order page proposes an order number and a date,
  and offers the products that are in stock. Its POST handler turns the
  posted `(productId, quantity)` lists into an order with detail lines. Each
  line snapshots the product's price and computes its line total. The
  handler sums the order total and debits stock. The delete page's POST
  handler gives back the stock of every detail whose product still exists,
  then removes the order; its details go with it (cascade delete).
- **Sales reports.** Three read-only LINQ pipelines:
  - best-selling products;
  - purchases per customer and product;
  - customers per product.

  Each pipeline filters order lines by an optional inclusive date window and
  an optional customer or product id. It groups the lines by a tuple of
  identity and display fields, sums, counts and takes min/max dates. Then it
  sorts by a primary and a secondary key; the best-selling report also cuts
  the result to the first N rows.

How the parts are modelled:

- **Database state.** It is a class `Database.AppDb` with three fields:
  - a `products` map from ProductId to product;
  - an `orders` map from OrderId to order, each order carrying its details;
  - the identity counter `nextOrderId`.
- **Handlers.** The two POST handlers are methods that modify that object.
  Their loops are proved against specification functions
  (`StockAfterPlacement`, `PlacedDetails`, `StockAfterReversal`), and their
  postconditions state the whole new state.
- **Reports.** They are functions over `seq<LineRecord>`, where a line is
  already joined to its order, product and customer. They are built from a
  generic first-appearance `GroupBy` and a generic insertion sort by a total
  preorder.
- **Values.** Money (`decimal(18,2)`) is an integer number of cents, and
  dates are integer timestamps. The current time is a parameter.

Files:

| file | contents |
|---|---|
| common.dfy | `Option`; the C# `int` range and its wrapping successor; `SumBy`, `Where`, `MaxBy`, `MinBy` |
| entities.dfy | products, order details, orders, the posted order form; order consistency |
| database.dfy | class `AppDb` (the Products and Orders tables and the identity counter) and its invariant |
| order_number.dfy | "ORD" + .NET `D6` order numbers, their parsing and injectivity |
| order_placement.dfy | the create page: proposed form, in-stock picker, the placement handler and its lemmas |
| order_deletion.dfy | the delete handler and its lemmas |
| order_lifecycle.dfy | placement followed by deletion |
| grouping.dfy | LINQ `GroupBy` with first-appearance group order, and its conservation lemma |
| sorting.dfy | insertion sort by a total preorder, ordinal string order, the two-key report order |
| report_data.dfy | the joined order line, the date window, null coalescing, `Take` |
| best_items.dfy | the best-selling products report |
| customer_purchases.dfy | the customer purchases report |
| product_customers.dfy | the product customers report |

## Model

| member | source | states |
|---|---|---|
| Common.Int32Succ | Pages/Orders/Create.cshtml.cs:33 | `OrderId + 1` is computed in C# `int` arithmetic. The result is an `int`, it is congruent to `x + 1` modulo 2^32, and it exceeds `x` unless `x` is `int.MaxValue`. |
| Common.Int32SuccInjective | Pages/Orders/Create.cshtml.cs:33 | Distinct ids have distinct successors, even with wrap-around. |
| OrderNumbering.LastOrderId | Pages/Orders/Create.cshtml.cs:32 | "Order by id descending, take the first or null" over the ids the Orders table yields: None exactly when there is no order, and otherwise an existing id that is at least every other id. |
| OrderNumbering.ProposedOrderNumber | Pages/Orders/Create.cshtml.cs:32-33 | With no orders the number is "ORD000001". Otherwise it is "ORD" followed by the D6 format of (the maximum existing id + 1). |
| OrderNumbering.ParseDigitsOfDigits | Pages/Orders/Create.cshtml.cs:33 | Reading back the decimal spelling of `n` gives `n`. |
| OrderNumbering.OrderNumberSuffix | Pages/Orders/Create.cshtml.cs:33 | For a last id in 0..int.MaxValue-1, the number is "ORD" followed by at least six digits that read back as id + 1. So sequential numbers increase strictly in their numeric suffix. |
| OrderNumbering.FormatD6ReadsBack | Pages/Orders/Create.cshtml.cs:33 | The D6 format (zero padding to six digits, with a leading '-' for negatives) loses nothing: every integer reads back from its spelling. |
| OrderNumbering.FormatD6Injective | Pages/Orders/Create.cshtml.cs:33 | The D6 format (zero padding to six digits, with a leading '-' for negatives) never maps two integers to the same text. |
| OrderNumbering.OrderNumberInjective | Pages/Orders/Create.cshtml.cs:33 | Distinct last ids give distinct order numbers. |
| OrderNumbering.SuffixGrowsAfterPlacement | Pages/Orders/Create.cshtml.cs:32-33 | When a new id above every existing id (and below `int.MaxValue`) joins the ids, the proposed number's suffix becomes id + 1, strictly above the suffix proposed before. |
| OrderPlacement.NewOrderForm | Pages/Orders/Create.cshtml.cs:27-35 | The proposed form carries the current time as its date, a zero total, status "Pending" (Models/Order.cs:35), and the proposed order number. |
| OrderPlacement.InStockProducts | Pages/Orders/Create.cshtml.cs:96 | A product is offered exactly when it exists with stock > 0, and it is offered unchanged. |
| OrderPlacement.PlacedDetails | Pages/Orders/Create.cshtml.cs:60-75 | Every written detail names an existing product and has a positive quantity. Its unit price is that product's price at placement time, and its line total is unit price × quantity. There is at most one detail per posted line. |
| OrderPlacement.PlacedOrder | Pages/Orders/Create.cshtml.cs:55-78 | The saved order keeps the posted header fields. The posted total is discarded, and the total becomes the sum of the details' line totals. |
| OrderPlacement.PlaceOrder | Pages/Orders/Create.cshtml.cs:40-89 | The POST handler. An invalid model state, an empty product list, or too few quantities (which makes the indexer throw before SaveChanges) change nothing. A save that the database rejects also changes nothing: either the `int` identity has no value left, or the posted customer or agent does not exist, so a foreign key fails. Otherwise the order is stored under a fresh id with exactly the accepted lines' details. Every product's stock becomes `StockAfterPlacement`, and nothing else changes. It needs only `IdsValid()`, the id/counter invariant the database guarantees, and keeps it. It also keeps `Valid()`, which adds that every order is consistent with its details. |
| OrderPlacement.ProcessLines | Pages/Orders/Create.cshtml.cs:60-83 | The loop over the posted lines. It completes exactly when every product id has a quantity; then the new stock is `StockAfterPlacement`, the details are `PlacedDetails`, and the running total is the sum of their line totals. |
| OrderPlacement.ProcessLine | Pages/Orders/Create.cshtml.cs:62-81 | One turn of the loop takes the stock, details and total for the first i lines to those for the first i + 1 lines. |
| OrderPlacement.PlacedDetailsAreAcceptedLines | Pages/Orders/Create.cshtml.cs:62-75 | A detail is written if and only if some posted line has quantity > 0 and a known product id and yields that detail. Every other line is skipped without error. |
| OrderPlacement.DebitedMatchesDetails | Pages/Orders/Create.cshtml.cs:71-81 | The stock taken from product p equals the total quantity that the new details record for p. |
| OrderPlacement.DebitedNonNegative | Pages/Orders/Create.cshtml.cs:81 | Placement never increases a product's stock. |
| OrderPlacement.UnreferencedProductKeepsStock | Pages/Orders/Create.cshtml.cs:81 | A product named by no accepted line keeps its row unchanged. |
| OrderPlacement.AllLinesSkipped | Pages/Orders/Create.cshtml.cs:55-86 | When every posted line is skipped, the order is still saved, with no details and total 0, and no stock changes. |
| OrderPlacement.PlacementNeverAddsOffers | Pages/Orders/Create.cshtml.cs:81-96 | After placement, the in-stock picker offers a subset of what it offered before. |
| OrderPlacement.RepeatedLinesAccumulate | Pages/Orders/Create.cshtml.cs:60-81 | Two lines for the same product debit cumulatively and yield two details. There is no stock check, so stock goes negative when they ask for more than there is. |
| OrderPlacement.SingleLinePlacement | Pages/Orders/Create.cshtml.cs:60-81 | One accepted line of quantity q lowers the product's stock by exactly q. It yields one detail at the current price, and the order total is q × price. |
| OrderPlacement.UnknownProductSkipped | Pages/Orders/Create.cshtml.cs:64-65 | A line for an unknown product alongside a valid line yields an order with only the valid line, whose total is that line's. |
| OrderDeletion.DeleteOrder | Pages/Orders/Delete.cshtml.cs:39-64 | The POST handler. A null id gives NotFound and changes nothing. An id with no order changes nothing yet reports success. Otherwise the order is removed together with its details (the cascade of Models/AppDbContext.cs:35-39), every product gets back what the order's details record for it, other orders are untouched, and the identity counter is unchanged. Like placement, it needs only `IdsValid()`, so it also deletes orders the edit page has made inconsistent; it keeps `IdsValid()`, and `Valid()` when that held before. |
| OrderDeletion.UnreferencedProductUnchanged | Pages/Orders/Delete.cshtml.cs:50-57 | A product named by none of the deleted order's details keeps its row. |
| OrderDeletion.DeletionNeverRemovesOffers | Pages/Orders/Delete.cshtml.cs:55 | Deleting a consistent order never takes a product out of the in-stock picker. |
| OrderLifecycle.ReversalUndoesPlacement | Pages/Orders/Delete.cshtml.cs:50-57 | Giving back the details that placement wrote (Pages/Orders/Create.cshtml.cs:81) restores every product's row exactly. |
| OrderLifecycle.PlaceThenDelete | Pages/Orders/Delete.cshtml.cs:39-64 | Placing an order from a valid post whose customer and agent exist and then deleting it, with nothing in between, leaves the Products and Orders tables as they were. Only the identity counter moves on. Since the proposal depends only on the Orders table, the create page then proposes the same number as before the placement. |
| OrderLifecycle.PlaceThenPropose | Pages/Orders/Create.cshtml.cs:27-89 | With `ids` listing the Orders table's keys, a successful placement adds exactly its new id to them. Unless that id is `int.MaxValue`, the number proposed next has a strictly larger numeric suffix than the number proposed before the placement. |
| Common.Where | Pages/Reports/BestItems.cshtml.cs:38-46 | LINQ `Where`: an element is kept if and only if it is in the input and satisfies the filter. A kept element appears exactly as many times as in the input, and a dropped one not at all. |
| Common.WhereSum | Pages/Reports/BestItems.cshtml.cs:38-56 | A sum over the filtered elements equals the sum over all elements with the dropped ones counting zero, so a report's window total is the total of exactly its matching lines. |
| Common.MaxBy | Pages/Reports/CustomerPurchases.cshtml.cs:88 | LINQ `Max` over a non-empty group: at least every member's value, and equal to one of them. |
| Common.MinBy | Pages/Reports/ProductCustomers.cshtml.cs:79 | LINQ `Min` over a non-empty group: at most every member's value, and equal to one of them. |
| Grouping.GroupBy | Pages/Reports/BestItems.cshtml.cs:49 | LINQ `GroupBy`: keys are distinct. Every group is non-empty and holds exactly the elements with its key, and every element's key has a group. |
| Grouping.GroupByConserves | Pages/Reports/BestItems.cshtml.cs:49-56 | Summing any per-element measure over all groups gives its sum over the input. |
| Grouping.GroupCount | Pages/Reports/BestItems.cshtml.cs:49 | There are exactly as many groups as distinct keys among the elements. |
| Grouping.GroupByNewKey | Pages/Reports/BestItems.cshtml.cs:49 | An element with a key not seen before opens one new group at the end. |
| Sorting.SortBy | Pages/Reports/BestItems.cshtml.cs:59 | Ordering by a total preorder yields a permutation of the rows that is sorted by it. |
| Sorting.SortPreservesSum | Pages/Reports/BestItems.cshtml.cs:59 | Sorting leaves every sum over the rows unchanged. |
| Sorting.StrLeTotal | Pages/Reports/CustomerPurchases.cshtml.cs:90 | Ordinal string order relates every pair of names. |
| Sorting.StrLeTransitive | Pages/Reports/CustomerPurchases.cshtml.cs:90 | Ordinal string order is transitive. |
| Sorting.StrLeAntisymmetric | Pages/Reports/CustomerPurchases.cshtml.cs:90 | Names ordered both ways are equal. |
| Sorting.NameThenDescendingTransitive | Pages/Reports/CustomerPurchases.cshtml.cs:90-91 | "Name ascending, then value descending" is transitive. Together with totality, it is a valid sort order. |
| ReportData.Take | Pages/Reports/BestItems.cshtml.cs:60 | LINQ `Take`: the first min(n, length) rows, and none when n ≤ 0. |
| BestItems.DateFiltered | Pages/Reports/BestItems.cshtml.cs:38-46 | A line is read if and only if its order date is ≥ the start (when given) and ≤ the end (when given). |
| BestItems.AllBestSelling | Pages/Reports/BestItems.cshtml.cs:48-59 | Before the cut, rows are sorted by total quantity sold, largest first. |
| BestItems.BestItems | Pages/Reports/BestItems.cshtml.cs:28-61 | The report is a prefix of the sorted grouping. It has exactly min(TopCount, number of groups) rows, so none when TopCount is 0, and is still sorted by quantity descending. A negative TopCount, which the query string can supply, makes the query fail (SQL Server refuses a negative `TOP` count), and this is the only failure. `DefaultTopCount` is 10. |
| BestItems.AllBestSellingConserves | Pages/Reports/BestItems.cshtml.cs:48-58 | Before the cut, the rows' quantities sum to the quantity of the lines in the window, and their revenues sum to those lines' line totals. |
| BestItems.RowsSummariseGroups | Pages/Reports/BestItems.cshtml.cs:49-57 | Every row summarises one non-empty (ProductId, ProductName, Category) group of the window. It carries the group's id and name. Its quantity and revenue are the group's sums, and its order count is the group's number of lines, so it is at least 1. A null category reads "N/A". |
| BestItems.EveryWindowLineHasARow | Pages/Reports/BestItems.cshtml.cs:49-59 | Conversely, every line in the window has a row, before the cut, that summarises that line's (ProductId, ProductName, Category) group. |
| BestItems.OneRowPerKey | Pages/Reports/BestItems.cshtml.cs:49-59 | Before the cut there is exactly one row per distinct (ProductId, ProductName, Category) key in the window. |
| BestItems.OutsideLinesIgnored | Pages/Reports/BestItems.cshtml.cs:38-46 | Appending a line outside the window does not change the report. |
| BestItems.OpenWindowKeepsAll | Pages/Reports/BestItems.cshtml.cs:38-46 | With neither date given, every line is read. |
| BestItems.ShownRowsOutrankTheRest | Pages/Reports/BestItems.cshtml.cs:59-60 | No product that the `TopCount` cut leaves out sold more than a product that is shown. |
| BestItems.LargerQuantityRanksFirst | Pages/Reports/BestItems.cshtml.cs:48-61 | With two products sold in different quantities, the larger comes first whichever of the two is listed first (the sort reorders them when the smaller comes first), and a top count of 1 keeps only it. |
| CustomerPurchases.FilteredOrders | Pages/Reports/CustomerPurchases.cshtml.cs:43-56 | An order is read if and only if it matches the selected customer (when given) and its date is inside the optional inclusive window. |
| CustomerPurchases.LinesOf | Pages/Reports/CustomerPurchases.cshtml.cs:61-69 | One record per detail, in order. Each record carries its order's date, number and customer, and the detail's own product, category, quantity and line total. |
| CustomerPurchases.Flatten | Pages/Reports/CustomerPurchases.cshtml.cs:61-69 | `SelectMany` yields every line of every order and nothing else. Its length is the total number of details. |
| CustomerPurchases.FlattenCount | Pages/Reports/CustomerPurchases.cshtml.cs:61-69 | `SelectMany` keeps multiplicities: a line occurs in the flattened sequence exactly as often as it occurs, in total, among the orders' lines, so repeated details are neither merged nor duplicated. |
| CustomerPurchases.FlattenSum | Pages/Reports/CustomerPurchases.cshtml.cs:61-69 | Any sum over the flattened lines is the sum, order by order, of the sums over each order's lines. With `RowsConserve`, the report's totals are the selected orders' totals. |
| CustomerPurchases.CustomerPurchases | Pages/Reports/CustomerPurchases.cshtml.cs:90-91 | Rows are ordered by customer name ascending, then by amount spent descending among equal names. |
| CustomerPurchases.RowsSummariseGroups | Pages/Reports/CustomerPurchases.cshtml.cs:70-89 | Every row summarises one non-empty (CustomerId, CustomerName, Email, ProductId, ProductName) group. Quantity and spent are the group's sums and the purchase count is its line count. The last purchase date is at least every member's date and equal to one of them. A null e-mail reads "". |
| CustomerPurchases.EveryLineHasARow | Pages/Reports/CustomerPurchases.cshtml.cs:60-89 | Every line of a selected order is counted: some row summarises the lines of its (CustomerId, CustomerName, Email, ProductId, ProductName) group. |
| CustomerPurchases.OneRowPerKey | Pages/Reports/CustomerPurchases.cshtml.cs:70-92 | The report has exactly one row per distinct (CustomerId, CustomerName, Email, ProductId, ProductName) key among the selected lines. |
| CustomerPurchases.SelectedCustomerOnly | Pages/Reports/CustomerPurchases.cshtml.cs:43-80 | With a customer selected, every row has that CustomerId. |
| CustomerPurchases.LastPurchaseInWindow | Pages/Reports/CustomerPurchases.cshtml.cs:48-88 | Every row's last purchase date is inside the window. |
| CustomerPurchases.EmptyWindowEmptyReport | Pages/Reports/CustomerPurchases.cshtml.cs:48-60 | A window that excludes every order gives an empty report. |
| CustomerPurchases.EmptyOrdersContributeNothing | Pages/Reports/CustomerPurchases.cshtml.cs:61-69 | Orders with no details contribute no rows: dropping them leaves the report unchanged. |
| CustomerPurchases.RowsConserve | Pages/Reports/CustomerPurchases.cshtml.cs:70-87 | The rows' quantities and amounts sum to those of the selected orders' lines. |
| ProductCustomers.FilteredLines | Pages/Reports/ProductCustomers.cshtml.cs:43-56 | A line is read if and only if it matches the selected product (when given) and its order's date is inside the optional inclusive window. |
| ProductCustomers.ProductCustomers | Pages/Reports/ProductCustomers.cshtml.cs:82-83 | Rows are ordered by product name ascending, then by total quantity descending among equal names. |
| ProductCustomers.RowsSummariseGroups | Pages/Reports/ProductCustomers.cshtml.cs:58-81 | Every row summarises one non-empty (ProductId, ProductName, Category, CustomerId, CustomerName, Email) group. Its sums and line count are the group's. Its first and last purchase dates are the group's minimum and maximum order dates. A null category reads "N/A" and a null e-mail reads "". |
| ProductCustomers.EveryLineHasARow | Pages/Reports/ProductCustomers.cshtml.cs:43-81 | Every selected line is counted: some row summarises the lines of its (ProductId, ProductName, Category, CustomerId, CustomerName, Email) group. |
| ProductCustomers.OneRowPerKey | Pages/Reports/ProductCustomers.cshtml.cs:58-84 | The report has exactly one row per distinct (ProductId, ProductName, Category, CustomerId, CustomerName, Email) key among the selected lines. |
| ProductCustomers.PurchaseDatesOrdered | Pages/Reports/ProductCustomers.cshtml.cs:79-80 | For every row, FirstPurchase ≤ LastPurchase, and both are inside the window. |
| ProductCustomers.SelectedProductOnly | Pages/Reports/ProductCustomers.cshtml.cs:43-70 | With a product selected, every row has that ProductId. |
| ProductCustomers.RowsConserve | Pages/Reports/ProductCustomers.cshtml.cs:58-81 | The rows' quantities and amounts sum to those of the selected lines. |

## Left out

- Authentication, the generated CRUD pages, the dashboard, and the EF Core and host configuration are not part of this model. The only configuration used is the OrderDetail → Order cascade, which is structural here because an order holds its details.
- Pages/Orders/Edit.cshtml.cs is not part of this model. It saves the posted order as-is: it neither recomputes totals nor reconciles stock. So `Valid()`, the order-consistency invariant, is only claimed for the placement and deletion paths. Those paths require only `IdsValid()`, so they also run after an edit.
- Concurrency and transactions: each handler is one atomic state change. The race between reading the maximum id for the proposed number and saving is not modelled.
- The proposed order number is display-only. `PlaceOrder` stores whatever number the form posts back.
- Over-posting: the form's own `OrderId` and `OrderDetails` are not part of the posted `OrderForm`. The saved id comes from the identity counter.
- A null `productIds` list is modelled as an empty one. Both give the same result.
- `ModelState` validation is a boolean parameter. `TempData` and model-error messages, page re-rendering and `LoadDropdowns`' customer and agent lists are presentation.
- `DateTime.Now` is a parameter. Dates are integer timestamps, so the end-date bound compares full timestamps, exactly as the code's `<=` does.
- Money is exact integer cents. Overflow of `decimal(18,2)` is not modelled.
- OrderPlacement.PlaceOrder: the Customers and Agents tables are not held. Whether the posted customer and agent exist is a parameter, and when they do not the save fails as a foreign-key violation would. An identity value that SQL Server may consume in a failed insert is not modelled: the counter stays put.
- OrderPlacement.PlaceOrder: stock, quantities, line totals and sums are unbounded integers. C# `int` overflow of `StockQuantity -= quantity` and of the report sums is not modelled.
- OrderDeletion.DeleteOrder: stock is an unbounded integer. C# `int` overflow of `StockQuantity += detail.Quantity` (Pages/Orders/Delete.cshtml.cs:55) is not modelled. In the source that overflow can wrap stock negative and take a product out of the in-stock picker, so `OrderDeletion.DeletionNeverRemovesOffers` holds only for the unbounded model.
- Sorting.StrLe: names are compared in ordinal (code point) order. This stands in for the database collation or the .NET culture comparer, which the model does not capture.
- Sorting.SortBy: the contract does not fix the order among rows with equal sort keys. In the best items and product customers reports, grouping and sorting run in SQL, which leaves ties unordered. In the customer purchases report they run in memory after `ToListAsync` (Pages/Reports/CustomerPurchases.cshtml.cs:58-92). There, LINQ's `GroupBy` keeps first-appearance order and `OrderBy`/`ThenByDescending` is stable, but the orders query has no `ORDER BY`, so first appearance is itself unspecified. The model's stable insertion sort over first-appearance groups picks one such order. The properties about contents, sums, counts and sortedness hold whatever the tie order. The exact order of the rows does not: it is the model's choice among the orders the database allows. In particular, `BestItems.BestItems` promises that the shown rows are a prefix of the model's sorted list. When equal quantities straddle the `TopCount` cut, the database may show a different set of equally ranked products. What holds for every tie order is stated by `BestItems.ShownRowsOutrankTheRest`.
- Navigation loading (`Include`/`ThenInclude`): each report line is already joined to its order date, product fields and customer fields.
- The customers and products drop-down lists on the report pages are presentation.
- `Product.Category` and `Customer.Email` are declared non-nullable (Models/Product.cs:34, Models/Customer.cs:21). The model still keeps them optional in report lines, so that the reports' null coalescing to "N/A" and "" is modelled as written.
- Stock may go negative. The code has no stock check, and the model follows the code here.
