# Restaurant point-of-sale server, modelled in Dafny

The server is a small Express application. Waiters place orders per table,
admins edit the menu, tables are closed out into bills, and each bill is added
to a per-day revenue ledger. Every route handler reads a JSON file from the
data directory, changes the plain object in it and writes it back. This model
keeps those files as the fields of one object, `Store.DataDir`:

- the menu items, in file order;
- the table orders, keyed by table number;
- the bills, keyed by bill id;
- the archived orders, appended in the order they are written;
- the revenue records, keyed by date.

Each route handler that changes the data directory is a module-level method.
Its `modifies` clause names the `DataDir` fields it writes. Most read-only
routes are functions returning a `Result`: a payload, or an HTTP error with
its status code (400, 401, 404). Three exceptions:

- the two routes that loop over a directory listing are methods: `Tables.AllTables`,
  which returns the list itself, and `Billing.LatestBill`;
- `Revenue.Today` cannot fail, so it returns the record itself.

The admin session set is its own class, `Auth.AdminSessions`. Its login and
logout methods modify the object, and its check method returns a `bool`.

Request fields are `Option` values. JavaScript truthiness (`if (!table)`) is
written out in `Common`:

- a string counts as given when it is present and not empty;
- a number counts as given when it is present and not zero.

The clock, the random four-digit bill suffix, the session token and directory
listings are parameters.

Modules follow the route files:

- `Orders` covers `routes/orders.js`;
- `Billing` covers `routes/billing.js`;
- `Tables` covers `routes/tables.js`;
- `Menu` covers `routes/menu.js`;
- `Revenue` covers `routes/revenue.js`;
- `Auth` covers `routes/auth.js`.

`Store`, `Common` and `Text` hold the shared records, the request vocabulary,
and the string helpers used for bill ids (decimal rendering and `padStart`).

## Model

| member | source | states |
|---|---|---|
| Orders.GetOrder | routes/orders.js:7-31 | No table gives 400. A stored table returns its record. A table with no file returns `{table, "empty", [], 0, false}`. |
| Orders.StartingOrder | routes/orders.js:50-61 | A stored table starts from its record. A table with no file starts from `{table, "ordering", [], 0, true}`. |
| Orders.Accepted | routes/orders.js:70-71 | A request applies exactly when the first menu item with its id exists and is available. |
| Orders.Snapshot | routes/orders.js:81-87 | The appended line: the menu item's id, current name and price, the requested quantity, status 'ordered'. It is a definition; `Orders.MergeRequestsShape` proves that appended lines are such snapshots. |
| Orders.FindOrderedLine | routes/orders.js:72-74 | Returns the index of the first line with the id and status 'ordered', or -1 exactly when no such line exists. |
| Orders.MergeRequest | routes/orders.js:69-90 | One loop step keeps every existing line, in order, changing at most quantities. It adds at most one line. |
| Orders.MergeRequests | routes/orders.js:69-90 | The loop over the request list, in request order. It never drops a line and adds at most one per request. Further properties are in `Orders.MergeRequestsShape`. |
| Orders.MergeRequestCases | routes/orders.js:69-88 | An unknown or unavailable item leaves the lines unchanged. A repeat adds its quantity to the first 'ordered' line with that id, keeping that line's name and price. Otherwise a snapshot of the menu item is appended at the end. |
| Orders.PlacedOrder | routes/orders.js:54-101 | The written order has the merged lines and `total` = sum of price × quantity. "empty" becomes "ordering" and active. Any other status and active flag are kept. |
| Orders.PlaceOrder | routes/orders.js:39-105 | No table or no items gives 400 with the tables unchanged. Otherwise the loop over the requests produces the `PlacedOrder` of the stored record (or of a fresh "ordering" record). That order is written under the table and nothing else changes. If every stored total matched its lines before, every one still does. |
| Orders.LineAmountGrows | routes/orders.js:78 | Raising a line's quantity by q raises its amount by price × q. |
| Orders.FoldedTotal | routes/orders.js:76-78 | Folding a repeat raises the order total by q at the price stored on the folded line. |
| Orders.MergeRequestKeepsUnique | routes/orders.js:72-88 | One merge step never creates a second 'ordered' line for an id. |
| Orders.MergeRequestsShape | routes/orders.js:69-90 | A whole request list keeps the existing lines, in order, changing at most quantities. Every appended line is an 'ordered' snapshot of an available menu item. Unique 'ordered' ids stay unique. |
| Orders.RepeatedOrderFolds | routes/orders.js:72-88 | Ordering an item 2 then 3 on an order without it leaves one line of quantity 5. |
| Store.TableOrEmpty | routes/tables.js:17-29 | A stored record is returned as is. An absent table reads as the empty default. |
| Store.RevenueOrEmpty | routes/billing.js:71-81 | A stored day is returned as is. An absent day reads as `{date, [], 0}`. |
| Store.LinesTotal | routes/orders.js:93-95 | The reduce-sum of price × quantity. It is a definition; its update and append laws are `Store.LinesTotalUpdate` and `Store.LinesTotalAppend`. |
| Store.SumAmounts | routes/billing.js:88 | The reduce-sum of the ledger amounts. It is a definition; its append law is `Store.SumAmountsAppend`. |
| Store.TotalsConsistent | routes/orders.js:93-95 | Every stored table's total equals the sum of price × quantity over its lines. `Orders.PlaceOrder`, `Tables.SetStatus`, `Billing.FileBill` and `Billing.GenerateBill` keep it. |
| Store.WriteKeepsTotals | routes/orders.js:93-103 | Writing a record whose total matches its lines keeps every stored total consistent. |
| Store.LinesTotalUpdate | routes/orders.js:93-95 | Replacing one line changes the reduce-sum by the difference of the two line amounts. |
| Store.LinesTotalAppend | routes/orders.js:93-95 | Appending a line adds its amount to the reduce-sum. |
| Store.SumAmountsAppend | routes/billing.js:88 | Appending a ledger entry adds its amount to the reduce-sum. |
| Store.IndexOfId | routes/menu.js:65 | Returns the first index with the id, or -1 exactly when no item has it. |
| Store.FindMenuItem | routes/orders.js:70 | Finds the first item with the id, or None exactly when the menu has none. |
| Tables.Status | routes/tables.js:7-30 | No table gives 400. A stored table returns its record. A table with no file returns the empty default. |
| Tables.WithStatus | routes/tables.js:63-70 | The status is set. `active` is false exactly when the status is "empty" or "closed". Table, items and total are untouched. |
| Tables.SetStatus | routes/tables.js:38-74 | No table or no status gives 400 with the tables unchanged. Otherwise the stored record (or the empty default) with the new status is written and answered. Totals stay consistent, since only status and active change. |
| Tables.Loaded | routes/tables.js:90-95 | The loaded records follow the listing order, one per listed file. |
| Tables.Defaults | routes/tables.js:101-112 | The records the 1..n loop pushes, one per number that no loaded record has. It is a definition; its properties are `Tables.DefaultsOnlyForMissing`, `Tables.DefaultsCover` and `Tables.DefaultsWithTable`. |
| Tables.DefaultsWithTable | routes/tables.js:102-111 | The defaults hold one record numbered k exactly when k is in 1..n and no loaded record has it; otherwise none. |
| Tables.DefaultsOnlyForMissing | routes/tables.js:102-111 | Every default pushed is the empty record of a number in 1..20 that no loaded record has. |
| Tables.DefaultsCover | routes/tables.js:102-112 | After the default loop, every number 1..20 has a record. |
| Tables.HasTableBeforeDefault | routes/tables.js:103 | The `some` test for n sees only the loaded records, never an earlier default. |
| Tables.InsertByTable | routes/tables.js:115 | Insertion keeps the sequence sorted by table number and adds exactly one record. |
| Tables.SortByTable | routes/tables.js:115 | The result is sorted ascending by table number and is a permutation of the input. |
| Tables.InsertByTableStable | routes/tables.js:115 | Insertion places the new record ahead of every record with the same number. |
| Tables.SortByTableStable | routes/tables.js:115 | The sort is stable: for every table number, the records with that number keep their relative order. |
| Tables.WithTableDistinct | routes/tables.js:90-95 | When loaded numbers are distinct, the records numbered n are the one loaded record with n, or none. |
| Tables.ExactlyOnePerTable | routes/tables.js:90-115 | With distinct loaded numbers, each number in 1..n is held by exactly one record of the sorted list: the loaded one if there is one, else the empty default. |
| Tables.OnePerTable | routes/tables.js:101-115 | With distinct loaded numbers, each of 1..n occurs exactly once in the sorted list. |
| Tables.LoadedExactlyOnce | routes/tables.js:88-115 | When the listed files carry distinct table numbers, each of 1..n occurs exactly once in the result. |
| Tables.AllTables | routes/tables.js:82-117 | The loops and the sort produce the stable sort of the loaded records plus the defaults. The list is sorted by table number, is a permutation of those records, covers 1..20, and keeps every loaded record, including numbers outside 1..20. When the listed files carry distinct numbers, each of 1..20 occurs exactly once. |
| Tables.SortedResultFacts | routes/tables.js:101-115 | Sorting keeps the coverage of 1..n and every loaded record. |
| Menu.MaxId | routes/menu.js:32 | The result is at least every id and is one of them. |
| Menu.NextId | routes/menu.js:32 | The new id is above every existing id. It is 1 on an empty menu, and otherwise one more than an existing id. |
| Menu.DescriptionOr | routes/menu.js:39 | The description if it is truthy, otherwise the empty string. It is a definition, used by `Menu.AddItem`. |
| Menu.AddItem | routes/menu.js:21-46 | A falsy name, price or category gives 400 with the menu unchanged. Otherwise an available item with the next id and description defaulting to '' is appended at the end. |
| Menu.AddKeepsIdsUnique | routes/menu.js:32-43 | Appending an item with the next id keeps ids unique. |
| Menu.EditOverwritesOnlySupplied | routes/menu.js:71-75 | Each field is overwritten exactly when supplied: truthy name, price and category; defined description and available. The id never changes. |
| Menu.ApplyEdit | routes/menu.js:71-75 | The item with the supplied fields written over it. It is a definition; `Menu.EditOverwritesOnlySupplied` proves field by field what it changes. |
| Menu.EditItem | routes/menu.js:54-79 | No id gives 400. An unknown id gives 404. Both leave the menu unchanged. Otherwise the first item with the id gets the supplied fields and is answered. |
| Menu.EditKeepsOthers | routes/menu.js:71-77 | An edit leaves every other item equal and keeps ids unique. |
| Menu.RemoveAt | routes/menu.js:104 | `splice(k, 1)`. It is a definition; `Menu.DeleteRemovesFirst` proves what it removes and keeps. |
| Menu.DeleteItem | routes/menu.js:87-107 | No id gives 400. An unknown id gives 404. Both leave the menu unchanged. Otherwise the first item with the id is spliced out. |
| Menu.DeleteRemovesFirst | routes/menu.js:98-104 | Deleting shortens the menu by one. Items before the removed one are unchanged and have other ids, and later items shift down in order. Exactly one copy of the removed item leaves the multiset. |
| Menu.DeleteLeavesNoCopy | routes/menu.js:98-104 | On a menu with unique ids, no item with the deleted id remains and ids stay unique. |
| Revenue.ForDate | routes/revenue.js:31-52 | No date gives 400. A stored day is returned unchanged. An absent day returns `{date, [], 0}` for the requested date. |
| Revenue.Today | routes/revenue.js:7-23 | Looks up today's date key, with the same empty default. |
| Revenue.TodayAgreesWithForDate | routes/revenue.js:7-52 | The today route answers what the by-date route answers for the same key. |
| Auth.AdminSessions.Login | routes/auth.js:9-28 | Missing username or password gives 400, and wrong credentials give 401. Neither changes the set. Login succeeds exactly when both match; it adds the token and returns it. |
| Auth.AdminSessions.Check | routes/auth.js:36-43 | Authenticated exactly when a token is given and is in the set. |
| Auth.AdminSessions.Logout | routes/auth.js:46-52 | Always succeeds. Removes only the given token; with no token the set is unchanged. |
| Auth.SessionLifecycle | routes/auth.js:9-52 | On a fresh set the issued token authenticates exactly when the credentials matched. It no longer authenticates after logout, and a second logout changes nothing. |
| Billing.Discount | routes/billing.js:26-38 | The discount is 0 unless both type and value are truthy. Otherwise it is the smaller of the requested discount and the subtotal. |
| Billing.RequestedDiscount | routes/billing.js:29-34 | The discount asked for: the value for "flat", subtotal × value / 100 for "percentage", 0 otherwise. It is a definition; its bounds are `Billing.PercentageWithinSubtotal` and `Billing.UnknownTypeGivesNoDiscount`. |
| Billing.RequestedDiscountKeepsTotalNonNegative | routes/billing.js:37-40 | With a non-negative subtotal, a requested discount never makes the total negative. |
| Billing.PercentageWithinSubtotal | routes/billing.js:32-40 | A percentage in (0, 100] gives a discount in [0, subtotal] and a total of subtotal × (100 − value) / 100. |
| Billing.NegativeFlatRaisesTotal | routes/billing.js:30-40 | There is no lower clamp: a negative flat value raises the total above the subtotal. |
| Billing.UnknownTypeGivesNoDiscount | routes/billing.js:29-37 | Any type other than flat or percentage gives min(0, subtotal). |
| Billing.DiscountExamples | routes/billing.js:29-37 | A flat discount of twice the subtotal is cut to the subtotal; 50 percent of 200 is 100. |
| Billing.TablePrefix | routes/billing.js:44 | `HTL-` and the table number padded to two digits. It is a definition; `Billing.BillIdMatchesOnlyItsTable` proves it tells tables apart. |
| Billing.BillIdTail | routes/billing.js:44 | The local date `YYYYMMDD`, a '-', and the random suffix padded to four digits. It is a definition. |
| Billing.BillId | routes/billing.js:44 | `HTL-<table>-<YYYYMMDD>-<suffix>`. It is a definition; `Billing.BillIdMatchesOnlyItsTable` proves the id names its table. |
| Billing.MatchesTableAsWritten | routes/billing.js:131 | The lookup's filter as written. Every id the corrected filter admits, it admits too. |
| Billing.MatchesTable | routes/billing.js:44-131 | The corrected filter, with the separator after the table number. It is a definition; its properties are `Billing.BillIdMatchesOnlyItsTable` and `Billing.FiltersAgreeBelow100`. |
| Billing.BillIdMatchesOnlyItsTable | routes/billing.js:44 | With the separator included, a generated bill id matches the prefix of exactly the table it was made for. |
| Billing.AsWrittenFilterAdmitsOtherTables | routes/billing.js:131 | The filter as written lets table t ≥ 10 match the bills of tables 10t..10t+9. The corrected filter rejects them. |
| Billing.FiltersAgreeBelow100 | routes/billing.js:44-131 | For table numbers below 100 the filter as written and the corrected one agree on every generated id. |
| Billing.Billable | routes/billing.js:21 | A table can be billed unless its status is "empty" or it is inactive. It is a definition, used by the guard of `Billing.GenerateBill`. |
| Billing.MakeBill | routes/billing.js:26-57 | The bill a close-out writes. It is a definition; `Billing.BillFigures` proves its figures and its id. |
| Billing.BillFigures | routes/billing.js:40-57 | The bill's subtotal is the table's stored total, its items are the table's items, and total = subtotal − discount. The total is non-negative for a requested discount on a non-negative subtotal. The id is found by exactly its own table. |
| Billing.RecordBill | routes/billing.js:83-88 | `{id, amount}` is appended at the end, and the day's total is the sum of all earlier amounts plus this one. |
| Billing.LedgerGrowsByBillTotal | routes/billing.js:71-88 | A consistent day's total grows by exactly the bill total. A day without a record starts with this bill alone. |
| Billing.FileBill | routes/billing.js:59-101 | Writes, in order, the bill under its id, the archived order, the day's ledger record, and the empty table record. Nothing else changes, and stored totals stay consistent. |
| Billing.GenerateBill | routes/billing.js:7-106 | No table gives 400. No table file gives 404. An "empty" or inactive table gives 400. None of these writes anything. Otherwise the bill is made, filed, ledgered and answered, and the table is reset to empty. Stored totals stay consistent. |
| Billing.CloseOutIsVisible | routes/billing.js:93-101 | After a close-out the table reads as the empty default, and the view route finds the bill under its id. |
| Billing.ViewBill | routes/billing.js:156-168 | No id gives 400. An id with no bill gives 404. Otherwise the stored bill is returned. |
| Billing.ScanLatest | routes/billing.js:130-139 | The scan finds nothing exactly when no listed id has the prefix. Otherwise it finds a bill with the greatest date among those with the prefix; on equal dates the first listed wins. |
| Billing.LatestBill | routes/billing.js:115-148 | No table gives 400, and no matching bill gives 404. Otherwise it answers the table's latest bill, first listed on ties. A match always gives an answer. |
| Billing.LatestBillAsWritten | routes/billing.js:115-148 | The same route with the filter as written. No table gives 400, and no id starting with `HTL-<pad2>` gives 404. Otherwise it answers the latest such bill, first listed on ties. |
| Billing.TwoAt250 | routes/orders.js:69-101 | Two of an item at 250 on a table with no file give one snapshot line, total 500 and a billable order. |
| Billing.Evening | routes/billing.js:7-106 | On a fresh data directory, two of an item at 250 are ordered at table 7 and billed with 10 percent off. The bill is for table 7, with that one line, subtotal 500, discount 50 and total 450. Afterwards the table reads as the empty default and the day's revenue total is 450. |
| Text.NatToString | routes/billing.js:44 | `toString()` of a natural number is a non-empty digit string. It is one character exactly for 0..9, and starts with '0' only for 0. |
| Text.NatToStringInjective | routes/billing.js:44 | Two numbers with the same decimal form are equal. |
| Text.PadStart | routes/billing.js:44 | `padStart` gives the longer of the width and the string's own length. The string is kept as the suffix, and everything before it is the pad character. |
| Text.Pad2Injective | routes/billing.js:44 | Two different table numbers never pad to the same string. |

## Left out

- `server.js` is not part of this model: static pages, directory creation, the listener and its inline login, which repeats the credential check of `routes/auth.js`.
- `GET /api/menu` (routes/menu.js:7-18) only returns the stored menu, so it has no model.
- File I/O and JSON are not modelled. Files are fields of `Store.DataDir`, and directory listings (`readdir`) are parameters. Table listings are given as table numbers, and bill listings as ids without `.json`, so the `.json` suffix tests are already applied.
- All 500 branches, and I/O failures generally, are left out.
- The inner catch at routes/billing.js:104-107 turns any failure, including a failed write, into 404. The model gives 404 only for a table with no file.
- `Billing.GenerateBill` is one step. A crash between its four writes, leaving a partial close-out, is not modelled.
- Concurrent requests and lost updates are not modelled; the model is sequential.
- The HTML of the printable bill (routes/billing.js:170-249), `toFixed`, and the locale date and time formats are not modelled.
- Floating point is not modelled. Prices, amounts and the percentage are exact `real`s, and quantities and ids are `int`s. `parseFloat` and `parseInt` are taken as already applied.
- Truthiness is modelled only as absent, empty or zero. For example, a string "0" that JavaScript would see as truthy is taken as the number it names.
- The clock, `Math.random` and `crypto.randomBytes` are parameters:
  - the bill id uses the local year, month and day;
  - the ledger key is the UTC date;
  - the bill's `date` field is the instant as a number, not its ISO string.
- Logging (`console.*`) is left out.
- Orders.MergeRequestCases: states the total change through `Orders.FoldedTotal` and `Store.LinesTotalAppend`, not as one combined equation on the total.
- Billing.LatestBill: uses the corrected filter with the separator after the table number (see Findings). For a table t of 10 or more it therefore leaves out the bills of tables 10t..10t+9, which the code's filter also considers. `Billing.LatestBillAsWritten` models the route with the code's own filter.
- The code caps the discount only from above, at the subtotal, and never clamps it below zero. The model follows the code (`Billing.NegativeFlatRaisesTotal`), not a "clamped to [0, subtotal]" reading.

## Findings

| source | as written | input that shows it | evidently intended | confidence | as-written member | corrected member |
|---|---|---|---|---|---|---|
| routes/billing.js:131 | The latest-bill lookup keeps every file starting with `HTL-<table padded to 2>`, with no separator after the number | table 10 while a bill `HTL-100-20250101-0001` of table 100 exists: it starts with `HTL-10`, so table 10 can be answered table 100's bill | only ids of the form `HTL-<table padded to 2>-…`, i.e. the bills generated for that table (routes/billing.js:44) | not executed | Billing.AsWrittenFilterAdmitsOtherTables | Billing.BillIdMatchesOnlyItsTable |
