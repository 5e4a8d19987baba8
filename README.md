# OrderBase handlers in Dafny

OrderBase is a restaurant order-management backend written in Go (gin + gorm).
This project models its HTTP handlers for the guest cart and checkout, the
order book, the table (seat) registry, the per-user HTML pages and the sales
dashboard, and proves what each handler does to the database and what it
answers.

The database is an in-memory store, `Store.Db`: one sequence of rows per
gorm table (products, users, cart items, orders, tables, HTML pages) in
insertion order, plus the next auto-increment key of each table a handler
inserts into. `Db.Valid()` collects the store's uniqueness rules:
- primary keys are unique in every table, and below the next key in every table a handler inserts into;
- a `username` is unique (its `unique` tag);
- `table_number` is unique (its `uniqueIndex`);
- a page `name` is unique over all users (its `uniqueIndex`);
- there is at most one cart line per (session, product), and every line has quantity at least 1.

Every mutating handler keeps `Valid()`.

The session comes into each handler as parameters:
- the logged-in `user_id`, as `Option<nat>`;
- the session `user` name, as `Option<string>`;
- the cart session id, as a `string`.

The HTTP outcome is a `Response<T>`: `Ok(payload)` or one of `BadRequest`,
`Unauthorized`, `Forbidden`, `NotFound`, `Conflict` and `InternalError`.
Path parameters are parsed by models of `strconv.Atoi` (cart and order
handlers) and `strconv.ParseUint(s, 10, 32)` (table handlers).

Files:
- `models.dfy` holds the records.
- `store.dfy` holds the store and its rules.
- `params.dfy` holds the id parsing.
- `seqs.dfy` holds the SQL stand-ins `ORDER BY`, `LIMIT` and row deletion.
- `cart.dfy`, `orders.dfy`, `tables.dfy`, `pages.dfy` and `dashboard.dfy` hold one handler file each.

Handlers that change the store are module-level methods that take the store as a parameter `db: Db` and name the fields they write in `modifies` frames.
Handlers that only read are functions over the rows, except:
- `GetCart`, which keeps the source's summing loop;
- the checkout loop;
- the dashboard's in-place fill of product names, which works on an `array`.

## Model

| member | source | states |
|---|---|---|
| Store.Db.Valid | backend/models/table.go:8 | the store's rules together: unique keys in every table, below the next key in every table a handler inserts into, unique usernames, unique table numbers, unique page names, one cart line per (session, product) with quantity at least 1 (a predicate, kept by every mutating handler; the constructor requires the product and account rules of its rows) |
| Store.ProductsValid | backend/models/product.go:8 | product primary keys are unique (a predicate) |
| Store.UsersValid | backend/models/user.go:8 | account keys are unique and the `unique` tag on `username` holds (a predicate) |
| Store.ProductLookup | backend/handlers/cart.go:51-56 | with unique keys, looking a product up by its own key finds that very row, so first-in-store-order is the row gorm's `First` finds |
| Store.CartValid | backend/handlers/cart.go:58-69 | the cart rules: keys unique and below the next key, quantity at least 1, one line per (session, product) (a predicate) |
| Store.TablesValid | backend/models/table.go:8 | unique keys below the next key, and the `uniqueIndex` on `table_number` (a predicate) |
| Store.PagesValid | backend/models/html_page.go:7 | unique keys below the next key, and the `uniqueIndex` on `name` (a predicate) |
| Models.FindProduct | backend/handlers/cart.go:51-56 | the product found has the requested key; None exactly when no product has it |
| Params.Atoi | backend/handlers/cart.go:119-123 | a parsed id lies in the 64-bit `int` range |
| Params.AtoiItoa | backend/handlers/order.go:96-100 | every 64-bit integer written in decimal parses back to itself |
| Params.AtoiRejectsNonDigit | backend/handlers/order.go:122-126 | a non-digit character (other than a leading sign) makes the id a bad request |
| Params.ParseUint32 | backend/handlers/table.go:98-102 | a parsed table id is at most 2^32 - 1 |
| Params.ParseUint32Itoa | backend/handlers/table.go:98-102 | every 32-bit unsigned id written in decimal parses back to itself |
| Params.ParseUint32RejectsNonDigit | backend/handlers/table.go:127-131 | any non-digit character, a sign included, makes the id a bad request |
| Seqs.SortBy | backend/handlers/table.go:80 | `ORDER BY key ASC` gives an ascending permutation of the rows |
| Seqs.Take | backend/handlers/dashboard.go:124 | `LIMIT n` gives the first min(n, length) rows |
| Seqs.RemoveAt | backend/handlers/order.go:176 | deleting one row keeps the others in order; the multiset loses exactly that row |
| Seqs.TakeOfSortedBounds | backend/handlers/dashboard.go:123-124 | a row cut by `LIMIT` after `ORDER BY` means the prefix is full and ranks no lower than it |
| Cart.Session.GetOrCreateSessionID | backend/handlers/cart.go:21-33 | the stored cart session id is returned; a fresh one is stored only when none exists and then never changes |
| Cart.ItemsOf | backend/handlers/cart.go:96-98 | the session's lines are exactly the store's lines with that session id |
| Cart.OtherSessions | backend/handlers/cart.go:254 | deleting `session_id = ?` leaves exactly the lines of other sessions |
| Cart.IndexOfLine | backend/handlers/cart.go:60 | finds a line of that (session, product), or None exactly when there is none |
| Cart.IndexOfItem | backend/handlers/cart.go:133-137 | finds a line with that key in that session, or None exactly when there is none |
| Cart.QuantityOfAppend | backend/handlers/cart.go:71-88 | a new line adds its quantity to its own (session, product) pair only |
| Cart.QuantityOfUpdate | backend/handlers/cart.go:58-69 | changing one line moves only its own pair's quantity, by the difference |
| Cart.QuantityOfNone | backend/handlers/cart.go:58-60 | a pair without a line has quantity 0 |
| Cart.QuantityOfAt | backend/handlers/cart.go:139-141 | with one line per pair, a pair's quantity is the quantity on its line |
| Cart.AppendLine | backend/handlers/cart.go:254 | appending a valid line whose key and (session, product) pair differ from every earlier line's keeps every cart rule; the step of the clear-session proof |
| Cart.UpdateLineValid | backend/handlers/cart.go:139-140 | setting a line's quantity to at least 1 keeps every cart rule |
| Cart.RemoveLineValid | backend/handlers/cart.go:164 | deleting a line keeps every cart rule |
| Cart.RemoveLineMembers | backend/handlers/cart.go:158-169 | deleting line k removes exactly the rows with its key |
| Cart.OtherSessionsValid | backend/handlers/cart.go:254 | deleting a session's lines keeps every cart rule |
| Cart.SessionCleared | backend/handlers/cart.go:254 | after the delete the session has no lines |
| Cart.OtherCartsKept | backend/handlers/cart.go:254 | after the delete every other session's cart is unchanged, line for line |
| Cart.AddToCart | backend/handlers/cart.go:42-89 | product id 0 or quantity < 1 is a bad request and an unknown product is not found, both with no change; otherwise the session's line for the product grows by the quantity (same key), or a new line with the next key is added; no other (session, product) quantity changes; one line per pair is kept |
| Cart.CartTotal | backend/handlers/cart.go:104-107 | the cart total: the sum of unit price × quantity over the lines (no contract of its own; GetCart and CheckoutTotal state what it means) |
| Cart.CartTotalNonneg | backend/handlers/cart.go:104-107 | a cart whose lines each cost nothing negative has a total that is not negative |
| Cart.GetCart | backend/handlers/cart.go:92-114 | the lines are exactly the session's lines; total is the sum of price × quantity over them; count is their number |
| Cart.UpdateCartItem | backend/handlers/cart.go:117-147 | a malformed id or quantity < 1 is a bad request; a key not in this session is not found; otherwise only that line's quantity changes and the pair's quantity becomes the new one |
| Cart.RemoveFromCart | backend/handlers/cart.go:150-170 | a malformed id is a bad request; a key not in this session is not found; otherwise exactly the row with that key is gone |
| Cart.ClearCart | backend/handlers/cart.go:251-260 | every line of the session is deleted and all other lines stay |
| Cart.CheckoutOrders | backend/handlers/cart.go:210-217 | one pending order per line, in line order, with consecutive keys, costing price × quantity, owned by the caller or by nobody |
| Cart.CheckoutTotal | backend/handlers/cart.go:225 | the amount charged (sum over the orders) equals the cart total GetCart shows |
| Cart.BuildOrders | backend/handlers/cart.go:206-227 | the insert loop fails exactly when a line's insert is rejected; otherwise it builds CheckoutOrders and the total charged |
| Cart.Commit | backend/handlers/cart.go:229-240 | the new orders are appended, the order key advances by their number, the session's lines are deleted, the store stays valid |
| Cart.CheckoutValid | backend/handlers/cart.go:219-240 | the committed writes keep the cart and order rules |
| Cart.PlaceOrders | backend/handlers/cart.go:198-247 | a rejected insert, delete or commit answers an internal error and changes nothing; otherwise all writes happen together |
| Cart.CheckoutCart | backend/handlers/cart.go:173-248 | an empty cart is a bad request that creates nothing; a failed step rolls everything back; a success creates one pending order per line, reports their sum (equal to the cart total) and count, and empties this session's cart only |
| Orders.ParseStatus | backend/handlers/order.go:128-130 | exactly "pending", "completed" and "cancelled" are accepted, each as its own status |
| Orders.ParseStatusName | backend/handlers/order.go:129 | every status is accepted under its own name |
| Orders.TotalPriceSum | backend/handlers/dashboard.go:78-81 | `COALESCE(SUM(total_price), 0)`, also the checkout's running total (no contract of its own; CheckoutTotal, SalesOfWindow and WindowSales state what it means) |
| Orders.TotalPriceSumNonneg | backend/handlers/dashboard.go:108-111 | over orders with no negative total, the sales figure is never negative |
| Orders.NewestFirst | backend/handlers/order.go:78 | `ORDER BY created_at DESC` is a permutation with non-increasing creation times |
| Orders.IndexOfOrder | backend/handlers/order.go:138 | finds an order with that key, or None exactly when none has it |
| Orders.IndexOfOwnedOrder | backend/handlers/order.go:171 | finds the caller's order with that key, never a guest order, or None exactly when there is none |
| Orders.FindOwnedProduct | backend/handlers/order.go:36 | finds the caller's own product with that key, or None exactly when there is none |
| Orders.CreateOrder | backend/handlers/order.go:20-63 | no session is unauthorized; product 0 or quantity < 1 is a bad request; a product the caller does not own is not found; otherwise one pending, table-less order owned by the caller with price × quantity is appended under the next key |
| Orders.GetOrders | backend/handlers/order.go:66-85 | any logged-in caller gets every order, guest orders included, newest first |
| Orders.GetOrderByID | backend/handlers/order.go:88-111 | unauthorized exactly without a session, bad request exactly for a malformed id, not found exactly when the caller owns no order with the key, and no other refusal, so an owned order is always returned; only an order owned by the caller with the parsed key is ever returned |
| Orders.UpdateOrderStatus | backend/handlers/order.go:114-153 | unauthorized without a session; a malformed id or a status outside the three is a bad request; an unknown id is not found; any order, whoever owns it, gets any status; only that order's status changes |
| Orders.DeleteOrder | backend/handlers/order.go:156-182 | unauthorized without a session; a malformed id is a bad request; an id with no order owned by the caller (missing, another user's or a guest's) is not found; otherwise exactly that row goes and every other order stays |
| Orders.RemoveOrder | backend/handlers/order.go:176 | deleting a row by key keeps keys unique and removes exactly the rows with that key |
| Orders.AppendOrders | backend/handlers/order.go:51 | rows inserted under consecutive fresh keys keep keys unique |
| Tables.IndexOfTable | backend/handlers/table.go:105 | finds the table with that key, or None exactly when none has it |
| Tables.IndexOfNumber | backend/handlers/table.go:46 | finds a table with that number, or None exactly when none has it |
| Tables.TableLookup | backend/handlers/table.go:105 | with unique keys, a table's own key finds that very row |
| Tables.ReadBack | backend/handlers/table.go:89-115 | every stored table is returned by GetTableByID under its key written in decimal |
| Tables.GetTables | backend/handlers/table.go:70-86 | no session is unauthorized; otherwise every table, in ascending table number |
| Tables.DistinctNumbers | backend/models/table.go:8 | two different rows of the store have different table numbers |
| Tables.GetTablesStrictlyAscending | backend/handlers/table.go:80 | with unique table numbers the listing is strictly ascending |
| Tables.GetTableByID | backend/handlers/table.go:89-115 | unauthorized without a session, bad request exactly for a malformed id, not found exactly when no table has the key, and no other refusal, so an existing key (in any decimal spelling `ParseUint` accepts, leading zeros included) returns that table |
| Tables.OrdersAt | backend/handlers/table.go:257 | exactly the orders whose table is this one |
| Tables.GetTableOrders | backend/handlers/table.go:229-270 | the same refusals as GetTableByID and no other, so an existing table always succeeds; on success the table and exactly its orders, newest first |
| Tables.AppendTable | backend/handlers/table.go:51-61 | a table appended under the next key with an unused number keeps the store valid and reads back through GetTableByID |
| Tables.AppendTableValid | backend/handlers/table.go:44-58 | a new table under the next key with an unused number keeps keys and numbers unique |
| Tables.CreateTable | backend/handlers/table.go:18-67 | unauthorized without a session; number 0 is a bad request; an empty status becomes "active"; a number in use is a conflict with no change; otherwise one table is appended under the next key, and GetTableByID reads it back |
| Tables.ApplyUpdate | backend/handlers/table.go:165-177 | the supplied columns take their new values, the omitted ones keep theirs, the key never changes |
| Tables.ApplyUpdateIdentity | backend/handlers/table.go:165-177 | an empty update changes nothing, and an update applied twice is applied once |
| Tables.NumberFree | backend/handlers/table.go:156-163 | the conflict query of UpdateTable: no number supplied, the table's own number, or a number no table holds |
| Tables.NumberFreeMeans | backend/handlers/table.go:156-163 | with unique numbers, the check passes exactly when no other table holds the requested number |
| Tables.ReplaceTableValid | backend/handlers/table.go:156-177 | rewriting a row under its key with a number no other row holds keeps the store valid |
| Tables.UpdateTable | backend/handlers/table.go:118-189 | unauthorized, bad request and not found as for GetTableByID; moving to a number another table holds is a conflict, keeping its own number never is; no other answer is possible, so any other request succeeds and only that table changes, by ApplyUpdate |
| Tables.DeleteTable | backend/handlers/table.go:192-226 | unauthorized without a session, bad request for a malformed id, not found for an unknown id, and no other refusal; otherwise a soft delete: the table stays, only its status becomes "inactive", and GetTableByID still returns it |
| Pages.IndexOfPage | backend/handlers/html.go:101 | finds the page with that name and owner, or None exactly when there is none |
| Pages.IndexOfName | backend/models/html_page.go:7 | finds the page with that name under any owner, or None exactly when there is none |
| Pages.FindUserByName | backend/handlers/html.go:124-132 | finds an account with that username, or None exactly when there is none |
| Pages.UserLookup | backend/handlers/html.go:124-132 | with unique usernames, looking an account up by its own username finds that very row |
| Pages.PageLookup | backend/handlers/html.go:100-110 | with unique names, a page is found by its own name and owner |
| Pages.Authorize | backend/handlers/html.go:19-39 | unauthorized exactly without a session user; forbidden exactly when the URL names another user; a bad request exactly for an empty page name; otherwise the caller's key |
| Pages.GetHTMLPage | backend/handlers/html.go:77-111 | the same refusals as Authorize; otherwise the caller's page with that name, or not found exactly when the caller has none |
| Pages.RenderHTMLPage | backend/handlers/html.go:114-151 | no login needed; an empty name is a bad request; otherwise the content of the page with that name owned by the named account, and not found exactly when the account or its page is missing |
| Pages.PagesOf | backend/handlers/html.go:163 | exactly the pages owned by the user |
| Pages.Summary | backend/handlers/html.go:163 | the columns the listing selects: every column but the content (no contract of its own) |
| Pages.SummaryEqual | backend/handlers/html.go:163 | two pages list alike exactly when they agree on key, name and owner |
| Pages.ListHTMLPages | backend/handlers/html.go:154-169 | unauthorized without a session; otherwise the caller's pages only, in order, each without its content |
| Pages.ListedPagesOpen | backend/handlers/html.go:163 | every listed page opens with GetHTMLPage as the full page with the same key |
| Pages.AppendPageValid | backend/handlers/html.go:55-60 | a new page under the next key with an unused name keeps keys and names unique |
| Pages.ReplaceContentValid | backend/handlers/html.go:67-68 | replacing a page's content keeps keys and names unique |
| Pages.RemovePageValid | backend/handlers/html.go:207 | deleting a page keeps the store valid and removes exactly the page with that name |
| Pages.SaveHTMLPage | backend/handlers/html.go:18-74 | refusals as Authorize, with no change; an existing page of the caller keeps its key and gets the new content; otherwise a new page is created, unless another user holds the name, which is an internal error with no change; after a save, GetHTMLPage returns the saved page, and rendering it under the caller's own account returns the content |
| Pages.DeleteHTMLPage | backend/handlers/html.go:172-213 | refusals as Authorize, with no change; not found exactly when the caller has no such page; otherwise exactly that page is gone, and reading it again is not found |
| Dashboard.ShowDashboard | backend/handlers/dashboard.go:13-21 | unauthorized without a session user, otherwise that user's name |
| Dashboard.WithStatus | backend/handlers/dashboard.go:114-116 | exactly the orders with that status |
| Dashboard.CompletedSince | backend/handlers/dashboard.go:74-76 | exactly the completed orders created at or after the bound; with no bound every completed order |
| Dashboard.StatusPartition | backend/handlers/dashboard.go:113-116 | the three per-status counts add up to the number of orders |
| Dashboard.AllTimeIsCompleted | backend/handlers/dashboard.go:104-111 | the all-time figures are those of the completed orders |
| Dashboard.WindowCount | backend/handlers/dashboard.go:83-106 | a window that starts later holds no more orders |
| Dashboard.SalesOfWindow | backend/handlers/dashboard.go:78-81 | a window's sales summed over its orders equals summing order by order over the store |
| Dashboard.SalesMonotone | backend/handlers/dashboard.go:88-111 | with no negative totals, a later window has no larger order-by-order sales |
| Dashboard.WindowSales | backend/handlers/dashboard.go:78-111 | with no negative totals, a window that starts later has no larger sales |
| Dashboard.WindowsNested | backend/handlers/dashboard.go:59-111 | today ≤ month ≤ year ≤ all time, for counts, and for sales when no total is negative |
| Dashboard.ProductIdsOf | backend/handlers/dashboard.go:122 | `GROUP BY product_id`: each product id of the orders once, and no other |
| Dashboard.SoldOf | backend/handlers/dashboard.go:120 | `SUM(quantity)` for one product: 0 when the product has no order, and not negative when no quantity is |
| Dashboard.RevenueOf | backend/handlers/dashboard.go:120 | `SUM(total_price)` for one product: 0 when the product has no order, and not negative when no total is |
| Dashboard.Grouped | backend/handlers/dashboard.go:119-122 | one row per product id, with quantity and revenue summed over that product's orders |
| Dashboard.TopProducts | backend/handlers/dashboard.go:119-125 | at most five rows |
| Dashboard.TopProductsEntries | backend/handlers/dashboard.go:119-125 | each row is a product of some completed order with its sums over the completed orders; rows come in non-increasing quantity sold |
| Dashboard.TopProductsDistinct | backend/handlers/dashboard.go:122 | no product appears twice |
| Dashboard.TopProductsComplete | backend/handlers/dashboard.go:123-124 | a sold product missing from the rows was cut by the limit: there are five rows, each selling at least as much |
| Dashboard.WithInfo | backend/handlers/dashboard.go:129-133 | name and image are filled in when the product exists, the row is left as it was when it does not, and the sums never change |
| Dashboard.FillProductInfo | backend/handlers/dashboard.go:128-134 | every row of the array is updated in place by WithInfo |
| Dashboard.TopProductsWithInfo | backend/handlers/dashboard.go:118-134 | the top rows, each with WithInfo applied |
| Dashboard.RecentOrders | backend/handlers/dashboard.go:137-141 | at most ten orders |
| Dashboard.RecentOrdersSpec | backend/handlers/dashboard.go:137-141 | the recent orders are store orders, newest first, and an order left out was cut by the limit: there are ten, each at least as new |
| Dashboard.GetDashboardStats | backend/handlers/dashboard.go:50-144 | unauthorized without a session; otherwise every sales and order figure is over completed orders; the status counts partition the orders; the top five rows carry their product info; the ten latest orders are listed; the windows are nested |

## Left out

- Concurrency: requests are modelled one at a time, each running to completion before the next starts. The Go handlers run concurrently on one database, and two of the proved rules hold only under this assumption:
  - Store.CartValid: one cart line per (session, product) is kept by the handlers' check-then-insert (backend/handlers/cart.go:60 then cart.go:78), not by a database index (backend/models/cart.go:10 is a plain `index`), so two concurrent AddToCart requests could both insert a line for the same pair.
  - Cart.CheckoutCart: "one order per deleted line" holds only if no line is added to the session between the read outside the transaction (backend/handlers/cart.go:186-189) and the delete by `session_id` inside it (cart.go:230); such a line would be deleted without becoming an order.
- Go's 64-bit `int` arithmetic: prices, quantities, totals and sums are unbounded integers, so overflow in `price * quantity` or in a merged cart quantity is not modelled.
- Request bodies: a body that is not JSON, or one whose fields have the wrong type, fails `ShouldBindJSON`. Only the `binding` rules are modelled: `required` rejects the zero value, `min=1` and `oneof`. A failed `ioutil.ReadAll` in SaveHTMLPage is not modelled either.
- Database failures are modelled in two places. One is the unique page-name index in SaveHTMLPage. The other is every write of the CheckoutCart transaction, through its `failingWrite` parameter. Other internal errors are not modelled: a failed query, a failed create in AddToCart, CreateOrder or CreateTable, and a failed save, update or delete.
- `Preload`, JSON encoding, response messages and HTTP headers are left out. So are the raw `text/html` body of RenderHTMLPage and the product and user objects embedded in responses. A cart line whose product has vanished prices at Go's zero value, 0.
- The clock is a parameter:
  - `time.Now` for an order's `created_at`;
  - the calendar start of today, this month and this year;
  - `generateSessionID`'s clock-based id.

  The dashboard's bounds are taken with `startOfYear <= startOfMonth <= startOfToday`, which the calendar guarantees.
- The first dashboard query (backend/handlers/dashboard.go:66-72) scans into a temporary value and affects no figure, so it is not modelled.
- gorm's automatic `created_at` and `updated_at` columns are not modelled, except an order's `createdAt`.
- Order.tableId: the Go `Order` struct (backend/models/order.go:8-21) has no table column, yet backend/handlers/table.go:257 filters on `table_id`. The model gives an order an optional table, and no handler here sets it.
- Cart.CheckoutCart: the session's `user_id` is taken as already a `uint`. A value of another type, which would panic at the type assertion, is not modelled.
- Pages.SaveHTMLPage: rendering is proved to return the saved content only when the URL username names the caller's own account (`FindUserByName` gives that account). The session's user name and key are session inputs that the model does not tie to the users table.
- Tables.UpdateTable: the new table number is not checked to be non-zero, as in the source. The store still keeps numbers unique.
- Dashboard.TopProducts: SQL leaves the order of rows with equal quantity sold unspecified. The model fixes one order and only states non-increasing quantity.
- Not part of this model, because they are outside the handlers modelled here:
  - backend/handlers/auth.go (password hashing and login sessions);
  - backend/handlers/product.go (image upload to disk);
  - backend/handlers/openai.go (an external HTTP API);
  - backend/main.go (routing);
  - the frontend.
