# Online shop: checkout, cart, catalogue and client state, modelled in Dafny

This project models the rule-bearing core of a small online shop: an Express/Prisma
server and a React/Redux client. It is a pure functional model. The relational
store is a value: a map of products, a sequence of cart rows, an auto-increment
counter and the placed orders. Every request handler is a function from a store and
a request to a response and a new store. Prices are integer cents. Failures are
explicit `Result`/`Option` values or outcome datatypes carrying the HTTP status.

What is modelled:

- **Checkout** (`Orders`). An empty cart is answered with "Cart is empty". The
  first cart row, in cart order, whose defined stock is below its quantity is
  answered with "Not enough stock for product <name>". Otherwise:
  - the order gets one line per cart row, capturing the current price;
  - the total is the sum of price × quantity;
  - every product's stock drops by the quantities of the rows that name it;
  - the caller's rows are deleted; other users' rows stay.

  The stock check is per row, not per product. Two rows of one product can
  therefore drive its stock negative. `Orders.DuplicateRowsOversell` exhibits
  this on a concrete store, and `Orders.NoOversellWithoutDuplicateRows` proves it
  cannot happen without duplicate rows. `getUserOrders` is a filter by user.
- **The two cart controllers** (`BatchCart`, `SingleCart`, `CartRows`).
  - The batch add-to-cart answers every item in order. It either reports the item
    or always creates a new row, even when the caller already has a row for that
    product.
  - The single-item add-to-cart answers 404/400/201 and agrees with a batch of
    one.
  - Update and delete check the route id, the body and ownership. They are
    line-for-line the same in both controllers and are modelled once.
- **The products controller** (`Catalog`):
  - `parseInt(x) || d` paging;
  - the price-range and case-insensitive name/description filter;
  - the `skip`/`take` window (backwards for a negative `take`), the total and
    `Math.ceil(total / limit)`;
  - the create schema, the partial update, and the by-id read, update and
    delete.
- **The authentication middleware** (`Auth`). The token is the second
  space-separated field of the `Authorization` header. The missing-token, invalid-
  token and admin-role decisions are modelled with the token verifier as an
  uninterpreted function.
- **The Redux slices** (`CartSlice`, `ProductSlice`): every reducer and every
  pending, fulfilled and rejected case.
- **The page computations** (`CartPage`, `HomePage`, `ProductDetail`, `Client`):
  - the cart page's quantity stepper, remove-by-index and subtotal;
  - the catalogue page's data fallback, name search, stable comparator sort,
    badge and button;
  - the product page's fallback lookup by route id and its quantity input.

Supporting modules: `Wrappers` (Option/Result), `Seqs` (filter, findIndex, find
and replace-first on sequences), `Text` (ASCII lower-casing, substring containment
and decimal rendering), `StableSort` (an insertion sort standing for
`Array.prototype.sort` with a subtracting comparator), `Requests` (JSON body fields
and the shared add-item schema) and `Store`.

Three facts about the code shape the model:

- checkout is a sequence of separate store calls, not one atomic transaction;
- order statuses have no server-side transition rules;
- cart rows are not unique per (user, product), since add-to-cart always creates
  a new row.

## Model

| member | source | states |
|---|---|---|
| Orders.FirstShort | server/src/controllers/orderController.ts:17-21 | The first row in cart order whose defined stock is below its quantity; none exactly when every row can be supplied |
| Orders.Checkout | server/src/controllers/orderController.ts:8-49 | An empty cart is exactly the "Cart is empty" error. A stock error occurs exactly when some row is short, and it names the first short row's product. On success the order belongs to the caller and has one line per cart row in cart order (same product and quantity, the price at checkout). Its total is the sum of its lines. It is appended to the orders, only other users' rows remain, and no product disappears |
| Orders.LinesTotal | server/src/controllers/orderController.ts:22-34 | The `reduce` total equals the sum of the recorded order lines' price × quantity |
| Orders.DecrementStock | server/src/controllers/orderController.ts:38-43 | The decrement loop keeps exactly the same set of products |
| Orders.DecrementStockEffect | server/src/controllers/orderController.ts:38-43 | Each product loses the summed quantity of the rows naming it (an undefined stock stays undefined); name, price and description are unchanged |
| Orders.CheckoutStock | server/src/controllers/orderController.ts:38-43 | After a successful checkout every product's stock has dropped by the caller's quantities for it, products no row names are unchanged |
| Orders.CheckoutClearsOnlyOwnCart | server/src/controllers/orderController.ts:44 | After success the caller has no cart rows and every other user's rows are exactly as before |
| Orders.OtherUsersKept | server/src/controllers/orderController.ts:44 | Deleting one user's rows leaves another user's rows, in order |
| Orders.CheckoutKeepsValid | server/src/controllers/orderController.ts:24-44 | Checkout keeps unique row ids, every row's product present and ids below the counter |
| Orders.ValidResolves | server/src/controllers/orderController.ts:10-13 | In a valid store every row's product can be included, as checkout assumes |
| Orders.QtyForDistinct | server/src/controllers/orderController.ts:38-43 | Without duplicate products the amount taken from a product is its single row's quantity, or 0 |
| Orders.NoOversellWithoutDuplicateRows | server/src/controllers/orderController.ts:17-43 | If no product appears in two of the caller's rows, a successful checkout leaves every non-negative stock non-negative |
| Orders.DuplicateRowsAreTheCart | server/src/controllers/orderController.ts:10-13 | In the example store, user 3's cart is the two rows, together taking 2 of product 7 |
| Orders.DuplicateRowsPass | server/src/controllers/orderController.ts:17-21 | Each of two rows of quantity 1 passes the stock check against a stock of 1, so checkout succeeds |
| Orders.DuplicateRowsOversell | server/src/controllers/orderController.ts:17-43 | Two rows of quantity 1 for a product with stock 1 pass the check and leave stock -1 |
| Orders.UserOrders | server/src/controllers/orderController.ts:51-62 | The listed orders are exactly the stored orders of the caller |
| Orders.CheckoutThenList | server/src/controllers/orderController.ts:24-62 | After a checkout the caller's order list is the previous list followed by the new order |
| Store.RowsOf | server/src/controllers/orderController.ts:10-13 | The caller's rows: exactly the stored rows with that user id |
| Store.FilterKeepsUniqueIds | server/src/controllers/orderController.ts:44 | Deleting any subset of rows keeps row ids unique |
| Store.FilterRowsKeepsValid | server/src/controllers/orderController.ts:44 | Deleting rows keeps the store valid whatever happens to product stock |
| Store.FindRow | server/src/controllers/cartController.ts:70 | `findUnique` by id: the position of a row carrying the id; none exactly when no row carries it |
| Store.FindRowIsUnique | server/src/controllers/cartController.ts:70 | With unique ids the row found is the only one carrying the id |
| Requests.QuantityOf | server/src/controllers/cartController.ts:39 | An omitted quantity is 1, a given one is kept, and the result is at least 1 |
| CartRows.CreateRow | server/src/controllers/cartController.ts:49-53 | A new row with the caller, product and quantity, the fresh id, appended after the existing rows; products and orders untouched |
| CartRows.CreateRowKeepsValid | src/controllers/cartController.ts:45-48 | Creating a row for an existing product keeps the store valid |
| CartRows.UpdateCartItem | server/src/controllers/cartController.ts:58-82 | A NaN id is 400. A quantity that is missing, not a number or below 1 is 400. A missing or foreign row is 404. Each failure leaves the store unchanged. Success overwrites only that row's quantity, at its position |
| CartRows.DeleteCartItem | server/src/controllers/cartController.ts:84-100 | A NaN id is 400. A missing or foreign row is 404 and leaves the store unchanged. Success removes that row at its position and nothing else |
| CartRows.OwnedRowIsFound | src/controllers/cartController.ts:63-92 | With unique ids, a well-formed request for a row the caller owns always succeeds |
| CartRows.FilterSkipsAbsent | server/src/controllers/cartController.ts:91-95 | Filtering out an id no row carries changes nothing |
| CartRows.UniqueIdsTail | server/src/controllers/cartController.ts:91-95 | The rows after the first keep unique ids, none equal to the first's |
| CartRows.RemoveAtIsFilter | server/src/controllers/cartController.ts:95 | With unique ids, removing the row at a position is filtering out its id |
| CartRows.DeleteRemovesOnlyThatRow | src/controllers/cartController.ts:86-92 | A successful delete removes exactly the rows with that id, one row in all |
| CartRows.RowChangesIgnoreProducts | src/controllers/cartController.ts:63-74 | Update and delete answers never depend on the product table or its stock |
| CartRows.UpdateKeepsValid | server/src/controllers/cartController.ts:74-77 | An update keeps the store valid |
| CartRows.DeleteKeepsValid | server/src/controllers/cartController.ts:95 | A delete keeps the store valid |
| BatchCart.AddAll | server/src/controllers/cartController.ts:38-54 | One entry per item, in order. Each is "Product not found", "Not enough stock" or a row for the caller with the item's product and quantity. The table gains exactly the reported rows, after the old ones |
| BatchCart.AddToCart | server/src/controllers/cartController.ts:31-56 | A body failing the array schema is 400 and creates nothing; otherwise 201 with the entries of `AddAll` |
| BatchCart.AddAllKeepsValid | server/src/controllers/cartController.ts:38-54 | The batch keeps the store valid |
| BatchCart.AlwaysNewRow | server/src/controllers/cartController.ts:49-53 | Adding a product the caller already has creates a second row and leaves the old one |
| SingleCart.AddToCart | src/controllers/cartController.ts:30-52 | A schema failure is 400 before the store is read. An unknown product is exactly the 404. A known product short of stock is exactly the 400. Failures change nothing. Success appends exactly one row with the caller, product and defaulted quantity |
| SingleCart.AgreesWithBatch | src/controllers/cartController.ts:30-52 | A single add has the same effect on the store as a batch of that one item, and the same not-found, stock and created decisions |
| Catalog.OrDefault | src/controllers/productsController.ts:16-17 | `parseInt(x) \|\| d`: a non-zero number is kept, and exactly NaN and 0 become the default |
| Catalog.Matching | src/controllers/productsController.ts:23-34 | The matches are exactly the stored products within the given price bounds that, for a non-empty search, contain it case-insensitively in the name or description |
| Catalog.CeilDiv | src/controllers/productsController.ts:46 | `Math.ceil(total / limit)`: the least whole number at or above `total / limit`, for a positive and for a negative limit |
| Catalog.Window | src/controllers/productsController.ts:37 | At most `take` consecutive elements starting at `skip`, as many as remain |
| Catalog.BackWindow | src/controllers/productsController.ts:37 | For a negative `take`: at most `-take` consecutive elements ending just before the last `skip`, as many as remain |
| Catalog.BackWindowIsReversedWindow | src/controllers/productsController.ts:37 | Paging backwards equals paging forwards through the reversed matches and reversing the page |
| Catalog.ListingWindow | src/controllers/productsController.ts:37 | The store's page for a non-zero `take`: forwards from `skip` for a positive one, the `-take` elements before the last `skip` for a negative one |
| Catalog.GetProducts | src/controllers/productsController.ts:14-51 | A page exactly when `skip = (page - 1) * limit` is not negative after defaulting, so a negative limit with page 1 or below is served. A positive limit gives the window of matches starting at `skip`; a negative one the `-limit` matches before the last `skip`; both with the right length. The total counts all matches and `totalPages` is `Math.ceil(total / limit)` |
| Catalog.NegativeLimitTakesLast | src/controllers/productsController.ts:16-46 | With no page and a negative limit the listing is the last `-limit` matches, and `totalPages` is minus the number of full `-limit`-sized pages in the total |
| Catalog.DefaultPaging | src/controllers/productsController.ts:16-17 | Absent, non-numeric or zero page and limit give page 1 of 10: the first ten matches |
| Catalog.NoFilterCountsAll | src/controllers/productsController.ts:23-38 | With no bounds and no search the total is the whole table |
| Catalog.PageSlot | src/controllers/productsController.ts:18-38 | Slot `j` of page `p` holds match `(p - 1) * limit + j`, and the total is the same on every page |
| Catalog.EveryMatchOnItsPage | src/controllers/productsController.ts:18-37 | Every match is listed on page `k / limit + 1` at slot `k % limit` |
| Catalog.CreateProduct | src/controllers/productsController.ts:65-77 | A body failing the schema is 400 and creates nothing; otherwise the product with the given name, price, description and stock (absent ones absent) is appended under a fresh id |
| Catalog.FindProduct | src/controllers/productsController.ts:57 | The position of a product with the id; none exactly when no product has it |
| Catalog.FindProductIsUnique | src/controllers/productsController.ts:57 | With distinct ids the product found is the only one with its id |
| Catalog.GetProductById | src/controllers/productsController.ts:53-63 | A NaN id is exactly the 400. An id no product has is exactly the 404. Otherwise the stored product with that id |
| Catalog.Patch | src/controllers/productsController.ts:82-90 | Each field the body gives replaces the stored one, every other field is kept |
| Catalog.EmptyPatch | src/controllers/productsController.ts:82-90 | An empty partial body changes nothing |
| Catalog.UpdateProduct | src/controllers/productsController.ts:79-95 | A NaN id is 400. A body failing the partial schema is 400. A missing product is exactly the 500. Failures change nothing. Success patches that product in place and leaves every other one |
| Catalog.DeleteProduct | src/controllers/productsController.ts:97-106 | A NaN id is 400. A missing product is exactly the 500 and changes nothing. Success removes that product and keeps the others in order |
| Catalog.CreateThenGet | src/controllers/productsController.ts:53-77 | A created product keeps ids distinct and is what a read of its id returns |
| Catalog.UpdateThenGet | src/controllers/productsController.ts:79-95 | After an update a read of the id returns the patched product |
| Catalog.RemoveAtKeepsValid | src/controllers/productsController.ts:101 | Removing one product keeps ids distinct and drops that id |
| Catalog.DeleteThenGone | src/controllers/productsController.ts:97-106 | After a delete a read of the id is the 404 |
| Auth.FirstSpace | server/src/middlewares/authMiddleware.ts:11 | The position of the first space; none exactly when there is no space |
| Auth.SecondField | server/src/middlewares/authMiddleware.ts:11 | `split(' ')[1]`: undefined exactly when there is no space; never contains a space |
| Auth.SecondFieldOfJoin | server/src/middlewares/authMiddleware.ts:11 | Reading the second field of `scheme + " " + token + tail` gives back the token |
| Auth.FirstSpaceAt | server/src/middlewares/authMiddleware.ts:11 | A space with none before it is the first space |
| Auth.Authenticate | server/src/middlewares/authMiddleware.ts:8-21 | No header, or no or an empty token, is exactly the 401 "No token provided". A token the verifier rejects is exactly the 403 "Invalid token". Otherwise the request passes on with the decoded user id |
| Auth.BearerAccepted | server/src/middlewares/authMiddleware.ts:10-16 | A `Bearer <token>` header whose token verifies reaches the handler with its user id |
| Auth.BareTokenRefused | server/src/middlewares/authMiddleware.ts:11-12 | A header without a space, such as a bare token, is always 401 |
| Auth.AdminGate | server/src/middlewares/authMiddleware.ts:23-33 | A falsy user id is exactly the 401. Only a known user with role `admin` passes, with the same id. Everything else is the 403 "Forbidden: Admins only" |
| Auth.AdminRouteNeedsAdmin | server/src/middlewares/authMiddleware.ts:8-33 | Both guards in turn pass exactly a non-empty verified token whose user id is a known administrator |
| CartSlice.Replace | client/src/store/cartSlice.ts:60-63 | Length is kept. With no matching id nothing changes, and with one the payload is present. Only the first matching slot can change, and it becomes the payload |
| CartSlice.Remove | client/src/store/cartSlice.ts:64-66 | The survivors are exactly the items with another id; with no such id nothing changes |
| CartSlice.Reduce | client/src/store/cartSlice.ts:53-109 | Pending sets loading and clears the error. Rejected clears loading, sets the error to the payload and changes nothing else. The reducers leave the flags alone. Set and fetch replace the items and add appends one. Update replaces the first match, remove drops an id and clear empties the list |
| CartSlice.RemoveIdempotent | client/src/store/cartSlice.ts:64-66 | Removing an id twice is removing it once |
| CartSlice.RemoveKeepsOrder | client/src/store/cartSlice.ts:64-66 | Removal distributes over concatenation, so the survivors keep their order |
| CartSlice.ReplaceIdempotent | client/src/store/cartSlice.ts:60-63 | Applying the same update twice is applying it once |
| CartSlice.ReduceIds | client/src/store/cartSlice.ts:53-109 | Every item after an action was there before or came from that action's payload |
| CartSlice.SyncMatchesAsync | client/src/store/cartSlice.ts:60-105 | The synchronous and asynchronous update and remove change the items alike |
| CartSlice.PendingThenRejected | client/src/store/cartSlice.ts:73-84 | A request that starts and fails leaves the items and ends with loading off and the payload as error |
| ProductSlice.FetchAllError | client/src/store/productSlice.ts:87-90 | A present non-empty message is the error, otherwise "Failed to fetch products"; never empty |
| ProductSlice.Reduce | client/src/store/productSlice.ts:77-140 | Pending sets loading and clears the error. No rejection touches products or detail. Fetch-all sets the list. Create appends exactly one. Update replaces only the first product with the id, keeping the length. Delete keeps exactly the products with other ids. The detail changes only on fetch-by-id |
| ProductSlice.DetailOnlyFromFetchById | client/src/store/productSlice.ts:95-98 | A fulfilled fetch-by-id always sets the detail and nothing else ever changes it |
| ProductSlice.DeleteKeepsOrder | client/src/store/productSlice.ts:132-135 | Deletion distributes over concatenation and deleting twice is deleting once |
| ProductSlice.DeleteAbsent | client/src/store/productSlice.ts:132-135 | Deleting an id no product has changes nothing |
| ProductSlice.CreateThenUpdate | client/src/store/productSlice.ts:107-123 | A created product updated with a new version of itself sits at the end in its new version when no earlier product had its id |
| Seqs.Filter | client/src/store/cartSlice.ts:65 | `filter`: exactly the elements that pass, none added, length not grown |
| Seqs.FilterAppend | client/src/store/cartSlice.ts:65 | Filtering distributes over concatenation |
| Seqs.FilterIdempotent | client/src/store/cartSlice.ts:65 | Filtering twice is filtering once |
| Seqs.FilterKeepsAll | client/src/store/cartSlice.ts:65 | A filter every element passes changes nothing |
| Seqs.FilterNone | server/src/controllers/orderController.ts:44 | A filter no element passes keeps nothing |
| Seqs.FindIndex | client/src/store/cartSlice.ts:61 | `findIndex`: the first index with the key, or -1 exactly when there is none |
| Seqs.ReplaceFirst | client/src/store/cartSlice.ts:61-62 | Only the first element with the payload's key can change, to the payload; length kept; no match means no change |
| Seqs.ReplaceFirstIdempotent | client/src/store/cartSlice.ts:61-62 | Replacing the first match twice is replacing it once |
| Seqs.ReplaceFirstAtEnd | client/src/store/productSlice.ts:121-122 | When only the last element has the key, it is the one replaced |
| Seqs.FindFirst | client/src/pages/ProductDetail.tsx:224 | `find`: the first element satisfying the test; none exactly when no element does |
| Text.Lower | client/src/pages/Home.tsx:249 | `toLowerCase`: same length, each letter lowered |
| Text.LowerIdempotent | client/src/pages/Home.tsx:249 | Lower-casing twice is lower-casing once |
| Text.ContainsIff | client/src/pages/Home.tsx:249 | `includes` holds exactly when the search occurs at some position |
| Text.ContainsEmpty | client/src/pages/Home.tsx:249 | Every name contains the empty search |
| Text.ContainsPiece | client/src/pages/Home.tsx:249 | A string contains each of its own pieces |
| Text.Decimal | client/src/pages/ProductDetail.tsx:224 | `String(n)`: decimal digits, no leading zero, last digit `n % 10` |
| Text.DecimalInjective | client/src/pages/ProductDetail.tsx:224 | Distinct numbers render as distinct strings |
| Client.Mock | client/src/pages/Home.tsx:69-178 | The twelve demonstration products, with ids 1 to 12 in order |
| Client.Clamp | client/src/pages/ProductDetail.tsx:262 | `Math.max(1, Math.min(stock, n))`: at least 1, at most a positive stock, the identity on `[1, stock]`, 1 when stock is below 1 |
| Client.Badge | client/src/pages/Home.tsx:286-288 | The badge is "In Stock: n" exactly when stock is positive, otherwise "Out of Stock" |
| CartPage.HandleQty | client/src/pages/Cart.tsx:153-161 | Only line `idx` changes, to the clamp of its quantity plus the step; length and every other line kept |
| CartPage.StepPastBound | client/src/pages/Cart.tsx:157-196 | Stepping down at quantity 1 or up at the stock changes nothing |
| CartPage.StepBounds | client/src/pages/Cart.tsx:157-196 | With stock at least 1 the new quantity lies in `[1, stock]`, and an enabled button moves it by exactly one |
| CartPage.HandleRemove | client/src/pages/Cart.tsx:163-165 | Exactly line `idx` is removed with the rest in order; an out-of-range index changes nothing |
| CartPage.Subtotal | client/src/pages/Cart.tsx:167 | The subtotal of an empty cart is 0 |
| CartPage.SubtotalAppend | client/src/pages/Cart.tsx:167 | The subtotal of two carts end to end is the sum of their subtotals |
| CartPage.SplitAt | client/src/pages/Cart.tsx:164 | A cart is its lines before `idx`, line `idx`, and the lines after |
| CartPage.SubtotalAfterRemove | client/src/pages/Cart.tsx:163-167 | Removing a line takes exactly its price × quantity off the subtotal |
| CartPage.SubtotalReplace | client/src/pages/Cart.tsx:167 | Overwriting one line changes the subtotal by that line's change alone |
| CartPage.SubtotalAfterStep | client/src/pages/Cart.tsx:153-167 | A quantity step changes the subtotal by that line's change alone |
| CartPage.Render | client/src/pages/Cart.tsx:167-169 | The empty state shows exactly when the cart is empty, otherwise the lines with their subtotal |
| CartPage.InitialSubtotal | client/src/pages/Cart.tsx:144-167 | The initial cart's subtotal is 34997 cents |
| HomePage.ChooseProducts | client/src/pages/Home.tsx:240-246 | A non-empty fetched array is used, otherwise the demonstration list; never empty |
| HomePage.Displayed | client/src/pages/Home.tsx:248-255 | The shown list is a permutation of the filtered subset and every shown name contains the search case-insensitively |
| HomePage.ShownIff | client/src/pages/Home.tsx:249 | A product is shown exactly when it is listed and its lowered name contains the lowered search |
| HomePage.EmptySearchKeepsAll | client/src/pages/Home.tsx:249 | An empty search shows every product |
| HomePage.SortOrders | client/src/pages/Home.tsx:250-253 | Sorting by `price-asc` gives non-decreasing price, `price-desc` non-increasing price and `stock` non-increasing stock |
| HomePage.OtherSortKeepsOrder | client/src/pages/Home.tsx:254 | Any other sort choice keeps the filtered order |
| HomePage.TiesKeepOrder | client/src/pages/Home.tsx:250-255 | Products tying under the sort key keep their fetched order |
| HomePage.CardOf | client/src/pages/Home.tsx:286-294 | The in-stock badge shows exactly when stock is positive; the button is disabled exactly at stock 0 |
| HomePage.NegativeStockCard | client/src/pages/Home.tsx:286-294 | A negative stock shows "Out of Stock" with the button enabled |
| StableSort.Insert | client/src/pages/Home.tsx:250-255 | Insertion adds exactly the one element |
| StableSort.InsertKeepsSorted | client/src/pages/Home.tsx:250-255 | Inserting into a sorted list keeps it sorted |
| StableSort.Sort | client/src/pages/Home.tsx:250-255 | The result is a permutation of the input, sorted by the key |
| StableSort.InsertTies | client/src/pages/Home.tsx:250-255 | Insertion puts the new element before every element sharing its key |
| StableSort.SortIsStable | client/src/pages/Home.tsx:250-255 | Elements sharing a key keep their relative order |
| StableSort.SortByConstant | client/src/pages/Home.tsx:254 | A comparator that always answers 0 keeps the order |
| ProductDetail.IdText | client/src/pages/ProductDetail.tsx:224 | `String(id)` is never empty |
| ProductDetail.IdTextInjective | client/src/pages/ProductDetail.tsx:224 | Distinct ids have distinct string forms |
| ProductDetail.NegativeIdTextInjective | client/src/pages/ProductDetail.tsx:224 | Distinct negative ids have distinct string forms |
| ProductDetail.IdTextSign | client/src/pages/ProductDetail.tsx:224 | Only a negative id's string form starts with a minus sign |
| ProductDetail.Load | client/src/pages/ProductDetail.tsx:210-233 | A successful request shows its product. A failed one shows a demonstration product whose id string is the route, or "Product not found." exactly when no demonstration id matches |
| ProductDetail.FallbackFindsMock | client/src/pages/ProductDetail.tsx:222-227 | Each demonstration product is reached through its own id's route |
| ProductDetail.FallbackMisses | client/src/pages/ProductDetail.tsx:228-230 | A route naming an id outside 1 to 12 ends in "Product not found." |
| ProductDetail.QuantityInput | client/src/pages/ProductDetail.tsx:262 | NaN stays NaN. Otherwise the quantity is at least 1, at most a positive stock, and an input in `[1, stock]` is kept |
| ProductDetail.ZeroStockForm | client/src/pages/ProductDetail.tsx:262-266 | At stock 0 the form is disabled and every typed number clamps to 1 |

## Left out

- Atomicity and concurrency of checkout: the source issues separate store calls with no transaction. The model is the sequential effect of one request; rollback, races and interleavings are not modelled.
- Order-status transitions: no server code exists for them (the admin page only keeps a local choice), so no state machine is modelled.
- The 500 answers of `catch` blocks for store failures are not modelled, except where a missing row makes the store call itself throw (`updateProduct`, `deleteProduct`) and where a negative `skip` reaches the store (`Catalog.GetProducts` returns `None`). A negative `take` is taken to page backwards, as Prisma documents for its pagination.
- Numbers are whole: prices are integer cents and JSON numbers are integers, so zod's `.int()` check and fractional quantities, prices and bounds (`parseFloat`) are not modelled; `toFixed` formatting is presentation.
- Store integers are unbounded: Prisma's `Int` columns are 32-bit, and an id or quantity beyond 2147483647 makes the store call throw. In most handlers that is a 500; in the batch add-to-cart (server/src/controllers/cartController.ts:39-54) it is an unhandled rejection after the earlier rows were already created. None of this is modelled.
- Catalog.Matching: a `min` or `max` that `parseFloat` turns into NaN (`?min=abc`) reaches the store as NaN; the criteria carry only numbers, so what the store does with such a bound is not modelled.
- Catalog.GetProducts: `page` and `limit` are taken as already parsed by `parseInt`; the parsing of the query string itself (leading digits, signs) is not modelled.
- zod's error lists in 400 bodies are reduced to the one outcome `InvalidBody`; schema-valid bodies with extra keys are taken as stripped.
- Text.Lower: lower-cases ASCII letters only; Unicode case mapping and Prisma's database collation for `mode: 'insensitive'` are not modelled.
- Database order is taken to be insertion order wherever the source reads rows without `orderBy`: the product listing, the caller's cart rows that checkout reads (server/src/controllers/orderController.ts:10-13), and the caller's orders (server/src/controllers/orderController.ts:54-57). The properties that name "the first short row", the line order of an order and the order in which the caller's orders are listed rest on this; a database that returns rows in another order changes which row checkout reports and the order of the lists, not what is created or deleted.
- Catalog.DeleteProduct: the catalogue and the store's product table (`Store.products`, which cart rows and order lines point into) are separate values. Deleting a product that cart rows or order items still reference fails on the foreign key (a 500) or cascades, depending on the Prisma schema, which is not part of this model; the model deletes the product alone.
- Prisma defaults (`createdAt`, `updatedAt`, a default stock) and the order and order-item ids are not modelled; the order value carries user, total and lines.
- The token verifier (`jwt.verify`) is an uninterpreted function parameter; token issuance and the authentication controller (hashing, login messages) are not modelled.
- `getCartItems` and `getAllOrders` are plain reads over the store and are not modelled.
- The server entry points, route files, the seed script, the client API module and the bodies of the request thunks are wiring or I/O; only the thunks' fulfilled and rejected outcomes feed the slice models.
- Presentational components and pages other than the cart, catalogue and product pages are not modelled; the checkout page's subtotal repeats the cart page's.
- Client.Product: the client's `description`, `createdAt` and `updatedAt` fields are display-only and are not modelled.
- ProductDetail.QuantityInput: `Number(value)` is given as an already-converted integer or NaN; the conversion of the input text (empty text is 0) is not modelled.
- The per-product add-to-cart button on the product page only raises an alert; it is not modelled.
