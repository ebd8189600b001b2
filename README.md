# Storefront core in Dafny

This project models the core of a small organic-goods web shop. The shop is a React single-page
application whose data live in a hosted Postgres backend. Shoppers browse a product catalog,
add products to a cart and check out with a contact form; there is no payment step. Administrators
maintain the products, follow the orders and change their status, and look at a dashboard of figures.

The model covers six source files:

- `src/hooks/useProducts.ts` (module `Catalog`): which filter clauses the storefront and admin product
  queries carry, what the backend returns for them (the rows those clauses admit, newest first), and
  the de-duplicated category list.
- `src/components/products/ProductCard.tsx` (module `ProductCard`): the category badge, the low-stock
  badge, the out-of-stock overlay, the add button's disabled rule, and what a click hands to the cart.
- `src/pages/Checkout.tsx` (module `Checkout`): the form schema, the `orders` and `order_items` rows a
  checkout writes, and the submission sequence as a class `CheckoutPage` whose `Submit` method updates
  the page's cart lines and submitting flag.
- `src/pages/admin/AdminOrders.tsx` (module `AdminOrders`): the order search, the four statistics
  cards, the status badge colours and the status update.
- `src/pages/admin/AdminProducts.tsx` (module `AdminProducts`): the text form a product is edited in,
  the record written back from it, the image upload path, the delete gate, and the page's dialog state
  as a class `ProductsPage`.
- `src/pages/admin/AdminDashboard.tsx` (module `AdminDashboard`): the dashboard figures.

Four shared modules support them:

- `Nullable`: nullable columns and the JavaScript `||` idioms used on them.
- `Seqs`: order-preserving filtering, sums, prefixes and de-duplication, with their laws.
- `Text`: lower-casing, JavaScript string length, trimming, `parseInt`, `parseFloat` for whole numbers, `String(n)` and
  `split(".").pop()`.
- `Tables`: the backend rows.

Every backend call becomes a parameter. A call that can fail takes the error message it may report.
The order insert takes a `Response`, which is either the new id or an error. `Date.now()` is a
parameter too, as is the e-mail verdict of the checkout schema. The browser's confirmation prompt is
a `confirmed` flag. Toasts become returned notice strings.

## Model

| member | source | states |
|---|---|---|
| Nullable.OrEmpty | src/pages/admin/AdminProducts.tsx:64 | a null or empty string is shown as `""`, and a truthy one as it is |
| Nullable.NullIfEmpty | src/pages/admin/AdminProducts.tsx:110 | an empty text is written as null, and only an empty one; any other text is written as it is |
| Nullable.NullEmptyRoundTrip | src/pages/admin/AdminProducts.tsx:110-115 | writing a nullable text to a field and back only turns `""` into null, and a second trip changes nothing |
| Text.ToLower | src/pages/admin/AdminOrders.tsx:95 | lower-casing keeps the length, leaves no upper-case letter, and changes only upper-case letters, each to its lower-case partner |
| Text.Contains | src/pages/admin/AdminOrders.tsx:97-100 | `includes`: some suffix of the text starts with the query, so the empty query is found in every text (a predicate; used by `AdminOrders.SearchSpec`) |
| Text.Utf16Length | src/pages/Checkout.tsx:28-31 | `length` lies between the character count and twice that; a single character counts 1 inside the Basic Multilingual Plane and 2 outside it; text entirely inside counts its characters, text entirely outside twice its characters |
| Text.Utf16LengthAppend | src/pages/Checkout.tsx:28-31 | the `length` of a concatenation is the sum of the lengths, so with the single-character case every character contributes its own 1 or 2 wherever it stands |
| Text.TrimStart | src/hooks/useProducts.ts:21 | the result is a suffix of the input, everything dropped is white space, and it does not start with white space |
| Text.TrimEnd | src/hooks/useProducts.ts:21 | the result is a prefix of the input, everything dropped is white space, and it does not end with white space |
| Text.Trim | src/hooks/useProducts.ts:21 | `s.trim()` is the middle of `s`: the characters after the leading white space, up to where only white space remains; it is empty or starts and ends with a character that is not white space |
| Text.TrimEmptyIff | src/hooks/useProducts.ts:21 | `s.trim()` is empty exactly when every character of `s` is white space |
| Text.LeadingDigits | src/pages/admin/AdminProducts.tsx:113 | the digits `parseInt` reads are the longest prefix made of digits |
| Text.ParseInt | src/pages/admin/AdminProducts.tsx:113 | `parseInt`: leading white space, an optional sign, a `0x` prefix for base 16, then the longest digit run; `None` is `NaN`. Its contract is in `Text.NoDigitsParsesToZero` and `Text.ParseIntRoundTrip` |
| Text.ParseIntOrZero | src/pages/admin/AdminProducts.tsx:113 | `parseInt(s) or 0`: `NaN` becomes 0. Its contract is in `Text.NoDigitsParsesToZero`, `Text.ParseIntRoundTrip` and `AdminProducts.BlankStockIsZero` |
| Text.ParseFloat | src/pages/admin/AdminProducts.tsx:111 | `parseFloat` on whole numbers: leading white space, an optional sign, then the longest decimal digit run; `None` is `NaN`. Its contract is in `Text.ParseFloatRoundTrip` |
| Text.NoDigitsParsesToZero | src/pages/admin/AdminProducts.tsx:113 | text without a decimal digit, the empty text included, is `NaN` for `parseInt`, so the `or 0` fallback gives 0 |
| Text.IntToString | src/pages/admin/AdminProducts.tsx:65 | `String(n)` is non-empty and starts with a minus sign exactly for negative numbers |
| Text.ParseIntRoundTrip | src/pages/admin/AdminProducts.tsx:67 | `parseInt(String(n))` is `n`, with or without the `or 0` fallback |
| Text.ParseFloatRoundTrip | src/pages/admin/AdminProducts.tsx:111 | `parseFloat(String(n))` is `n` for every whole number |
| Text.AfterLast | src/pages/admin/AdminProducts.tsx:80 | `split(".").pop()` is a suffix of the name without a dot, preceded by a dot unless it is the whole name |
| Text.AfterLastOfJoin | src/pages/admin/AdminProducts.tsx:80-82 | what comes after the last separator does not depend on the text before it |
| Catalog.ProductsQuery | src/hooks/useProducts.ts:11-23 | the storefront query is newest first and always filters on active products; it adds the category clause only for a category other than empty and "all", and the search clause only for a search that is not blank after trimming; it has no other clause |
| Catalog.AllProductsQuery | src/hooks/useProducts.ts:37-40 | the admin query has no filter and is newest first |
| Catalog.SortNewestFirst | src/hooks/useProducts.ts:15 | insertion by descending `created_at`; `Catalog.SortNewestFirstSpec` proves it newest first and a permutation of its input |
| Catalog.SortNewestFirstSpec | src/hooks/useProducts.ts:15 | ordering by `created_at` descending yields the same rows, each as often, newest first |
| Catalog.Run | src/hooks/useProducts.ts:11-15 | the backend's answer to a query: the admitted rows in table order, sorted when the query orders; `Catalog.RunSpec` states what that means |
| Catalog.RunSpec | src/hooks/useProducts.ts:11-15 | a query returns the rows its clauses admit, each as often as in the table, newest first when it orders |
| Catalog.StorefrontAdmits | src/hooks/useProducts.ts:14-23 | the storefront clauses admit a product iff it is active, in the chosen category and matches the search in name, description or category |
| Catalog.StorefrontResult | src/hooks/useProducts.ts:7-31 | a product is in the storefront list iff it is in the table, active, in the chosen category and matches the search; the list is newest first |
| Catalog.SearchPatternIsUntrimmed | src/hooks/useProducts.ts:21-22 | the search is tested after trimming but the pattern is the untrimmed text, so a match needs a column at least as long as the untrimmed text |
| Catalog.AdminResult | src/hooks/useProducts.ts:33-46 | the admin list holds every product of the table, each as often as in the table, newest first |
| Catalog.CategoryRows | src/hooks/useProducts.ts:52-56 | the category rows are the non-null categories of active products |
| Catalog.TruthyValues | src/hooks/useProducts.ts:60 | `filter(Boolean)` keeps exactly the non-null, non-empty categories |
| Catalog.TruthyValuesInRowOrder | src/hooks/useProducts.ts:59-60 | the truthy values are the rows kept by `filter(Boolean)`, unwrapped, in row order: an order-preserving sub-list of the rows |
| Catalog.UniqueCategories | src/hooks/useProducts.ts:60 | `[...new Set(values.filter(Boolean))]`: the truthy values with later repeats dropped; `Catalog.UniqueCategoriesSpec` states its contract |
| Catalog.UniqueCategoriesSpec | src/hooks/useProducts.ts:60 | the category list has no repeats, holds exactly the non-empty categories of the rows, and keeps the order of first occurrence |
| Catalog.CategoriesOfTable | src/hooks/useProducts.ts:52-61 | a category is listed iff it is not empty and some active product carries it |
| ProductCard.Render | src/components/products/ProductCard.tsx:41-89 | the category badge shows iff the category is truthy; "Only N left" shows iff the stock is non-null and between 1 and 5; the overlay shows and the button is disabled iff the stock is 0; image and description show iff truthy |
| ProductCard.StockSignalsConsistent | src/components/products/ProductCard.tsx:59-69 | the low-stock badge and the out-of-stock overlay never show together; a null or negative stock leaves the button enabled |
| ProductCard.HandleAddToCart | src/components/products/ProductCard.tsx:18-23 | the handler makes exactly one cart call, carrying the whole product, and its notice is the product's name followed by " added to cart!" |
| ProductCard.ClickAdd | src/components/products/ProductCard.tsx:18-19 | a click adds the whole product to the cart exactly once, unless the stock is 0 and the button is disabled |
| Checkout.FieldErrors | src/pages/Checkout.tsx:27-32 | the schema accepts a name of 2 to 100, a well-formed e-mail of at most 255, a phone of 10 to 15 and an address of 10 to 500 UTF-16 code units, and reports each field that fails |
| Checkout.PhoneCountsCharacters | src/pages/Checkout.tsx:30 | the phone rule counts characters, not digits: ten letters pass and nine digits fail |
| Checkout.EmojiCountTwice | src/pages/Checkout.tsx:28 | a one-emoji name passes the 2-unit minimum and a 60-emoji name fails the 100-unit maximum |
| Checkout.UserIdOf | src/pages/Checkout.tsx:83 | `user?.id || null` is null exactly when nobody is signed in or the id is empty, and otherwise the signed-in id |
| Checkout.NewOrderRow | src/pages/Checkout.tsx:80-92 | the order row the first insert writes; `Checkout.NewOrderRowSpec` states its contract |
| Checkout.NewOrderRowSpec | src/pages/Checkout.tsx:82-90 | a new order is "pending", carries the form's name, e-mail, phone and address and the cart total, and has a null `user_id` when nobody is signed in |
| Checkout.ItemRows | src/pages/Checkout.tsx:97-104 | one item row per cart line, in cart order, carrying the order id, product, quantity and unit price, with total = unit price × quantity |
| Checkout.ItemRowsTotal | src/pages/Checkout.tsx:97-104 | the item totals add up to the sum of price × quantity over the cart lines |
| Checkout.CheckoutPage.constructor | src/pages/Checkout.tsx:39-40 | the page starts with the cart's lines and not submitting |
| Checkout.CheckoutPage.Submit | src/pages/Checkout.tsx:70-123 | an invalid form or an empty cart sends nothing; otherwise the order insert goes first, and the items insert only after it succeeds; the cart is cleared and the order placed iff both succeed; a failed insert ends in a failure showing its backend message or "Failed to place order"; the page is not submitting afterwards |
| AdminOrders.MatchesSearch | src/pages/admin/AdminOrders.tsx:93-101 | the search predicate; `AdminOrders.SearchSpec` states which orders it keeps |
| AdminOrders.FilterOrders | src/pages/admin/AdminOrders.tsx:93-102 | the filtered list exists exactly when the orders are loaded and is never longer than them; `AdminOrders.SearchSpec` states its contents |
| AdminOrders.EmptySearchKeepsAll | src/pages/admin/AdminOrders.tsx:93-94 | an empty search keeps every fetched order, in order |
| AdminOrders.SearchSpec | src/pages/admin/AdminOrders.tsx:93-102 | the filtered list is an order-preserving sub-list of the orders; an order is kept iff the search is empty or the lower-cased search occurs in the lower-cased name, e-mail or id, or in the phone as stored |
| AdminOrders.PhoneSearchIsCaseSensitive | src/pages/admin/AdminOrders.tsx:99 | a capitalised search that occurs in a phone as stored does not find the order, while the same text in the e-mail does |
| AdminOrders.Revenue | src/pages/admin/AdminOrders.tsx:178 | the revenue of a list that is not loaded or empty is 0 |
| AdminOrders.CountStatus | src/pages/admin/AdminOrders.tsx:161 | a status count is 0 for a list not loaded and at most the list's length otherwise |
| AdminOrders.Stats | src/pages/admin/AdminOrders.tsx:150-183 | the four cards computed from the filtered orders; `AdminOrders.StatsSpec` and `AdminOrders.StatsNotLoaded` state their contract |
| AdminOrders.StatsSpec | src/pages/admin/AdminOrders.tsx:154-179 | the total is the number of shown orders, and pending and delivered the numbers of shown orders with exactly that status; pending plus delivered is at most the shown total, which is at most the fetched total; revenue is the sum of the shown amounts, 0 when none are shown, and with non-negative amounts between 0 and the sum over all orders |
| AdminOrders.StatsNotLoaded | src/pages/admin/AdminOrders.tsx:154 | every card shows 0 while the orders are not loaded |
| AdminOrders.StatusColor | src/pages/admin/AdminOrders.tsx:57-74 | `getStatusColor`; `AdminOrders.StatusColorDefault`, `AdminOrders.StatusColorValues` and `AdminOrders.StatusColorsDistinct` state its contract |
| AdminOrders.StatusColorDefault | src/pages/admin/AdminOrders.tsx:57-74 | a string gets the gray default iff it is not one of the six statuses |
| AdminOrders.StatusColorValues | src/pages/admin/AdminOrders.tsx:58-70 | pending is yellow, confirmed blue, processing purple, shipped indigo, delivered green and cancelled red |
| AdminOrders.StatusColorsDistinct | src/pages/admin/AdminOrders.tsx:57-73 | each of the six statuses gets its own class string |
| AdminOrders.DisplayStatus | src/pages/admin/AdminOrders.tsx:231-233 | the badge shows a truthy status as it is and anything else as "pending" |
| AdminOrders.BadgeClass | src/pages/admin/AdminOrders.tsx:231 | the badge colour of an order is the colour of its displayed status; `AdminOrders.MissingStatusShownAsPending` states the case of a missing status |
| AdminOrders.MissingStatusShownAsPending | src/pages/admin/AdminOrders.tsx:315 | an order without a status is shown and selected as "pending" with the pending colour, yet the Pending card does not count it |
| AdminOrders.SetStatus | src/pages/admin/AdminOrders.tsx:78-81 | the update sets the status of every row with the id and changes nothing else |
| AdminOrders.UpdateOrderStatus | src/pages/admin/AdminOrders.tsx:76-91 | the dialog closes iff the update succeeds; a failed update leaves the table as it was and shows the backend message or "Failed to update order status"; a successful one sets the chosen status on every row with the id, changes nothing else in any row, and announces "Order status updated to" the status |
| AdminOrders.AnyTransitionAllowed | src/pages/admin/AdminOrders.tsx:76-91 | from any status, a successful update sets any of the six values and closes the dialog; a failed one changes nothing and keeps it open |
| AdminDashboard.View | src/pages/admin/AdminDashboard.tsx:11-121 | every figure the dashboard shows, from the three fetched lists; `AdminDashboard.ViewSpec` states their contract |
| AdminDashboard.ViewSpec | src/pages/admin/AdminDashboard.tsx:11-121 | the product, order and today's-order totals are the lengths of their lists; active products are those with `is_active` true and pending orders those with status exactly "pending"; each is 0 for a list not loaded; revenues are the sums of the amounts, 0 for a list that is empty or not loaded; active products and pending orders never exceed their totals; Recent Activity shows the first five fetched orders, all of them when fewer; "No recent orders" shows iff the orders are missing or empty, which is iff Recent Activity is empty |
| AdminDashboard.TodayWithinTotal | src/pages/admin/AdminDashboard.tsx:8-12 | when today's orders are among all orders and amounts are non-negative, today's revenue lies between 0 and the total revenue |
| AdminProducts.FormOf | src/pages/admin/AdminProducts.tsx:60-72 | the edit form shows the name, the price in decimal, the stock in decimal ("0" when null), the nullable texts as `""` when null, and Active on unless the flag is false |
| AdminProducts.RecordOf | src/pages/admin/AdminProducts.tsx:108-116 | the saved record keeps the name and Active flag, writes null exactly for the empty description, category and image texts, and each non-empty one as typed |
| AdminProducts.RecordOfNumbers | src/pages/admin/AdminProducts.tsx:111-113 | the price written is what `parseFloat` reads from the price text and the stock what `parseInt(...) or 0` reads from the stock text |
| AdminProducts.BlankStockIsZero | src/pages/admin/AdminProducts.tsx:113 | an empty or non-numeric stock field saves a stock of 0 |
| AdminProducts.EditRoundTrip | src/pages/admin/AdminProducts.tsx:62-69 | opening a product and saving it unchanged writes back its name, price, texts (empty ones as null), its stock (null as 0) and its Active flag (null as true) |
| AdminProducts.SecondSaveWritesTheSame | src/pages/admin/AdminProducts.tsx:118-124 | after an unchanged edit is stored, opening and saving the product again writes exactly the same columns |
| AdminProducts.InitialFormRecord | src/pages/admin/AdminProducts.tsx:37-45 | the record built from a fresh form is an active product with stock 0, no description, category or image, and a `NaN` price (the browser would not submit that form, since name and price are required) |
| AdminProducts.UploadPath | src/pages/admin/AdminProducts.tsx:80-82 | the upload path lies under "products/" |
| AdminProducts.UploadPathSpec | src/pages/admin/AdminProducts.tsx:80-82 | the path is "products/", the clock in decimal, a dot and the file's extension; the extension is the text after the name's last dot, or the whole name when it has none |
| AdminProducts.SubmitRequest | src/pages/admin/AdminProducts.tsx:118-133 | saving sends an update keyed by the edited product's id when editing and an insert otherwise, both with the form's record |
| AdminProducts.HandleDelete | src/pages/admin/AdminProducts.tsx:146-162 | a delete of exactly that id is sent iff the admin confirms; an unconfirmed delete shows nothing; the notice reports success or the backend message |
| AdminProducts.ProductsPage.constructor | src/pages/admin/AdminProducts.tsx:32-45 | the page starts with the initial form, editing nothing, with the dialog closed and nothing running |
| AdminProducts.ProductsPage.ResetForm | src/pages/admin/AdminProducts.tsx:47-58 | the form is back to its initial values and nothing is being edited; the flags are unchanged |
| AdminProducts.ProductsPage.OpenEditDialog | src/pages/admin/AdminProducts.tsx:60-72 | the product is being edited, the form is filled from it and the dialog is open |
| AdminProducts.ProductsPage.OnOpenChange | src/pages/admin/AdminProducts.tsx:179-182 | the dialog takes the new state; closing it resets the form and the product being edited |
| AdminProducts.ProductsPage.HandleSubmit | src/pages/admin/AdminProducts.tsx:103-144 | runs only for a form whose required name and price are filled in and while no save is running; the write sent is the update or insert of the form's record; success closes the dialog and resets the form; failure keeps both and shows the message; the page is not submitting afterwards |
| AdminProducts.ProductsPage.EditForm | src/pages/admin/AdminProducts.tsx:239-291 | typing into the form replaces the form and changes nothing else |
| AdminProducts.ProductsPage.StartUpload | src/pages/admin/AdminProducts.tsx:74-86 | no file does nothing; otherwise the upload flag is set, the path is computed, and the handler holds the form as it is now |
| AdminProducts.ProductsPage.FinishUpload | src/pages/admin/AdminProducts.tsx:88-100 | a successful upload sets the form to the captured form with the new image URL, whatever the form became meanwhile; a failure leaves the form and shows the message; the flag is cleared |
| AdminProducts.ProductsPage.HandleImageUpload | src/pages/admin/AdminProducts.tsx:74-101 | run with nothing else happening meanwhile: no file does nothing; otherwise the file goes to its upload path, and only a successful upload changes the form, and only its image field |
| AdminProducts.EditDuringUpload | src/pages/admin/AdminProducts.tsx:74-101 | an edit typed during an upload is lost: a successful upload leaves the form as it was before the upload, with the new image |
| AdminProducts.SaveDuringUpload | src/pages/admin/AdminProducts.tsx:74-144 | a save that succeeds during an upload is overridden: the upload writes the saved form back, so the next Add Product dialog opens pre-filled with it |

## Left out

- Backend and caching: the backend queries, inserts, updates, deletes, storage uploads and public URLs
  are not executed. Their answers are parameters, and `Catalog.Run` states what a query returns. Cache
  keys and `invalidateQueries` are not modelled.
- The cart store `src/hooks/useCart.ts` is not part of this model. `Checkout.CheckoutPage` receives the
  cart lines and the store's `totalPrice()` as given. `clearCart()` empties the page's copy of the lines.
- Money is a whole number of rupees. `Text.ParseFloat` reads the whole-number part only, so fractional
  prices, exponents and `Infinity` are not modelled. Floating-point rounding in sums is not modelled either.
- Text.ToLower: lower-cases ASCII letters only, not the rest of Unicode.
- Catalog.ILike: reads `%` and `_` typed into the search literally. PostgreSQL would treat them as
  wildcards. Commas or parentheses that break the `or(...)` filter string are not modelled.
- Text.ParseInt: uses exact integers. JavaScript loses precision above 2^53.
- Catalog.SortNewestFirst: places rows with equal `created_at` in one fixed order. The backend leaves
  that order unspecified.
- Catalog.CategoryRows: takes rows in table order. The backend's row order for that query is
  unspecified, so the first-occurrence order is relative to the rows as returned.
- Dates and formatting are not modelled:
  - the date windows of `useOrders` (today, week, month) and the Admin Orders date filter;
  - `Intl` currency formatting and `toLocaleString`.
  The dashboard receives today's orders as an input.
- Checkout.FieldErrors: the e-mail pattern of the schema is an input. The per-field error messages are
  not modelled.
- The order notification is not modelled: `sendWhatsAppNotification` builds a message URL and opens a
  browser window.
- Navigation is not modelled: the redirect from an empty checkout to `/cart` and the move to
  `/order-success`. `Placed` carries the order id that move would pass on.
- Concurrency is modelled only for the image upload. Overlapping uploads and overlapping saves are
  excluded by the disabled input and button, which the `requires !isUploading` and
  `requires !isSubmitting` clauses state. Edits, saves and dialog changes can interleave with an upload,
  which is why it is split into `StartUpload` and `FinishUpload`. These interleavings are not modelled:
  - a save in flight (`src/pages/admin/AdminProducts.tsx:119-133`) while the dialog is closed and
    reopened and the form edited; the save's reset (`src/pages/admin/AdminProducts.tsx:137-138`) then
    clears the later edit. `HandleSubmit` runs as one step;
  - two status updates started from the detail dialog's Select, which stays enabled while an update
    awaits (`src/pages/admin/AdminOrders.tsx:78-81`, `src/pages/admin/AdminOrders.tsx:314-329`), so
    either may land last. `UpdateOrderStatus` runs as one step;
  - anything happening in checkout between its two inserts.
- AdminProducts.ProductsPage.HandleSubmit: the browser's `required` check is modelled as non-empty name
  and price texts; the `type="number"` check of the price text and its `step` are not modelled, so
  `Text.ParseFloat` may still read `NaN` from a price the model lets through.
- Presentation is not modelled: loading spinners, the admin product table's cell texts, the order
  detail dialog's contents, and the presentation-only files.
