# Bookstore backend: orders, cart, payments, users and catalog handlers

This project models the request handlers of an Express bookstore backend
that keeps its data in SQLite, and proves properties of the model in Dafny.
The handlers come from five controllers:

- **orders**: `createOrder` checks stock per line. It then inserts a
  `pending` header, and per line an item and a stock decrement.
  `getOrderById` and `getOrdersByUser` read orders back. `cancelOrder`
  makes a conditional `pending -> canceled` update. `updateOrderStatus` is
  the admin setter.
- **cart**: `getCart` creates the user's cart lazily. `addToCart` and its
  helper `addItemToCart` add a book or raise its quantity, after the stock
  check. `removeFromCart` deletes a book's rows and `clearCart` empties the
  cart.
- **payments**: `createPayment` runs its guard chain and builds the
  MercadoPago preference from the order's items. `paymentWebhook` marks an
  order paid when the payment is approved.
- **users**: `createUser` checks the required fields, the e-mail pattern
  and the e-mail and username conflicts. `loginUser`, then `updateUser`
  with its username check and the Cloudinary public id of the old picture.
  `getMe` with its `Bearer` header.
- **books**: `normalizeName`, the three get-or-insert lookups, `addBook`,
  the query and parameter builder of `getBooks` with its row mapping, and
  the per-book grouping of `getAllBooks`.

## Layout

- `tables.dfy` (module `Tables`) holds the tables as one `Store` class with
  a field per SQLite table. It also defines the `Reply` type (`Ok`, or an
  error status with the controller's message), JavaScript truthiness of
  body fields, the status enum and the error handler's two replies.
- `text.dfy` (module `Text`) models the JavaScript string operations the
  handlers use: `trim`, `toLowerCase`, the whitespace collapse and dot
  removal of `normalizeName`, `split`, joining, and number-to-text.
- `orders.dfy`, `cart.dfy`, `payments.dfy` and `users.dfy` hold one module
  per controller.
- `books.dfy` (module `Books`) holds `normalizeName`, the get-or-insert
  lookups and `addBook`.
- `listing.dfy` (module `BookListing`) holds `getBooks` and `getAllBooks`.

Most handlers are methods over the `Store` that return a `Reply`: the
value sent, or an error status and message. Three return something else:
- `Orders.GetOrdersByUser` returns the rows it sends, since it has no
  error reply other than the one for a storage error.
- `Users.LoginUser` returns an optional `Reply`, where none means that no
  reply is sent.
- `Payments.PaymentWebhook` returns a `WebhookReply`: nothing sent, 200 or 500.

The two listings have no `Store` method. `getBooks` is modelled as the
query builder `BookListing.BuildBooksQuery`, reading the request.
`getAllBooks` is modelled as `BookListing.GroupBooks`, grouping the rows
its queries return, which are its inputs.

Each handler's `ensures` state the reply and the new tables for every
branch the model has. The bcrypt, jsonwebtoken, MercadoPago and
Cloudinary calls and the uploaded file are parameters of the method. Each
parameter stands for the outcome the outside call produces, a failure of
the call included, as for MercadoPago's `payment.get` in the webhook.
Storage errors are inputs only for the header and item inserts of
`createOrder` (`Orders.Faults`). Constraint violations are derived from
the tables and the request: a taken ISBN, category or publisher name, and
a NOT NULL column left empty (an order line without a quantity or price,
and a profile update without a username). A failure passed to
`next(err)` becomes the error handler's reply: 400 for a violated
constraint, 500 otherwise. The other handlers' storage-error branches are
listed under "Left out".

Append-only tables are sequences whose row id is the position plus one.
`books` and `cart_items`, whose rows can go away, keep explicit ids.

## Where the code and its design description differ

The model follows the code.

- The design wants order creation to be one transaction. The code runs the
  stock check, the header insert and the per-line inserts and decrements as
  separate statements. A failed item insert therefore leaves the header and
  the other lines in place (`Orders.CreateOrder`). Two lines for the same
  book pass the check together and oversell it
  (`Orders.RepeatedBookOversells`). A line without a quantity passes the
  check, and its item insert then violates the NOT NULL column, so the
  reply is a 400 with the header kept
  (`Orders.LineWithoutQuantityIsConstraintError`).
- The design computes the total from the lines; the code stores the
  client's `total_price`.
- The design answers an unknown book with 404. The code answers 400, naming
  the book, as it does for short stock (`Orders.CreateOrder`).
- The design empties the cart after checkout from it. The code has no
  checkout from the cart: `createOrder` takes the lines from the request.
- The design accepts a payment confirmation only for a pending order and
  makes it a no-op otherwise. The webhook sets `paid` from any status, a
  canceled order included (`Payments.ApprovedPaymentRevivesCanceledOrder`).
- The design wants one cart per user. `addToCart` inserts two carts when
  the user has none (see Findings).

## Model

| member | source | states |
|---|---|---|
| Tables.ParseStatus | backend/controllers/ordersController.js:163-167 | a status is accepted exactly when it names one of the five CHECK values, and it maps to that value |
| Text.TrimStartShape | backend/controllers/booksController.js:5 | `trimStart` drops exactly the longest whitespace prefix: what it keeps is a suffix, everything before it is whitespace, and it does not start with whitespace |
| Text.TrimEndShape | backend/controllers/booksController.js:5 | `trimEnd` drops exactly the longest whitespace suffix: what it keeps is a prefix, everything after it is whitespace, and it does not end with whitespace |
| Text.Trim | backend/controllers/booksController.js:5 | the trimmed string has no leading or trailing whitespace, is no longer than the input, and a trimmed input is returned unchanged |
| Text.TrimKeepsChars | backend/controllers/booksController.js:5 | every character of the trimmed string occurs in the input |
| Text.ToLowerChars | backend/controllers/booksController.js:5 | lower-casing works character by character: each upper-case ASCII letter becomes lower-case and every other character is kept |
| Text.ToLowerFixesLower | backend/controllers/booksController.js:5 | lower-casing a string without upper-case letters changes nothing |
| Text.CollapseSpaces | backend/controllers/booksController.js:5 | the result is single-spaced, no longer than the input, empty exactly when the input is, and starts with whitespace exactly when the input does |
| Text.CollapseKeepsChars | backend/controllers/booksController.js:5 | every character of the collapsed string is a space or occurs in the input |
| Text.CollapseFixesSingleSpaced | backend/controllers/booksController.js:5 | collapsing a single-spaced string changes nothing |
| Text.RemoveAll | backend/controllers/booksController.js:5 | no occurrence of the character is left, and a string without it is returned unchanged |
| Text.RemoveAllKeepsChars | backend/controllers/booksController.js:5 | every character left after removing the dots occurs in the input |
| Text.SplitPieces | backend/controllers/usersController.js:163 | no piece of `split(sep)` holds the separator, and every character of a piece occurs in the input |
| Text.JoinSplit | backend/controllers/usersController.js:163 | joining the pieces of a split with the same separator gives back the string |
| Text.SplitWithoutSep | backend/controllers/usersController.js:163 | a string without the separator splits into itself alone |
| Text.SplitAtSep | backend/controllers/usersController.js:163 | splitting `a + sep + b` gives the pieces of `a` and then those of `b` |
| Text.SplitJoin | backend/controllers/booksController.js:260 | splitting a join of one or more separator-free parts gives back the parts |
| Text.NatToStringDigits | backend/controllers/paymentsController.js:65 | the decimal text of a natural number is all digits |
| Text.IntToStringSign | backend/controllers/paymentsController.js:65 | the decimal text of an integer starts with a minus sign exactly when the integer is negative |
| Text.DigitsValueOfNatToString | backend/controllers/paymentsController.js:65 | the decimal text of a number denotes that number |
| Text.IntToStringInjective | backend/controllers/paymentsController.js:65 | distinct numbers have distinct decimal texts |
| Orders.FirstRejected | backend/controllers/ordersController.js:17-34 | none exactly when every line's `book_id` names a book whose stock is not below the quantity, an absent quantity passing; otherwise the first line, in request order, that fails |
| Orders.CheckStock | backend/controllers/ordersController.js:17-36 | the stock loop reports the first failing line, or none |
| Orders.FirstFailure | backend/controllers/ordersController.js:52-60 | none exactly when every item insert succeeds, that is no storage error and no absent book, quantity or price; otherwise the first line whose insert fails |
| Orders.SurvivorsOrigin | backend/controllers/ordersController.js:52-60 | every stored row is the book, quantity and price of a line whose insert succeeds |
| Orders.SurvivorsWithoutFailure | backend/controllers/ordersController.js:52-76 | when no item insert fails, every line is stored, in order, with its book, quantity and price |
| Orders.ItemRows | backend/controllers/ordersController.js:52-58 | one `order_items` row per line, with that line's book, quantity and price and the order id |
| Orders.DecrementedStock | backend/controllers/ordersController.js:62-64 | each book's stock drops by exactly the total quantity the lines order of it; its other fields and the set of books are kept |
| Orders.UnorderedBookUnchanged | backend/controllers/ordersController.js:62-64 | a book that no line names keeps its row |
| Orders.CoveredLinesKeepStock | backend/controllers/ordersController.js:62-64 | rows for distinct books, each within its book's stock, leave every stock non-negative |
| Orders.SurvivorsChecked | backend/controllers/ordersController.js:17-76 | the rows stored for lines that passed the check with distinct books are for distinct books, each within its stock |
| Orders.CheckedOrderKeepsStock | backend/controllers/ordersController.js:17-76 | with distinct books, an order whose lines passed the check leaves every stock non-negative, whichever item inserts fail |
| Orders.LineWithoutQuantityIsConstraintError | backend/controllers/ordersController.js:26-60 | a line without a quantity passes the stock query of its book, and its item insert fails with the error handler's constraint 400 |
| Orders.RepeatedBookOversells | backend/controllers/ordersController.js:17-76 | two lines for one book pass the check together and drive its stock below zero |
| Orders.InsertLinesStep | backend/controllers/ordersController.js:52-76 | one pass of the line loop extends the inserted rows, the decremented stock and the first failed line by that line alone |
| Orders.InsertLines | backend/controllers/ordersController.js:52-91 | the line loop appends an item row for each line whose insert succeeds and decrements stock for just those lines; it reports the first line whose insert failed |
| Orders.OrderIdsInRange | backend/controllers/ordersController.js:49-58 | the new items point at the new order, so every item still names an existing order |
| Orders.PlacedReplyCases | backend/controllers/ordersController.js:78-91 | the placed order succeeds exactly when every item insert does, and it is the constraint 400 exactly when the first failing line lacks a column |
| Orders.PlaceOrder | backend/controllers/ordersController.js:40-91 | one header is appended and its position is the returned id; items and stock as InsertLines; the reply is the id, or the error handler's reply to the first failed item insert with the header kept |
| Orders.CreateOrder | backend/controllers/ordersController.js:4-99 | a missing field gives 400 with no change; a failing stock line gives its 400, naming the book id or `undefined`, with no change; a header fault gives 500 with no change; otherwise a `pending` order with the client's user and total, its items and decrements, and the reply of the placed order |
| Orders.ItemsOfOrderMembers | backend/controllers/ordersController.js:110-117 | the selection holds exactly the item rows with that order id |
| Orders.ItemsOfOrderNone | backend/controllers/ordersController.js:110-117 | rows that all carry other order ids select nothing |
| Orders.ItemsOfOrderAll | backend/controllers/ordersController.js:110-117 | rows that all carry the order id are selected whole, in order |
| Orders.ItemsOfOrderAppend | backend/controllers/ordersController.js:110-117 | selecting from appended rows selects from each part, in order |
| Orders.NewOrderReadsBack | backend/controllers/ordersController.js:110-117 | a new order reads back exactly the rows its creation inserted |
| Orders.GetOrderById | backend/controllers/ordersController.js:102-119 | 404 for an unknown id, otherwise the header with exactly its items |
| Orders.OrdersOfUser | backend/controllers/ordersController.js:125-128 | exactly the user's orders, by ascending id |
| Orders.GetOrdersByUser | backend/controllers/ordersController.js:122-129 | the user's orders |
| Orders.WithStatus | backend/controllers/ordersController.js:169-171 | only the named order's status changes; an unknown id changes nothing |
| Orders.WithStatusIdempotent | backend/controllers/paymentsController.js:127 | setting a status twice equals setting it once |
| Orders.SecondCancelFails | backend/controllers/ordersController.js:135-147 | a canceled order cannot be canceled again |
| Orders.CancelOrder | backend/controllers/ordersController.js:132-148 | succeeds exactly on a pending order, which becomes canceled with nothing else changed (no stock restore); otherwise 400 and no change |
| Orders.UpdateOrderStatus | backend/controllers/ordersController.js:159-180 | 400 for a status outside the enum, 404 for an unknown order, otherwise that status whatever the prior one |
| Carts.FirstCart | backend/controllers/cartController.js:9-15 | the first cart row of the user, or none exactly when the user has none |
| Carts.NewCartIsFirst | backend/controllers/cartController.js:15-28 | after a lazy insert, the user's cart is the inserted one |
| Carts.FindLine | backend/controllers/cartController.js:97-100 | the first row for that cart and book, or none exactly when there is none |
| Carts.QuantityOfUpdate | backend/controllers/cartController.js:104-106 | setting a row's quantity changes the total only for that row's cart and book, by the difference |
| Carts.AddItemQuantity | backend/controllers/cartController.js:96-124 | the cart's total quantity of the book rises by exactly the added quantity, and no other total changes |
| Carts.AddItemKeepsUnique | backend/controllers/cartController.js:96-124 | at most one row per cart and book stays at most one |
| Carts.AddItemKeepsValid | backend/controllers/cartController.js:113-115 | rows keep pointing at existing carts and keep ascending ids below the next id |
| Carts.DeleteMembers | backend/controllers/cartController.js:143-145 | the delete keeps exactly the rows outside that cart and book |
| Carts.DeleteChangesNothing | backend/controllers/cartController.js:143-152 | the delete shrinks the table exactly when some row matches, and changes nothing otherwise |
| Carts.DeleteQuantity | backend/controllers/cartController.js:143-145 | deleted cart-book totals become zero and every other total is kept |
| Carts.DeleteKeepsAscending | backend/controllers/cartController.js:143-145 | row ids stay ascending |
| Carts.DeleteKeepsInRange | backend/controllers/cartController.js:143-145 | rows keep pointing at existing carts |
| Carts.JoinedLines | backend/controllers/cartController.js:32-35 | exactly the cart's rows whose book exists, each with that book's title and price |
| Carts.CartWithoutRowsIsEmpty | backend/controllers/cartController.js:32-40 | a cart without rows lists no items |
| Carts.GetCart | backend/controllers/cartController.js:6-45 | no cart: one cart inserted and returned with no items; otherwise that cart with its joined items and no change |
| Carts.AddRejection | backend/controllers/cartController.js:51-66 | no rejection exactly when book id and positive quantity are given and the book exists with enough stock |
| Carts.AddItemToCart | backend/controllers/cartController.js:96-124 | the item is added by AddItem (an existing row grows, or a row is inserted with the next id); the next id is used up only by an insert; the reply says which happened |
| Carts.AddToCart | backend/controllers/cartController.js:47-94 | rejections change nothing; otherwise two carts are inserted when the user had none and the item goes to the second; stock is never changed |
| Carts.DoubleCartLosesFirstAdd | backend/controllers/cartController.js:72-88 | after a first add, the user's cart (the first cart row) holds none of any book |
| Carts.SingleCartKeepsAdd | backend/controllers/cartController.js:68-91 | with one lazy cart the user's total quantity of the book rises by the added quantity |
| Carts.AddToCartSingleCart | backend/controllers/cartController.js:47-94 | as AddToCart, but one cart is inserted |
| Carts.DeleteRows | backend/controllers/cartController.js:143-148 | deletes the matching rows and reports zero changes exactly when none matched |
| Carts.RemoveFromCart | backend/controllers/cartController.js:127-157 | 400 for a missing book id, 404 when there is no cart, and no change in either case; otherwise only that book's rows in that cart go, and 404 when none did |
| Carts.ClearCart | backend/controllers/cartController.js:160-178 | 404 and no change when there is no cart, otherwise every row of that cart is deleted |
| Carts.ClearedCartIsEmpty | backend/controllers/cartController.js:169-176 | a cleared cart lists no items, and other carts keep their totals |
| Payments.MapItems | backend/controllers/paymentsController.js:64-70 | one provider item per order item, in order, with the book id as text, `Libro <id>`, quantity, price and `ARS` |
| Payments.MappedIdsIdentifyBooks | backend/controllers/paymentsController.js:64-66 | two provider items share an id exactly when their rows name the same book |
| Payments.NotificationUrlNamesOrder | backend/controllers/paymentsController.js:86 | the webhook address determines the order it was built for |
| Payments.CreatePayment | backend/controllers/paymentsController.js:12-113 | checks run in order: missing id 400, unknown order 404, not pending 400, no items 400; then the provider's checkout link, or 500 when the provider fails; nothing is written |
| Payments.NewOrderIsBilledForItsLines | backend/controllers/paymentsController.js:46-70 | a freshly created order is billed one item per line, with that line's book, quantity and price |
| Payments.PaymentWebhook | backend/controllers/paymentsController.js:116-138 | a query type other than `payment` sends nothing and changes nothing; a failed payment lookup replies with the failure and changes nothing; otherwise 200, and an approved payment makes the order paid whatever its status |
| Payments.ApprovedPaymentRevivesCanceledOrder | backend/controllers/paymentsController.js:126-127 | an approved payment turns a canceled order into a paid one |
| Users.ValidEmailMeansPattern | backend/controllers/usersController.js:24-28 | the scan accepts exactly the strings the e-mail pattern matches |
| Users.FindByUsername | backend/controllers/usersController.js:31-34 | a row with that username, or none exactly when there is none |
| Users.ConflictRow | backend/controllers/usersController.js:31-34 | none exactly when no row holds the e-mail or the username; otherwise a clashing row, and one holding the e-mail whenever some row does |
| Users.ClashRepliesAreTruthful | backend/controllers/usersController.js:39-52 | registration is refused exactly when the e-mail or the username is taken; the 409 names the e-mail exactly when some row holds it, and the username exactly when no row holds the e-mail and one holds the username |
| Users.EmailClashTakesPrecedence | backend/controllers/usersController.js:31-52 | with `ana` and then `bob@x.com` stored, registering `bob@x.com` as `ana` returns bob's row and the e-mail 409 |
| Users.NewAccountKeepsUnique | backend/controllers/usersController.js:57-60 | a new account whose name and e-mail nobody holds keeps both unique |
| Users.CreateUser | backend/controllers/usersController.js:9-75 | 400 for a missing field, 400 for a bad e-mail, the 409 for the conflict query's row, each with no insert; otherwise exactly one user row with the given name, e-mail and hash, and its id |
| Users.FindBy | backend/controllers/usersController.js:79-81 | the first row whose chosen column holds the value, or none exactly when no row does |
| Users.FindByEmail | backend/controllers/usersController.js:80-84 | a row with that e-mail, or none exactly when there is none |
| Users.FoundAccountIsTheOnly | backend/controllers/usersController.js:80-84 | with unique e-mails the row found is the one holding the e-mail |
| Users.LoginUser | backend/controllers/usersController.js:78-98 | 400 for an unknown e-mail; no reply when a known e-mail comes without a password, as `bcrypt.compare` rejects in the callback; 401 for a wrong password; otherwise the token for the row's id and e-mail |
| Users.PublicId | backend/controllers/usersController.js:163 | the public id holds no `/` and no `.` |
| Users.PublicIdOfUrl | backend/controllers/usersController.js:163-166 | the public id of `<prefix>/<name>.<ext>` is `<name>` |
| Users.Updated | backend/controllers/usersController.js:186-196 | only that user's username, phone, address and picture change |
| Users.UpdateKeepsUnique | backend/controllers/usersController.js:122-135 | a username no other user holds keeps usernames unique |
| Users.UpdateUser | backend/controllers/usersController.js:108-215 | 409 only when a different user holds the username; a failed upload is a 500; a missing username is the error handler's 400 for an existing user, and a 200 with no change for an id no row has, as the UPDATE then matches nothing; otherwise only that row changes, and a new upload destroys `profile_pictures/<public id>` of the old picture |
| Users.BearerToken | backend/controllers/usersController.js:226 | the token is the second space-separated field of the header |
| Users.BearerTokenReadsBack | backend/controllers/usersController.js:222-226 | `Bearer <token>` gives back the token |
| Users.GetMe | backend/controllers/usersController.js:218-241 | 401 without a `Bearer ` header or for a token that fails verification, 404 for an unknown id, otherwise that user |
| Books.NormalizeName | backend/controllers/booksController.js:4-6 | the normalized name holds no dot |
| Books.NormalizedChars | backend/controllers/booksController.js:5 | no dot, no upper-case ASCII letter, and plain spaces as the only whitespace |
| Books.NormalizeFixesNormalized | backend/controllers/booksController.js:5 | a trimmed, lower-case, single-spaced, dot-free name is returned unchanged |
| Books.NormalizeIgnoresTrim | backend/controllers/booksController.js:5 | trimming first changes nothing |
| Books.FindByKey | backend/controllers/booksController.js:44-47 | the first row carrying the key, or none exactly when no row carries it |
| Books.GetOrInsertOutcome | backend/controllers/booksController.js:8-57 | a hit names a row carrying the key; only a miss inserts, and it inserts the trimmed name; the insert clashes exactly when the key is missing but the trimmed name is already a row; without a clash, unique names stay unique |
| Books.GetOrInsertDesignates | backend/controllers/booksController.js:8-57 | the id handed back names a row carrying the key or the trimmed name |
| Books.NormalizedLookupNeverClashes | backend/controllers/booksController.js:8-23 | with normalized comparison the insert never violates the UNIQUE constraint |
| Books.NormalizedLookupFindsItsInsert | backend/controllers/booksController.js:8-23 | a second lookup of the same name finds the first one's row and changes nothing |
| Books.DottedCategoryIsRejectedOnReuse | backend/controllers/booksController.js:25-40 | a category whose trimmed name holds a dot is inserted once and then clashes on every later reuse, until a row whose lower-cased name is the normalized name (such as "SciFi" for "Sci.Fi") is stored |
| Books.GetOrInsertAuthor | backend/controllers/booksController.js:8-23 | returns the found id with no change, or appends the trimmed name and returns its id |
| Books.GetOrInsertCategory | backend/controllers/booksController.js:25-40 | as GetOrInsertAuthor with `LOWER(name)` compared; a clashing insert is a 400 with no change |
| Books.GetOrInsertCategoryNormalized | backend/controllers/booksController.js:25-40 | the category lookup with both sides normalized never clashes |
| Books.GetOrInsertPublisher | backend/controllers/booksController.js:42-57 | as GetOrInsertCategory, for publishers |
| Books.LinkAllGrows | backend/controllers/booksController.js:116-130 | the loops only append to the name table and the link rows |
| Books.LinkAllLinks | backend/controllers/booksController.js:116-130 | a completed loop writes one link row per name, in order, from the book to a row the name designates |
| Books.NormalizedLinkingNeverFails | backend/controllers/booksController.js:116-122 | the author loop never fails |
| Books.FailedLinkingStops | backend/controllers/booksController.js:124-130 | once a category insert fails, the later names change nothing |
| Books.LinkAuthors | backend/controllers/booksController.js:116-122 | the author loop's tables are those of the model loop |
| Books.LinkCategories | backend/controllers/booksController.js:124-130 | the category loop's tables and failure are those of the model loop |
| Books.TrimAllAt | backend/controllers/booksController.js:82 | each piece is trimmed |
| Books.ListOfPieces | backend/controllers/booksController.js:80-85 | a string gives one trimmed, comma-free name per comma-separated piece |
| Books.ListOfComma | backend/controllers/booksController.js:80-85 | splitting distributes over a comma |
| Books.ListOfSingleName | backend/controllers/booksController.js:80-85 | a string without a comma names one item, trimmed |
| Books.InsertBook | backend/controllers/booksController.js:99-114 | a taken ISBN is the error handler's 400 with no change; otherwise the book is stored under the next id, which then advances |
| Books.SaveBook | backend/controllers/booksController.js:99-130 | the tables and reply are those of SaveAll: the book row, then the author loop, then the category loop |
| Books.AddBook | backend/controllers/booksController.js:60-136 | the tables and reply are exactly those of the model outcome AddBookOutcome, and book ids stay below the next id |
| Books.SaveAllSucceeded | backend/controllers/booksController.js:99-130 | a successful save stored the book under the next id and ran both loops to the end |
| Books.AddBookSaved | backend/controllers/booksController.js:60-136 | a successful `addBook` had all required fields and a working upload, got the publisher without a clash, and saved the book |
| Books.AddBookReplies | backend/controllers/booksController.js:60-136 | the missing-fields 400 comes exactly when a required field is missing, and then nothing is written; the 500 comes exactly when the fields are complete, the publisher lookup succeeded and the upload failed; every other failure is the error handler's 400 |
| Books.AddBookStoresBook | backend/controllers/booksController.js:87-114 | on success the publisher row designates the given name, and the book is stored under the returned id, the next free one |
| Books.AuthorLoopLinks | backend/controllers/booksController.js:116-122 | the author loop keeps the old links and adds one per name, in order, from the book to an author with the same normalized name |
| Books.CategoryLoopLinks | backend/controllers/booksController.js:124-130 | a completed category loop keeps the old links and adds one per name, in order, to a category the name designates |
| Books.AddBookLinksAuthors | backend/controllers/booksController.js:116-122 | a successful `addBook` inserts one author link per element of the author list |
| Books.AddBookLinksCategories | backend/controllers/booksController.js:124-130 | a successful `addBook` inserts one category link per element of the category list |
| Books.CategoryClashKeepsBook | backend/controllers/booksController.js:99-136 | a category clash replies 400 while the book row and its author links stay |
| Books.AddBookKeepsIdsBelow | backend/controllers/booksController.js:99-114 | book ids stay below the next id, which never goes down |
| Books.SaveAllKeepsIdsBelow | backend/controllers/booksController.js:99-114 | the writes after the publisher keep book ids below the next id, which never goes down |
| BookListing.Placeholders | backend/controllers/booksController.js:174 | the placeholder list holds exactly `n` placeholders |
| BookListing.CategoryFilter | backend/controllers/booksController.js:175-184 | the category filter holds one placeholder per category |
| BookListing.CategoryClause | backend/controllers/booksController.js:172-184 | one placeholder per category value bound |
| BookListing.FiltersInLockstep | backend/controllers/booksController.js:172-224 | whichever filters apply, the placeholders match the bound values one for one |
| BookListing.QueriesInLockstep | backend/controllers/booksController.js:152-238 | the book query has one placeholder per parameter, the filters' and then limit and offset; the count query one per count parameter |
| BookListing.PieceMarks | backend/controllers/booksController.js:152-238 | the text of a placeholder is one `?`, and a fragment whose text has no `?` adds none |
| BookListing.RenderMarks | backend/controllers/booksController.js:152-238 | when no fragment text holds a `?`, the SQL text of a query holds exactly one `?` per placeholder |
| BookListing.RenderedQueriesInLockstep | backend/controllers/booksController.js:152-238 | under the same premise, the `?` characters of both SQL texts match their parameter lists one for one |
| BookListing.CategoryParamsLowercase | backend/controllers/booksController.js:185-186 | each category value is bound lower-cased |
| BookListing.SortClauseChoices | backend/controllers/booksController.js:226-235 | each sort key picks its column and direction; any other key, or none, sorts by title ascending |
| BookListing.BuildBooksQuery | backend/controllers/booksController.js:139-238 | the book and count queries are the model's; the count parameters are the filter values, and the book parameters are the filter values then limit and offset; each query has one placeholder per parameter |
| BookListing.CategoryPart | backend/controllers/booksController.js:172-187 | the category loop binds each category lower-cased, one per placeholder |
| BookListing.AddFilter | backend/controllers/booksController.js:189-224 | a truthy field adds its clause to both queries and its value to both parameter lists; otherwise nothing is added |
| BookListing.DefaultPaging | backend/controllers/booksController.js:141-152 | without `page` and `limit` the first nine books are asked for |
| BookListing.NamesRoundTrip | backend/controllers/booksController.js:259-264 | plain names joined by commas come back exactly, in order; no names give an empty column and an empty list |
| BookListing.ListBooks | backend/controllers/booksController.js:248-265 | one listing per row, in row order, with the names split from the concatenated columns |
| BookListing.ListedRowNames | backend/controllers/booksController.js:248-265 | a row lists exactly the names its columns were concatenated from |
| BookListing.BookIds | backend/controllers/booksController.js:288 | the ids of the books, in query order |
| BookListing.LastWith | backend/controllers/booksController.js:311-326 | the book a map entry comes from carries the entry's id |
| BookListing.MapBooks | backend/controllers/booksController.js:311-326 | one entry per book id, with no names yet |
| BookListing.AddAuthors | backend/controllers/booksController.js:328-332 | each author row's name is pushed onto its book's entry; rows for other ids are dropped |
| BookListing.AddCategories | backend/controllers/booksController.js:334-338 | the same for the category rows |
| BookListing.BuildBookMap | backend/controllers/booksController.js:310-338 | the map is the grouped value: each book with exactly the names of its rows |
| BookListing.Insert | backend/controllers/booksController.js:340 | an id put into an ascending key list holds exactly the old keys and the new one |
| BookListing.InsertAscending | backend/controllers/booksController.js:340 | inserting keeps the key list ascending |
| BookListing.InsertLength | backend/controllers/booksController.js:340 | inserting an absent key adds one, and a present key none |
| BookListing.SortedIds | backend/controllers/booksController.js:340 | the key list holds exactly the book ids |
| BookListing.SortedIdsAscending | backend/controllers/booksController.js:340 | the key list is strictly ascending |
| BookListing.SortedIdsDistinct | backend/controllers/booksController.js:340 | with distinct ids there is one key per book |
| BookListing.ObjectValues | backend/controllers/booksController.js:340 | the map's values listed by ascending key |
| BookListing.GroupBooks | backend/controllers/booksController.js:284-341 | the listings are the values of the grouped book map in ascending key order, as `Object.values` lists them, and the total is their number |
| BookListing.AllBooksLists | backend/controllers/booksController.js:310-341 | every book id is listed once, by strictly ascending id, with exactly its own author and category names in row order; with distinct ids there is one listing per book |
| BookListing.GroupBooksInQueryOrder | backend/controllers/booksController.js:340-341 | the listings in the query's order, with their number as total |
| BookListing.LastWithUnique | backend/controllers/booksController.js:311-326 | with distinct ids each book's entry comes from that book |
| BookListing.QueryOrderKept | backend/controllers/booksController.js:274-341 | with distinct ids the listing is the query's rows, in title order, each with its own names |
| BookListing.ObjectValuesReordersTitles | backend/controllers/booksController.js:274-340 | books returned as "A" (id 2), "B" (id 1) by the title sort come out "B" first |

## Left out

- Real SQLite access, the callbacks and the `Promise.all` fan-out. The statements run one after the other, in request order. There is no concurrency, locking or rollback, because the code has none.
- Orders.CreateOrder: with several failing lines, the reply is that of the first failing line in request order, for the stock query and for the item inserts alike. With concurrent callbacks any failing line could be rejected first.
- Orders.CreateOrder: a storage error on the stock query or a stock decrement is not modelled. Only a failed header insert or a failed `order_items` insert is an input.
- The `books` row is reduced to the columns the handlers read. Prices and totals are integers (cents), because the `REAL` columns are floating point.
- Books.AddBook: the request's `price` is an integer, so a price of 0 is falsy and rejected. On the multipart route the body fields are strings, and the text "0" passes the check.
- Text.ToLower: lower-cases ASCII letters only. JavaScript's Unicode case mapping is not modelled.
- Books.NewBook: a missing `stock` is stored as 0. SQLite stores NULL for the unbound value, and the listings would then send `null`.
- Books.GetOrInsertAuthor: is modelled at its intended semantics, comparing normalized names. The code queries a `normalized_name` column that the schema does not have.
- Books.GetOrInsertAuthor, Books.GetOrInsertCategory, Books.GetOrInsertPublisher, Books.InsertBook, Books.LinkAuthors, Books.LinkCategories: the code awaits the callback-style `db.get` and `db.run`, which give back the database object rather than a row or a statement result. As written, every lookup "finds" a row and the ids read from it are undefined. These members are modelled at the intended semantics of a promise-returning driver.
- Books.AddBook: `cloudinary`, which is not imported in the source, is modelled as an upload outcome given as input.
- The AddBook family requires and keeps only `BookIdsBelow` of the store invariant; the other tables it writes carry no invariant.
- BookListing.BooksRequest: `page` and `limit` are integers. A non-numeric text (NaN) is not modelled.
- BookListing.BooksRequest: `author`, `publisher`, `title`, `minPrice` and `maxPrice` are single strings. A repeated query parameter given as an array is not modelled.
- BookListing.SortClause: a `sort` key naming an inherited property of the options object is not modelled.
- BookListing.RenderMarks, BookListing.RenderedQueriesInLockstep: take as a premise that no SQL fragment's text holds a `?`. The fragments are fixed strings without one, but that fact about the long literals is not proved.
- Executing the `getBooks` and `getAllBooks` queries is not modelled. That covers the SQL semantics of LIKE, IN, GROUP BY, GROUP_CONCAT and the ordering, and the `IN (...)` list that `getAllBooks` joins from the ids.
- `getBooks` row mapping: `rating` is an opaque `real`. Names containing a comma or a bar, or starting with whitespace, do not survive the GROUP_CONCAT round trip, and NamesRoundTrip requires plain names.
- `total` of `getBooks` is the count column when a row comes back and 0 otherwise (`TotalOf`). No property is stated about it.
- The bcrypt, jsonwebtoken, MercadoPago and Cloudinary calls are parameters: the outcome each produces.
- Orders.GetOrderById, Orders.GetOrdersByUser, Orders.CancelOrder, Orders.UpdateOrderStatus, Carts.GetCart, Carts.AddToCart, Carts.RemoveFromCart, Carts.ClearCart, Payments.CreatePayment, Users.CreateUser, Users.LoginUser, Users.UpdateUser, Users.GetMe, Books.AddBook: a storage error on one of their queries, which the code passes to the error handler, is not modelled. Each query is taken to succeed. Only the constraint violations the tables decide are modelled.
- Users.ConflictRow: SQL fixes no row order for `db.get`. The model takes the e-mail row first, as SQLite's plan for an OR of equalities on two UNIQUE columns reads it. A plan that scans the table instead could return a row holding only the username ahead of the row holding the e-mail, and then the 409 names the username.
- Users.UpdateUser: in the code the old picture's lookup races with the update. The model reads the picture from before the update. The destroy is returned as the public id it is called with, and its outcome is not modelled.
- `getAllOrders`, `getUsers`, `deleteBooks` and the three payment landing handlers are single statements or fixed messages and are not part of this model. So are the likes controller, the middleware, the routes, the configuration, the database seeding and the frontend.

## Findings

| source | as written | input that shows it | evidently intended | confidence | as-written member | corrected member |
|---|---|---|---|---|---|---|
| backend/controllers/cartController.js:72-88 | with no cart, `addToCart` inserts two cart rows and adds the item to the second, while every later read takes the user's first cart | a user without a cart adds book 1; `getCart` then shows an empty cart | one lazy cart that receives the item | not executed | Carts.DoubleCartLosesFirstAdd | Carts.SingleCartKeepsAdd |
| backend/controllers/booksController.js:25-40 | `getOrInsertCategory` compares `LOWER(name)` with the normalized name, which has its dots removed | at the promise-returning driver semantics the model takes for `db.get`, adding two books with category "Sci.Fi": the second lookup misses and its insert violates UNIQUE | find the existing category | not executed | Books.DottedCategoryIsRejectedOnReuse | Books.NormalizedLookupFindsItsInsert |
| backend/controllers/booksController.js:340 | `Object.values(bookMap)` lists integer keys in ascending order, so the books come back by id | books titled "A" (id 2) and "B" (id 1) are listed "B", "A" | the title order of the query | not executed | BookListing.ObjectValuesReordersTitles | BookListing.QueryOrderKept |
