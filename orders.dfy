/** ordersController.js: creating an order over the `orders`, `order_items` and
    `books` tables, reading orders back, cancelling, and the admin status setter. */
module Orders {
  import opened Tables
  import opened Text

  /** One element of the request's `items` array; each field may be absent. */
  datatype RequestLine = RequestLine(bookId: Option<int>, quantity: Option<int>, price: Option<int>)

  /** The book, quantity and price of one stored `order_items` row. */
  datatype Line = Line(bookId: int, quantity: int, price: int)

  /** The body of `POST /orders`; each field may be absent. */
  datatype OrderRequest = OrderRequest(userId: Option<int>, items: Option<seq<RequestLine>>, totalPrice: Option<int>)

  /** Storage errors injected by the caller: the header insert fails, or the
      `order_items` inserts of the listed line positions fail. */
  datatype Faults = Faults(header: bool, lines: set<int>)

  const IncompleteMessage: string := "Faltan datos para crear la orden."

  /** The guard of `createOrder`: `user_id`, `items` and `total_price` are all
      truthy (an empty `items` array is truthy). */
  predicate IsComplete(req: OrderRequest) {
    Truthy(req.userId) && req.items.Some? && Truthy(req.totalPrice)
  }

  /** A line passes the stock query: its `book_id` names a book, and that
      book's stock is not below the quantity. An absent quantity passes, since
      `stock < undefined` is false. */
  predicate InStock(books: map<int, Book>, line: RequestLine) {
    && line.bookId.Some? && line.bookId.value in books
    && (line.quantity.None? || books[line.bookId.value].stock >= line.quantity.value)
  }

  /** `${item.book_id}` in a message: the number, or `undefined`. */
  function IdText(id: Option<int>): string {
    if id.Some? then IntToString(id.value) else "undefined"
  }

  /** The 400 reply for a line that fails the stock query. */
  function StockRejection(books: map<int, Book>, line: RequestLine): Reply<int> {
    if !(line.bookId.Some? && line.bookId.value in books)
    then Err(400, "Libro ID " + IdText(line.bookId) + " no encontrado")
    else Err(400, "Stock insuficiente para el libro ID " + IntToString(line.bookId.value))
  }

  /** The position of the first line, in request order, that fails the stock
      query; none when every line passes. */
  function FirstRejected(books: map<int, Book>, items: seq<RequestLine>): (r: Option<nat>)
    ensures r.None? <==> forall i :: 0 <= i < |items| ==> InStock(books, items[i])
    ensures r.Some? ==> r.value < |items| && !InStock(books, items[r.value])
    ensures r.Some? ==> forall i :: 0 <= i < r.value ==> InStock(books, items[i])
  {
    if items == [] then None
    else if !InStock(books, items[0]) then Some(0)
    else match FirstRejected(books, items[1..])
      case None => None
      case Some(k) => Some(k + 1)
  }

  /** The three columns of `order_items` that the request fills are NOT NULL. */
  predicate HasColumns(line: RequestLine) {
    line.bookId.Some? && line.quantity.Some? && line.price.Some?
  }

  /** The row a complete request line is stored as. */
  function Stored(line: RequestLine): Line
    requires HasColumns(line)
  {
    Line(line.bookId.value, line.quantity.value, line.price.value)
  }

  /** The `order_items` insert of the line at position `i` succeeds: no
      storage error is injected for it and it violates no NOT NULL. */
  predicate Inserts(line: RequestLine, i: int, failed: set<int>) {
    i !in failed && HasColumns(line)
  }

  /** The error handler's reply to a failed item insert: the NOT NULL
      violation of an absent field is a constraint error, any other storage
      error a 500. */
  function InsertFailure(line: RequestLine): Reply<int> {
    if HasColumns(line) then ServerFailure() else ConstraintViolated()
  }

  /** The position of the first line whose item insert fails; none when
      every insert succeeds. */
  function FirstFailure(items: seq<RequestLine>, failed: set<int>): (r: Option<nat>)
    ensures r.None? <==> forall i :: 0 <= i < |items| ==> Inserts(items[i], i, failed)
    ensures r.Some? ==> r.value < |items| && !Inserts(items[r.value], r.value, failed)
    ensures r.Some? ==> forall i :: 0 <= i < r.value ==> Inserts(items[i], i, failed)
  {
    if items == [] then None
    else
      var n := |items| - 1;
      assert forall i :: 0 <= i < n ==> items[..n][i] == items[i];
      match FirstFailure(items[..n], failed)
      case Some(k) => Some(k)
      case None => if Inserts(items[n], n, failed) then None else Some(n)
  }

  /** The rows of the lines whose item insert succeeds, in request order. */
  function Survivors(items: seq<RequestLine>, failed: set<int>): seq<Line>
  {
    if items == [] then []
    else
      var n := |items| - 1;
      Survivors(items[..n], failed) + (if Inserts(items[n], n, failed) then [Stored(items[n])] else [])
  }

  /** Row `x` is stored for some line of the request whose insert succeeds. */
  predicate FromRequest(items: seq<RequestLine>, failed: set<int>, x: Line) {
    exists j :: 0 <= j < |items| && Inserts(items[j], j, failed) && x == Stored(items[j])
  }

  /** Every inserted row comes from a line of the request whose insert
      succeeds. */
  lemma {:induction false} SurvivorsOrigin(items: seq<RequestLine>, failed: set<int>)
    ensures forall k :: 0 <= k < |Survivors(items, failed)| ==> FromRequest(items, failed, Survivors(items, failed)[k])
  {
    if items != [] {
      var n := |items| - 1;
      var prefix := items[..n];
      SurvivorsOrigin(prefix, failed);
      var s := Survivors(items, failed);
      var p := Survivors(prefix, failed);
      assert s == p + (if Inserts(items[n], n, failed) then [Stored(items[n])] else []);
      forall k | 0 <= k < |s|
        ensures FromRequest(items, failed, s[k])
      {
        if k < |p| {
          assert FromRequest(prefix, failed, p[k]);
          var j :| 0 <= j < |prefix| && Inserts(prefix[j], j, failed) && p[k] == Stored(prefix[j]);
          assert prefix[j] == items[j];
          assert s[k] == p[k];
        } else {
          assert s[k] == Stored(items[n]);
        }
      }
    }
  }

  /** When every insert succeeds, every line is stored, in order. */
  lemma {:induction false} SurvivorsWithoutFailure(items: seq<RequestLine>, failed: set<int>)
    requires forall i :: 0 <= i < |items| ==> Inserts(items[i], i, failed)
    ensures |Survivors(items, failed)| == |items|
    ensures forall i :: 0 <= i < |items| ==> HasColumns(items[i]) && Survivors(items, failed)[i] == Stored(items[i])
  {
    if items != [] {
      var n := |items| - 1;
      var prefix := items[..n];
      assert forall i :: 0 <= i < n ==> prefix[i] == items[i];
      SurvivorsWithoutFailure(prefix, failed);
      var p := Survivors(prefix, failed);
      assert Inserts(items[n], n, failed);
      assert Survivors(items, failed) == p + [Stored(items[n])];
      forall i | 0 <= i < |items|
        ensures HasColumns(items[i]) && Survivors(items, failed)[i] == Stored(items[i])
      {
        if i < n {
          assert p[i] == Stored(prefix[i]);
        }
      }
    }
  }

  /** The `order_items` rows inserted for `lines`: one per line, carrying its
      book, quantity and price and the order id. */
  function ItemRows(orderId: int, lines: seq<Line>): (r: seq<OrderItem>)
    ensures |r| == |lines|
    ensures forall i :: 0 <= i < |lines| ==>
      r[i] == OrderItem(orderId, lines[i].bookId, lines[i].quantity, lines[i].price)
  {
    if lines == [] then []
    else
      var n := |lines| - 1;
      ItemRows(orderId, lines[..n]) + [OrderItem(orderId, lines[n].bookId, lines[n].quantity, lines[n].price)]
  }

  /** `UPDATE books SET stock = stock - ? WHERE id = ?` for one line. */
  function Decrement(books: map<int, Book>, line: Line): map<int, Book> {
    if line.bookId in books
    then books[line.bookId := books[line.bookId].(stock := books[line.bookId].stock - line.quantity)]
    else books
  }

  /** The books table after the decrements of `lines`, one after the other. */
  function Decremented(books: map<int, Book>, lines: seq<Line>): map<int, Book> {
    if lines == [] then books
    else Decrement(Decremented(books, lines[..|lines| - 1]), lines[|lines| - 1])
  }

  /** The total quantity that `lines` order of book `id`. */
  function Ordered(lines: seq<Line>, id: int): int {
    if lines == [] then 0
    else Ordered(lines[..|lines| - 1], id)
         + (if lines[|lines| - 1].bookId == id then lines[|lines| - 1].quantity else 0)
  }

  /** Each book's stock drops by exactly the quantity the lines order of it;
      nothing else about any book changes and no book appears or disappears. */
  lemma {:induction false} DecrementedStock(books: map<int, Book>, lines: seq<Line>, id: int)
    ensures Decremented(books, lines).Keys == books.Keys
    ensures id in books ==>
      Decremented(books, lines)[id] == books[id].(stock := books[id].stock - Ordered(lines, id))
  {
    if lines != [] {
      DecrementedStock(books, lines[..|lines| - 1], id);
    }
  }

  lemma {:induction false} OrderedAbsent(lines: seq<Line>, id: int)
    requires forall i :: 0 <= i < |lines| ==> lines[i].bookId != id
    ensures Ordered(lines, id) == 0
  {
    if lines != [] {
      OrderedAbsent(lines[..|lines| - 1], id);
    }
  }

  /** A book that no line names keeps its row unchanged. */
  lemma UnorderedBookUnchanged(books: map<int, Book>, lines: seq<Line>, id: int)
    requires id in books
    requires forall i :: 0 <= i < |lines| ==> lines[i].bookId != id
    ensures id in Decremented(books, lines) && Decremented(books, lines)[id] == books[id]
  {
    DecrementedStock(books, lines, id);
    OrderedAbsent(lines, id);
  }

  /** No two stored rows name the same book. */
  predicate DistinctBooks(lines: seq<Line>) {
    forall i, j :: 0 <= i < j < |lines| ==> lines[i].bookId != lines[j].bookId
  }

  /** No two request lines carry the same `book_id`. */
  predicate DistinctRequested(items: seq<RequestLine>) {
    forall i, j :: 0 <= i < j < |items| ==> items[i].bookId != items[j].bookId
  }

  lemma {:induction false} OrderedSingle(lines: seq<Line>, k: int)
    requires DistinctBooks(lines)
    requires 0 <= k < |lines|
    ensures Ordered(lines, lines[k].bookId) == lines[k].quantity
  {
    var n := |lines| - 1;
    if k == n {
      OrderedAbsent(lines[..n], lines[k].bookId);
    } else {
      OrderedSingle(lines[..n], k);
    }
  }

  /** Rows for distinct books, each within its book's stock, leave every
      stock non-negative. */
  lemma CoveredLinesKeepStock(books: map<int, Book>, lines: seq<Line>)
    requires forall id :: id in books ==> books[id].stock >= 0
    requires forall i :: 0 <= i < |lines| ==> lines[i].bookId in books && books[lines[i].bookId].stock >= lines[i].quantity
    requires DistinctBooks(lines)
    ensures forall id :: id in Decremented(books, lines) ==> Decremented(books, lines)[id].stock >= 0
  {
    forall id | id in Decremented(books, lines)
      ensures Decremented(books, lines)[id].stock >= 0
    {
      DecrementedStock(books, lines, id);
      if k :| 0 <= k < |lines| && lines[k].bookId == id {
        OrderedSingle(lines, k);
      } else {
        OrderedAbsent(lines, id);
      }
    }
  }

  /** The rows stored for a request whose lines passed the stock query with
      distinct books are for distinct books, each within its stock. */
  lemma {:induction false} SurvivorsChecked(books: map<int, Book>, items: seq<RequestLine>, failed: set<int>)
    requires forall i :: 0 <= i < |items| ==> InStock(books, items[i])
    requires DistinctRequested(items)
    ensures var s := Survivors(items, failed);
      && DistinctBooks(s)
      && forall i :: 0 <= i < |s| ==> s[i].bookId in books && books[s[i].bookId].stock >= s[i].quantity
  {
    SurvivorsOrigin(items, failed);
    if items != [] {
      var n := |items| - 1;
      var p := Survivors(items[..n], failed);
      assert forall i :: 0 <= i < n ==> items[..n][i] == items[i];
      SurvivorsChecked(books, items[..n], failed);
      SurvivorsOrigin(items[..n], failed);
      if Inserts(items[n], n, failed) {
        forall k | 0 <= k < |p| ensures p[k].bookId != items[n].bookId.value {
          assert FromRequest(items[..n], failed, p[k]);
          var j :| 0 <= j < n && Inserts(items[..n][j], j, failed) && p[k] == Stored(items[..n][j]);
          assert items[..n][j] == items[j];
          assert items[j].bookId != items[n].bookId;
        }
      }
    }
  }

  /** With distinct books, an order whose every line passed the stock query
      leaves every stock non-negative, whichever item inserts fail. */
  lemma CheckedOrderKeepsStock(books: map<int, Book>, items: seq<RequestLine>, failed: set<int>)
    requires forall id :: id in books ==> books[id].stock >= 0
    requires FirstRejected(books, items).None?
    requires DistinctRequested(items)
    ensures var after := Decremented(books, Survivors(items, failed));
      forall id :: id in after ==> after[id].stock >= 0
  {
    SurvivorsChecked(books, items, failed);
    CoveredLinesKeepStock(books, Survivors(items, failed));
  }

  /** Each line is checked against the stock before the order, so two lines
      for the same book pass together and oversell it. */
  lemma RepeatedBookOversells()
    ensures var books := map[1 := Book("", "", 1000, 1, None, 1, None, None, None)];
            var items := [RequestLine(Some(1), Some(1), Some(1000)), RequestLine(Some(1), Some(1), Some(1000))];
            var after := Decremented(books, Survivors(items, {}));
            FirstRejected(books, items).None? && 1 in after && after[1].stock == -1
  {
    var books := map[1 := Book("", "", 1000, 1, None, 1, None, None, None)];
    var items := [RequestLine(Some(1), Some(1), Some(1000)), RequestLine(Some(1), Some(1), Some(1000))];
    assert InStock(books, items[0]) && InStock(books, items[1]);
    assert Inserts(items[0], 0, {}) && Inserts(items[1], 1, {});
    SurvivorsWithoutFailure(items, {});
    var s := Survivors(items, {});
    assert s == [Line(1, 1, 1000), Line(1, 1, 1000)];
    assert s[..1] == [Line(1, 1, 1000)];
    assert s[..1][..0] == [];
    assert Ordered(s[..1][..0], 1) == 0;
    assert Ordered(s[..1], 1) == 1;
    assert Ordered(s, 1) == 2;
    DecrementedStock(books, s, 1);
    assert FirstRejected(books, items).None?;
  }

  /** A line without a quantity passes the stock query of any book it names,
      and its item insert then breaks the NOT NULL on `quantity`: the error
      handler's 400, after the header is written. */
  lemma LineWithoutQuantityIsConstraintError(books: map<int, Book>, id: int, price: int)
    requires id in books
    ensures var items := [RequestLine(Some(id), None, Some(price))];
      && FirstRejected(books, items).None?
      && FirstFailure(items, {}) == Some(0)
      && InsertFailure(items[0]) == ConstraintViolated()
  {
    var items := [RequestLine(Some(id), None, Some(price))];
    assert InStock(books, items[0]);
  }

  lemma DecrementedSnoc(books: map<int, Book>, lines: seq<Line>, x: Line)
    ensures Decremented(books, lines + [x]) == Decrement(Decremented(books, lines), x)
  {
    assert (lines + [x])[..|lines|] == lines;
  }

  lemma ItemRowsSnoc(orderId: int, lines: seq<Line>, x: Line)
    ensures ItemRows(orderId, lines + [x])
            == ItemRows(orderId, lines) + [OrderItem(orderId, x.bookId, x.quantity, x.price)]
  {
    assert (lines + [x])[..|lines|] == lines;
  }

  /** What one more line does to the rows, the stock and the first failure
      the loop has built. */
  lemma InsertLinesStep(rows: seq<OrderItem>, books: map<int, Book>, orderId: int, items: seq<RequestLine>, i: int,
                        failed: set<int>)
    requires 0 <= i < |items|
    ensures var done := Survivors(items[..i], failed);
      && rows + ItemRows(orderId, Survivors(items[..i + 1], failed))
         == rows + ItemRows(orderId, done)
            + (if Inserts(items[i], i, failed) then [OrderItem(orderId, items[i].bookId.value, items[i].quantity.value, items[i].price.value)] else [])
      && Decremented(books, Survivors(items[..i + 1], failed))
         == (if Inserts(items[i], i, failed) then Decrement(Decremented(books, done), Stored(items[i])) else Decremented(books, done))
      && FirstFailure(items[..i + 1], failed)
         == (if FirstFailure(items[..i], failed).Some? then FirstFailure(items[..i], failed)
             else if Inserts(items[i], i, failed) then None else Some(i))
  {
    var done := Survivors(items[..i], failed);
    assert items[..i + 1][..i] == items[..i];
    if Inserts(items[i], i, failed) {
      DecrementedSnoc(books, done, Stored(items[i]));
      ItemRowsSnoc(orderId, done, Stored(items[i]));
    } else {
      assert done + [] == done;
    }
  }

  /** The per-line part of `createOrder`: for each line in order, the item
      insert (unless it fails) and then the stock decrement. Reports the first
      line whose insert failed. */
  method InsertLines(db: Store, orderId: int, items: seq<RequestLine>, failed: set<int>) returns (failure: Option<nat>)
    modifies db`orderItems, db`books
    ensures db.orderItems == old(db.orderItems) + ItemRows(orderId, Survivors(items, failed))
    ensures db.books == Decremented(old(db.books), Survivors(items, failed))
    ensures failure == FirstFailure(items, failed)
  {
    failure := None;
    var i := 0;
    while i < |items|
      invariant 0 <= i <= |items|
      invariant db.orderItems == old(db.orderItems) + ItemRows(orderId, Survivors(items[..i], failed))
      invariant db.books == Decremented(old(db.books), Survivors(items[..i], failed))
      invariant failure == FirstFailure(items[..i], failed)
    {
      InsertLinesStep(old(db.orderItems), old(db.books), orderId, items, i, failed);
      var line := items[i];
      if i in failed || line.bookId.None? || line.quantity.None? || line.price.None? {
        if failure.None? {
          failure := Some(i);
        }
      } else {
        db.orderItems := db.orderItems + [OrderItem(orderId, line.bookId.value, line.quantity.value, line.price.value)];
        db.books := Decrement(db.books, Line(line.bookId.value, line.quantity.value, line.price.value));
      }
      i := i + 1;
    }
    assert items[..|items|] == items;
  }

  /** The stock query of `createOrder`, line by line in request order,
      stopping at the first line that fails. */
  method CheckStock(books: map<int, Book>, items: seq<RequestLine>) returns (rejected: Option<nat>)
    ensures rejected == FirstRejected(books, items)
  {
    var i := 0;
    while i < |items|
      invariant 0 <= i <= |items|
      invariant forall j :: 0 <= j < i ==> InStock(books, items[j])
    {
      if !InStock(books, items[i]) {
        return Some(i);
      }
      i := i + 1;
    }
    return None;
  }

  /** Appending the rows of a new order keeps every item pointing at an
      existing order. */
  lemma OrderIdsInRange(rows: seq<OrderItem>, orderId: int, lines: seq<Line>)
    requires 1 <= orderId
    requires forall i :: 0 <= i < |rows| ==> 1 <= rows[i].orderId < orderId
    ensures forall i :: 0 <= i < |rows + ItemRows(orderId, lines)| ==>
      1 <= (rows + ItemRows(orderId, lines))[i].orderId <= orderId
  {
    var all := rows + ItemRows(orderId, lines);
    forall i | 0 <= i < |all| ensures 1 <= all[i].orderId <= orderId {
      if i >= |rows| {
        assert all[i] == ItemRows(orderId, lines)[i - |rows|];
      }
    }
  }

  /** The reply once the header is written under `id`: success, or the error
      handler's reply to the first failed item insert. */
  function PlacedReply(items: seq<RequestLine>, failed: set<int>, id: int): Reply<int> {
    match FirstFailure(items, failed)
    case None => Ok(id)
    case Some(k) => InsertFailure(items[k])
  }

  /** The placed order succeeds exactly when every item insert does, and it
      is the constraint 400 exactly when the first failing line lacks a
      column. */
  lemma PlacedReplyCases(items: seq<RequestLine>, failed: set<int>, id: int)
    ensures PlacedReply(items, failed, id) == Ok(id) <==> forall i :: 0 <= i < |items| ==> Inserts(items[i], i, failed)
    ensures PlacedReply(items, failed, id) == ConstraintViolated() <==>
      exists k :: 0 <= k < |items| && !HasColumns(items[k]) && forall i :: 0 <= i < k ==> Inserts(items[i], i, failed)
  {
    var f := FirstFailure(items, failed);
    if f.Some? && !HasColumns(items[f.value]) {
      assert PlacedReply(items, failed, id) == ConstraintViolated();
    }
    if k :| 0 <= k < |items| && !HasColumns(items[k]) && forall i :: 0 <= i < k ==> Inserts(items[i], i, failed) {
      assert !Inserts(items[k], k, failed);
      assert f.Some? && f.value == k;
    }
  }

  /** The writes of `createOrder` once every line has passed the stock query:
      the header insert, then the item inserts and stock decrements. */
  method PlaceOrder(db: Store, header: Order, items: seq<RequestLine>, failed: set<int>) returns (r: Reply<int>)
    requires db.Valid()
    modifies db`orders, db`orderItems, db`books
    ensures db.Valid()
    ensures var id := |old(db.orders)| + 1;
      && db.orders == old(db.orders) + [header]
      && db.orderItems == old(db.orderItems) + ItemRows(id, Survivors(items, failed))
      && db.books == Decremented(old(db.books), Survivors(items, failed))
      && r == PlacedReply(items, failed, id)
  {
    db.orders := db.orders + [header];
    var orderId := |db.orders|;
    var failure := InsertLines(db, orderId, items, failed);
    DecrementedStock(old(db.books), Survivors(items, failed), 0);
    OrderIdsInRange(old(db.orderItems), orderId, Survivors(items, failed));
    r := if failure.None? then Ok(orderId)
         else if HasColumns(items[failure.value]) then ServerFailure() else ConstraintViolated();
  }

  /** `createOrder`. The steps run in request order: the stock query per line,
      the header insert, then per line the item insert followed by the stock
      decrement. Nothing runs in a transaction: a failed item insert leaves
      the header and the other lines in place. */
  method CreateOrder(db: Store, req: OrderRequest, faults: Faults) returns (r: Reply<int>)
    requires db.Valid()
    modifies db`orders, db`orderItems, db`books
    ensures db.Valid()
    ensures !IsComplete(req) ==> r == Err(400, IncompleteMessage) && unchanged(db)
    ensures IsComplete(req) && FirstRejected(old(db.books), req.items.value).Some? ==>
      && r == StockRejection(old(db.books), req.items.value[FirstRejected(old(db.books), req.items.value).value])
      && unchanged(db)
    ensures IsComplete(req) && FirstRejected(old(db.books), req.items.value).None? && faults.header ==>
      r == ServerFailure() && unchanged(db)
    ensures IsComplete(req) && FirstRejected(old(db.books), req.items.value).None? && !faults.header ==>
      var id := |old(db.orders)| + 1;
      var done := Survivors(req.items.value, faults.lines);
      && db.orders == old(db.orders) + [Order(req.userId.value, req.totalPrice.value, Pending)]
      && db.orderItems == old(db.orderItems) + ItemRows(id, done)
      && db.books == Decremented(old(db.books), done)
      && r == PlacedReply(req.items.value, faults.lines, id)
  {
    if !IsComplete(req) {
      return Err(400, IncompleteMessage);
    }
    var items := req.items.value;
    var rejected := CheckStock(db.books, items);
    if rejected.Some? {
      return StockRejection(db.books, items[rejected.value]);
    }
    if faults.header {
      return ServerFailure();
    }
    r := PlaceOrder(db, Order(req.userId.value, req.totalPrice.value, Pending), items, faults.lines);
  }

  // ---------------------------------------------------------------------------
  // Reading orders

  /** `SELECT * FROM order_items WHERE order_id = ?`, in row order. */
  function ItemsOfOrder(rows: seq<OrderItem>, orderId: int): seq<OrderItem> {
    if rows == [] then []
    else
      var n := |rows| - 1;
      ItemsOfOrder(rows[..n], orderId) + (if rows[n].orderId == orderId then [rows[n]] else [])
  }

  /** The selection holds exactly the rows that carry the order id. */
  lemma {:induction false} ItemsOfOrderMembers(rows: seq<OrderItem>, orderId: int)
    ensures forall x :: x in ItemsOfOrder(rows, orderId) <==> x in rows && x.orderId == orderId
  {
    if rows != [] {
      var n := |rows| - 1;
      assert rows == rows[..n] + [rows[n]];
      ItemsOfOrderMembers(rows[..n], orderId);
    }
  }

  /** Rows that all carry other ids select nothing. */
  lemma {:induction false} ItemsOfOrderNone(rows: seq<OrderItem>, orderId: int)
    requires forall i :: 0 <= i < |rows| ==> rows[i].orderId != orderId
    ensures ItemsOfOrder(rows, orderId) == []
  {
    if rows != [] {
      ItemsOfOrderNone(rows[..|rows| - 1], orderId);
    }
  }

  /** Selecting from appended rows selects from each part, in order. */
  lemma {:induction false} ItemsOfOrderAppend(a: seq<OrderItem>, b: seq<OrderItem>, orderId: int)
    ensures ItemsOfOrder(a + b, orderId) == ItemsOfOrder(a, orderId) + ItemsOfOrder(b, orderId)
  {
    if b == [] {
      assert a + b == a;
    } else {
      var n := |b| - 1;
      assert (a + b)[..|a + b| - 1] == a + b[..n];
      assert (a + b)[|a + b| - 1] == b[n];
      assert ItemsOfOrder(a + b, orderId)
             == ItemsOfOrder(a + b[..n], orderId) + (if b[n].orderId == orderId then [b[n]] else []);
      assert ItemsOfOrder(b, orderId)
             == ItemsOfOrder(b[..n], orderId) + (if b[n].orderId == orderId then [b[n]] else []);
      ItemsOfOrderAppend(a, b[..n], orderId);
    }
  }

  lemma {:induction false} ItemsOfOrderAll(rows: seq<OrderItem>, orderId: int)
    requires forall i :: 0 <= i < |rows| ==> rows[i].orderId == orderId
    ensures ItemsOfOrder(rows, orderId) == rows
  {
    if rows != [] {
      var n := |rows| - 1;
      ItemsOfOrderAll(rows[..n], orderId);
      assert rows[..n] + [rows[n]] == rows;
    }
  }

  /** Reading back a freshly created order gives exactly the rows its creation
      inserted, when no older row carries the new id. */
  lemma NewOrderReadsBack(rows: seq<OrderItem>, orderId: int, lines: seq<Line>)
    requires forall i :: 0 <= i < |rows| ==> rows[i].orderId < orderId
    ensures ItemsOfOrder(rows + ItemRows(orderId, lines), orderId) == ItemRows(orderId, lines)
  {
    ItemsOfOrderAppend(rows, ItemRows(orderId, lines), orderId);
    ItemsOfOrderNone(rows, orderId);
    ItemsOfOrderAll(ItemRows(orderId, lines), orderId);
  }

  datatype OrderDetail = OrderDetail(id: int, order: Order, items: seq<OrderItem>)

  /** `getOrderById`: the header and its items, or 404. */
  method GetOrderById(db: Store, orderId: int) returns (r: Reply<OrderDetail>)
    ensures !(1 <= orderId <= |db.orders|) ==> r == Err(404, "Orden no encontrada")
    ensures 1 <= orderId <= |db.orders| ==>
      r == Ok(OrderDetail(orderId, db.orders[orderId - 1], ItemsOfOrder(db.orderItems, orderId)))
  {
    if !(1 <= orderId <= |db.orders|) {
      return Err(404, "Orden no encontrada");
    }
    var items := ItemsOfOrder(db.orderItems, orderId);
    r := Ok(OrderDetail(orderId, db.orders[orderId - 1], items));
  }

  datatype OrderRecord = OrderRecord(id: int, order: Order)

  /** `SELECT * FROM orders WHERE user_id = ?`: exactly the user's orders, in
      ascending id order. */
  function OrdersOfUser(orders: seq<Order>, userId: int): (r: seq<OrderRecord>)
    ensures forall x :: x in r <==>
      1 <= x.id <= |orders| && orders[x.id - 1] == x.order && x.order.userId == userId
    ensures forall i, j :: 0 <= i < j < |r| ==> r[i].id < r[j].id
  {
    if orders == [] then []
    else
      var n := |orders| - 1;
      var front := OrdersOfUser(orders[..n], userId);
      assert forall x :: x in front ==> x.id <= n;
      front + (if orders[n].userId == userId then [OrderRecord(n + 1, orders[n])] else [])
  }

  /** `getOrdersByUser`. */
  method GetOrdersByUser(db: Store, userId: int) returns (r: seq<OrderRecord>)
    ensures r == OrdersOfUser(db.orders, userId)
  {
    r := OrdersOfUser(db.orders, userId);
  }

  // ---------------------------------------------------------------------------
  // Status changes

  /** `orders` with the status of order `id` set to `s`; unchanged when there
      is no such order. */
  function WithStatus(orders: seq<Order>, id: int, s: Status): (r: seq<Order>)
    ensures |r| == |orders|
    ensures forall k :: 0 <= k < |orders| && k != id - 1 ==> r[k] == orders[k]
    ensures 1 <= id <= |orders| ==> r[id - 1] == orders[id - 1].(status := s)
  {
    if 1 <= id <= |orders| then orders[id - 1 := orders[id - 1].(status := s)] else orders
  }

  /** Setting the same status twice is the same as setting it once. */
  lemma WithStatusIdempotent(orders: seq<Order>, id: int, s: Status)
    ensures WithStatus(WithStatus(orders, id, s), id, s) == WithStatus(orders, id, s)
  {
  }

  /** The row that `UPDATE ... WHERE id = ? AND status = 'pending'` changes exists. */
  predicate Cancelable(orders: seq<Order>, id: int) {
    1 <= id <= |orders| && orders[id - 1].status == Pending
  }

  /** Once canceled, an order cannot be canceled again. */
  lemma SecondCancelFails(orders: seq<Order>, id: int)
    requires Cancelable(orders, id)
    ensures !Cancelable(WithStatus(orders, id, Canceled), id)
  {
  }

  /** `cancelOrder`: succeeds exactly on a pending order, which becomes
      canceled; stock is not restored. */
  method CancelOrder(db: Store, orderId: int) returns (r: Reply<string>)
    requires db.Valid()
    modifies db`orders
    ensures db.Valid()
    ensures old(Cancelable(db.orders, orderId)) ==>
      r == Ok("Orden cancelada con éxito") && db.orders == WithStatus(old(db.orders), orderId, Canceled)
    ensures !old(Cancelable(db.orders, orderId)) ==>
      r == Err(400, "No se puede cancelar una orden ya procesada.") && db.orders == old(db.orders)
  {
    if Cancelable(db.orders, orderId) {
      db.orders := WithStatus(db.orders, orderId, Canceled);
      r := Ok("Orden cancelada con éxito");
    } else {
      r := Err(400, "No se puede cancelar una orden ya procesada.");
    }
  }

  /** `updateOrderStatus` (admin): any of the five statuses, from any status. */
  method UpdateOrderStatus(db: Store, orderId: int, status: Option<string>) returns (r: Reply<string>)
    requires db.Valid()
    modifies db`orders
    ensures db.Valid()
    ensures (status.None? || ParseStatus(status.value).None?) ==>
      r == Err(400, "Estado de orden inválido") && db.orders == old(db.orders)
    ensures status.Some? && ParseStatus(status.value).Some? && !(1 <= orderId <= old(|db.orders|)) ==>
      r == Err(404, "Orden no encontrada") && db.orders == old(db.orders)
    ensures status.Some? && ParseStatus(status.value).Some? && 1 <= orderId <= old(|db.orders|) ==>
      && r == Ok("Orden actualizada a estado: " + status.value)
      && db.orders == WithStatus(old(db.orders), orderId, ParseStatus(status.value).value)
  {
    if status.None? || ParseStatus(status.value).None? {
      return Err(400, "Estado de orden inválido");
    }
    if !(1 <= orderId <= |db.orders|) {
      return Err(404, "Orden no encontrada");
    }
    db.orders := WithStatus(db.orders, orderId, ParseStatus(status.value).value);
    r := Ok("Orden actualizada a estado: " + status.value);
  }
}
