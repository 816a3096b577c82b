/** cartController.js: one cart per user (looked up as the first `cart` row
    of the user), its `cart_items` rows, and the four cart handlers. */
module Carts {
  import opened Tables
  import opened Text

  // ---------------------------------------------------------------------------
  // Carts

  /** `SELECT * FROM cart WHERE user_id = ?`: the id of the user's first cart. */
  function FirstCart(carts: seq<Cart>, userId: int): (r: Option<int>)
    ensures r.None? <==> forall k :: 0 <= k < |carts| ==> carts[k].userId != userId
    ensures r.Some? ==> 1 <= r.value <= |carts| && carts[r.value - 1].userId == userId
    ensures r.Some? ==> forall k :: 0 <= k < r.value - 1 ==> carts[k].userId != userId
  {
    if carts == [] then None
    else if carts[0].userId == userId then Some(1)
    else match FirstCart(carts[1..], userId)
      case None => None
      case Some(id) => Some(id + 1)
  }

  /** A cart appended for a user without one becomes that user's cart. */
  lemma NewCartIsFirst(carts: seq<Cart>, extra: seq<Cart>, userId: int)
    requires FirstCart(carts, userId).None?
    requires extra != [] && extra[0].userId == userId
    ensures FirstCart(carts + extra, userId) == Some(|carts| + 1)
  {
    var all := carts + extra;
    assert all[|carts|] == extra[0];
    assert forall k :: 0 <= k < |carts| ==> all[k] == carts[k];
  }

  // ---------------------------------------------------------------------------
  // Cart items

  /** The row belongs to the cart and the book. */
  predicate Matches(item: CartItem, cartId: int, bookId: int) {
    item.cartId == cartId && item.bookId == bookId
  }

  /** `SELECT * FROM cart_items WHERE cart_id = ? AND book_id = ?`: the
      position of the first matching row. */
  function FindLine(items: seq<CartItem>, cartId: int, bookId: int): (r: Option<nat>)
    ensures r.None? <==> forall i :: 0 <= i < |items| ==> !Matches(items[i], cartId, bookId)
    ensures r.Some? ==> r.value < |items| && Matches(items[r.value], cartId, bookId)
    ensures r.Some? ==> forall i :: 0 <= i < r.value ==> !Matches(items[i], cartId, bookId)
  {
    if items == [] then None
    else if Matches(items[0], cartId, bookId) then Some(0)
    else match FindLine(items[1..], cartId, bookId)
      case None => None
      case Some(k) => Some(k + 1)
  }

  /** The total quantity of the book that the cart's rows hold. */
  function QuantityOf(items: seq<CartItem>, cartId: int, bookId: int): int {
    if items == [] then 0
    else
      var n := |items| - 1;
      QuantityOf(items[..n], cartId, bookId) + (if Matches(items[n], cartId, bookId) then items[n].quantity else 0)
  }

  lemma QuantityOfSnoc(items: seq<CartItem>, x: CartItem, cartId: int, bookId: int)
    ensures QuantityOf(items + [x], cartId, bookId)
            == QuantityOf(items, cartId, bookId) + (if Matches(x, cartId, bookId) then x.quantity else 0)
  {
    assert (items + [x])[..|items|] == items;
  }

  /** Changing the quantity of one row changes only the total of that row's
      cart and book, and by the difference. */
  lemma {:induction false} QuantityOfUpdate(items: seq<CartItem>, k: int, v: int, cartId: int, bookId: int)
    requires 0 <= k < |items|
    ensures QuantityOf(items[k := items[k].(quantity := v)], cartId, bookId)
            == QuantityOf(items, cartId, bookId)
               + (if Matches(items[k], cartId, bookId) then v - items[k].quantity else 0)
  {
    var n := |items| - 1;
    var updated := items[k := items[k].(quantity := v)];
    if k == n {
      assert updated[..n] == items[..n];
    } else {
      QuantityOfUpdate(items[..n], k, v, cartId, bookId);
      assert updated[..n] == items[..n][k := items[k].(quantity := v)];
    }
  }

  /** `addItemToCart` on the rows: raise the quantity of the existing row,
      or append a row with the next id. */
  function AddItem(items: seq<CartItem>, cartId: int, bookId: int, quantity: int, newId: int): seq<CartItem> {
    match FindLine(items, cartId, bookId)
    case Some(k) => items[k := items[k].(quantity := items[k].quantity + quantity)]
    case None => items + [CartItem(newId, cartId, bookId, quantity)]
  }

  /** Adding raises the cart's total of the book by the quantity and leaves
      every other cart and book as it was. */
  lemma AddItemQuantity(items: seq<CartItem>, cartId: int, bookId: int, quantity: int, newId: int, c: int, b: int)
    ensures QuantityOf(AddItem(items, cartId, bookId, quantity, newId), c, b)
            == QuantityOf(items, c, b) + (if c == cartId && b == bookId then quantity else 0)
  {
    match FindLine(items, cartId, bookId)
    case Some(k) =>
      QuantityOfUpdate(items, k, items[k].quantity + quantity, c, b);
    case None =>
      QuantityOfSnoc(items, CartItem(newId, cartId, bookId, quantity), c, b);
  }

  /** No two rows of a cart hold the same book. */
  predicate UniqueLines(items: seq<CartItem>) {
    forall i, j :: 0 <= i < j < |items| ==>
      !(items[i].cartId == items[j].cartId && items[i].bookId == items[j].bookId)
  }

  /** `addItemToCart` never creates a second row for a cart and a book. */
  lemma AddItemKeepsUnique(items: seq<CartItem>, cartId: int, bookId: int, quantity: int, newId: int)
    requires UniqueLines(items)
    ensures UniqueLines(AddItem(items, cartId, bookId, quantity, newId))
  {
    var r := AddItem(items, cartId, bookId, quantity, newId);
    if FindLine(items, cartId, bookId).None? {
      forall i, j | 0 <= i < j < |r|
        ensures !(r[i].cartId == r[j].cartId && r[i].bookId == r[j].bookId)
      {
        if j == |items| {
          assert !Matches(items[i], cartId, bookId);
        }
      }
    }
  }

  /** The row is deleted by `DELETE FROM cart_items WHERE cart_id = ?`, with
      `AND book_id = ?` when a book is given. */
  predicate Removed(item: CartItem, cartId: int, bookId: Option<int>) {
    item.cartId == cartId && (bookId.None? || item.bookId == bookId.value)
  }

  /** The rows that survive the delete, in their order. */
  function Delete(items: seq<CartItem>, cartId: int, bookId: Option<int>): seq<CartItem>
  {
    if items == [] then []
    else
      var n := |items| - 1;
      Delete(items[..n], cartId, bookId) + (if Removed(items[n], cartId, bookId) then [] else [items[n]])
  }

  /** The delete removes exactly the matching rows. */
  lemma {:induction false} DeleteMembers(items: seq<CartItem>, cartId: int, bookId: Option<int>)
    ensures forall x :: x in Delete(items, cartId, bookId) <==> x in items && !Removed(x, cartId, bookId)
    ensures |Delete(items, cartId, bookId)| <= |items|
  {
    if items != [] {
      var n := |items| - 1;
      DeleteMembers(items[..n], cartId, bookId);
      assert items == items[..n] + [items[n]];
    }
  }

  /** Some row matches the delete. */
  predicate AnyRemoved(items: seq<CartItem>, cartId: int, bookId: Option<int>) {
    exists i :: 0 <= i < |items| && Removed(items[i], cartId, bookId)
  }

  /** The delete shortens the rows exactly when some row matches it, and
      leaves them as they were otherwise. */
  lemma {:induction false} DeleteChangesNothing(items: seq<CartItem>, cartId: int, bookId: Option<int>)
    ensures |Delete(items, cartId, bookId)| <= |items|
    ensures AnyRemoved(items, cartId, bookId) ==> |Delete(items, cartId, bookId)| < |items|
    ensures !AnyRemoved(items, cartId, bookId) ==> Delete(items, cartId, bookId) == items
  {
    if items != [] {
      var n := |items| - 1;
      var front := items[..n];
      DeleteChangesNothing(front, cartId, bookId);
      if !Removed(items[n], cartId, bookId) {
        if AnyRemoved(items, cartId, bookId) {
          var k :| 0 <= k < |items| && Removed(items[k], cartId, bookId);
          assert front[k] == items[k];
        } else {
          assert front + [items[n]] == items;
        }
      }
    }
  }

  /** After the delete, the removed pairs hold nothing and every other cart
      and book keeps its total. */
  lemma {:induction false} DeleteQuantity(items: seq<CartItem>, cartId: int, bookId: Option<int>, c: int, b: int)
    ensures QuantityOf(Delete(items, cartId, bookId), c, b)
            == if Removed(CartItem(0, c, b, 0), cartId, bookId) then 0 else QuantityOf(items, c, b)
  {
    if items != [] {
      var n := |items| - 1;
      DeleteQuantity(items[..n], cartId, bookId, c, b);
      var front := Delete(items[..n], cartId, bookId);
      if Removed(items[n], cartId, bookId) {
        assert Delete(items, cartId, bookId) == front + [];
        assert front + [] == front;
      } else {
        QuantityOfSnoc(front, items[n], c, b);
      }
    }
  }

  /** A cart no row points at holds nothing. */
  lemma {:induction false} QuantityWithoutRows(items: seq<CartItem>, cartId: int, bookId: int)
    requires forall i :: 0 <= i < |items| ==> items[i].cartId != cartId
    ensures QuantityOf(items, cartId, bookId) == 0
  {
    if items != [] {
      QuantityWithoutRows(items[..|items| - 1], cartId, bookId);
    }
  }

  lemma {:induction false} DeleteKeepsAscending(items: seq<CartItem>, cartId: int, bookId: Option<int>)
    requires Ascending(items)
    ensures Ascending(Delete(items, cartId, bookId))
  {
    if items != [] {
      var n := |items| - 1;
      DeleteKeepsAscending(items[..n], cartId, bookId);
      DeleteMembers(items[..n], cartId, bookId);
      var front := Delete(items[..n], cartId, bookId);
      forall x | x in front ensures x.id < items[n].id {
        var k :| 0 <= k < n && items[..n][k] == x;
      }
    }
  }

  lemma DeleteKeepsInRange(items: seq<CartItem>, cartId: int, bookId: Option<int>, carts: int, next: int)
    requires RowsInRange(items, carts, next)
    ensures RowsInRange(Delete(items, cartId, bookId), carts, next)
  {
    var r := Delete(items, cartId, bookId);
    DeleteMembers(items, cartId, bookId);
    forall i | 0 <= i < |r| ensures 1 <= r[i].cartId <= carts && 0 < r[i].id < next {
      assert r[i] in items;
    }
  }

  lemma AddItemKeepsValid(items: seq<CartItem>, cartId: int, bookId: int, quantity: int, carts: int, next: int)
    requires RowsInRange(items, carts, next) && Ascending(items)
    requires 1 <= cartId <= carts && 0 < next
    ensures var r := AddItem(items, cartId, bookId, quantity, next);
      RowsInRange(r, carts, next + 1) && Ascending(r)
  {
    var r := AddItem(items, cartId, bookId, quantity, next);
    match FindLine(items, cartId, bookId)
    case Some(k) =>
      assert forall i :: 0 <= i < |r| ==> r[i].id == items[i].id && r[i].cartId == items[i].cartId;
    case None =>
      assert r == items + [CartItem(next, cartId, bookId, quantity)];
      assert forall i :: 0 <= i < |items| ==> r[i] == items[i];
  }

  // ---------------------------------------------------------------------------
  // getCart

  /** One element of the `items` reply of `getCart`: the join of the row with
      its book. */
  datatype CartLine = CartLine(id: int, bookId: int, title: string, quantity: int, price: int)

  datatype CartView = CartView(id: int, items: seq<CartLine>)

  /** The row joins `books` and belongs to the cart. */
  predicate Joins(item: CartItem, books: map<int, Book>, cartId: int) {
    item.cartId == cartId && item.bookId in books
  }

  function LineOf(item: CartItem, books: map<int, Book>): CartLine
    requires item.bookId in books
  {
    CartLine(item.id, item.bookId, books[item.bookId].title, item.quantity, books[item.bookId].price)
  }

  /** `SELECT ci.id, ci.book_id, b.title, ci.quantity, b.price FROM cart_items ci
      JOIN books b ON ci.book_id = b.id WHERE ci.cart_id = ?`, in row order:
      rows whose book no longer exists drop out of the inner join. */
  function JoinedLines(items: seq<CartItem>, books: map<int, Book>, cartId: int): (r: seq<CartLine>)
    ensures |r| <= |items|
    ensures forall i :: 0 <= i < |items| && Joins(items[i], books, cartId) ==> LineOf(items[i], books) in r
    ensures forall x :: x in r ==>
      exists i :: 0 <= i < |items| && Joins(items[i], books, cartId) && x == LineOf(items[i], books)
  {
    if items == [] then []
    else
      var n := |items| - 1;
      var front := JoinedLines(items[..n], books, cartId);
      assert forall i :: 0 <= i < n ==> items[..n][i] == items[i];
      front + (if Joins(items[n], books, cartId) then [LineOf(items[n], books)] else [])
  }

  /** A cart no row points at has no lines; in particular the empty `items`
      that `getCart` sends for a new cart is what the join would give. */
  lemma {:induction false} CartWithoutRowsIsEmpty(items: seq<CartItem>, books: map<int, Book>, cartId: int)
    requires forall i :: 0 <= i < |items| ==> items[i].cartId != cartId
    ensures JoinedLines(items, books, cartId) == []
  {
    if items != [] {
      var n := |items| - 1;
      CartWithoutRowsIsEmpty(items[..n], books, cartId);
    }
  }

  /** `getCart`: the user's first cart with its joined lines, or a new empty
      cart when the user has none. */
  method GetCart(db: Store, userId: int) returns (r: Reply<CartView>)
    requires db.Valid()
    modifies db`carts
    ensures db.Valid()
    ensures FirstCart(old(db.carts), userId).None? ==>
      db.carts == old(db.carts) + [Cart(userId)] && r == Ok(CartView(|db.carts|, []))
    ensures FirstCart(old(db.carts), userId).Some? ==>
      var id := FirstCart(old(db.carts), userId).value;
      db.carts == old(db.carts) && r == Ok(CartView(id, JoinedLines(db.cartItems, db.books, id)))
  {
    var cart := FirstCart(db.carts, userId);
    if cart.None? {
      db.carts := db.carts + [Cart(userId)];
      return Ok(CartView(|db.carts|, []));
    }
    var lines := JoinedLines(db.cartItems, db.books, cart.value);
    r := Ok(CartView(cart.value, lines));
  }

  // ---------------------------------------------------------------------------
  // addToCart

  /** The total quantity of the book in the cart the user's reads see (the
      first cart); zero without a cart. */
  function UserQuantity(carts: seq<Cart>, items: seq<CartItem>, userId: int, bookId: int): int {
    match FirstCart(carts, userId)
    case None => 0
    case Some(id) => QuantityOf(items, id, bookId)
  }

  /** The checks of `addToCart` before any write: body fields, the book's
      existence and its stock against the quantity of this request alone. */
  function AddRejection(books: map<int, Book>, bookId: Option<int>, quantity: Option<int>): (r: Option<Reply<string>>)
    ensures r.None? <==> Truthy(bookId) && Truthy(quantity) && quantity.value > 0
                         && bookId.value in books && books[bookId.value].stock >= quantity.value
  {
    if !Truthy(bookId) || !Truthy(quantity) || quantity.value <= 0 then
      Some(Err(400, "Cantidad inválida para agregar al carrito."))
    else if bookId.value !in books then
      Some(Err(404, "Libro no encontrado."))
    else if books[bookId.value].stock < quantity.value then
      Some(Err(400, "Stock insuficiente para el libro " + IntToString(bookId.value)))
    else None
  }

  /** The reply of `addItemToCart`. */
  function AddedMessage(items: seq<CartItem>, cartId: int, bookId: int): string {
    if FindLine(items, cartId, bookId).Some? then "Cantidad actualizada en el carrito."
    else "Libro agregado al carrito."
  }

  /** `addItemToCart`: update the quantity of the cart's row for the book, or
      insert a row. */
  method AddItemToCart(db: Store, cartId: int, bookId: int, quantity: int) returns (r: Reply<string>)
    requires db.Valid()
    requires 1 <= cartId <= |db.carts|
    modifies db`cartItems, db`nextCartItemId
    ensures db.Valid()
    ensures db.cartItems == AddItem(old(db.cartItems), cartId, bookId, quantity, old(db.nextCartItemId))
    ensures db.nextCartItemId == old(db.nextCartItemId) + (if |db.cartItems| == |old(db.cartItems)| then 0 else 1)
    ensures r == Ok(AddedMessage(old(db.cartItems), cartId, bookId))
  {
    var found := FindLine(db.cartItems, cartId, bookId);
    r := Ok(AddedMessage(db.cartItems, cartId, bookId));
    AddItemKeepsValid(db.cartItems, cartId, bookId, quantity, |db.carts|, db.nextCartItemId);
    if found.Some? {
      var k := found.value;
      db.cartItems := db.cartItems[k := db.cartItems[k].(quantity := db.cartItems[k].quantity + quantity)];
    } else {
      db.cartItems := db.cartItems + [CartItem(db.nextCartItemId, cartId, bookId, quantity)];
      db.nextCartItemId := db.nextCartItemId + 1;
    }
  }

  /** `addToCart` as written: a user without a cart gets TWO new carts, and
      the item goes into the second one. */
  method AddToCart(db: Store, userId: int, bookId: Option<int>, quantity: Option<int>) returns (r: Reply<string>)
    requires db.Valid()
    modifies db`carts, db`cartItems, db`nextCartItemId
    ensures db.Valid()
    ensures AddRejection(old(db.books), bookId, quantity).Some? ==>
      r == AddRejection(old(db.books), bookId, quantity).value && unchanged(db)
    ensures AddRejection(old(db.books), bookId, quantity).None? ==>
      var first := FirstCart(old(db.carts), userId);
      var cartId := if first.None? then |old(db.carts)| + 2 else first.value;
      && db.carts == old(db.carts) + (if first.None? then [Cart(userId), Cart(userId)] else [])
      && db.cartItems == AddItem(old(db.cartItems), cartId, bookId.value, quantity.value, old(db.nextCartItemId))
      && db.nextCartItemId == old(db.nextCartItemId) + (if |db.cartItems| == |old(db.cartItems)| then 0 else 1)
      && r == Ok(AddedMessage(old(db.cartItems), cartId, bookId.value))
  {
    var rejection := AddRejection(db.books, bookId, quantity);
    if rejection.Some? {
      return rejection.value;
    }
    var first := FirstCart(db.carts, userId);
    var cartId;
    if first.None? {
      db.carts := db.carts + [Cart(userId)];
      db.carts := db.carts + [Cart(userId)];
      cartId := |db.carts|;
    } else {
      cartId := first.value;
    }
    r := AddItemToCart(db, cartId, bookId.value, quantity.value);
  }

  /** For a user without a cart, `addToCart` as written puts the book in the
      second new cart, which no later read looks at: the user's cart (the
      first new one) stays empty, whatever the quantity added. */
  lemma DoubleCartLosesFirstAdd(carts: seq<Cart>, items: seq<CartItem>, userId: int,
                                bookId: int, quantity: int, next: int, b: int)
    requires FirstCart(carts, userId).None?
    requires forall i :: 0 <= i < |items| ==> items[i].cartId <= |carts|
    ensures UserQuantity(carts + [Cart(userId), Cart(userId)],
                         AddItem(items, |carts| + 2, bookId, quantity, next), userId, b) == 0
  {
    NewCartIsFirst(carts, [Cart(userId), Cart(userId)], userId);
    var added := AddItem(items, |carts| + 2, bookId, quantity, next);
    AddItemQuantity(items, |carts| + 2, bookId, quantity, next, |carts| + 1, b);
    QuantityWithoutRows(items, |carts| + 1, b);
  }

  /** With a single new cart for a user without one, the book lands in the
      cart every read of the user sees: its quantity rises by exactly the
      quantity added, and no other book changes. */
  lemma SingleCartKeepsAdd(carts: seq<Cart>, items: seq<CartItem>, userId: int,
                           bookId: int, quantity: int, next: int, b: int)
    requires forall i :: 0 <= i < |items| ==> items[i].cartId <= |carts|
    ensures var first := FirstCart(carts, userId);
      var carts' := if first.None? then carts + [Cart(userId)] else carts;
      var cartId := if first.None? then |carts| + 1 else first.value;
      UserQuantity(carts', AddItem(items, cartId, bookId, quantity, next), userId, b)
      == UserQuantity(carts, items, userId, b) + (if b == bookId then quantity else 0)
  {
    var first := FirstCart(carts, userId);
    if first.None? {
      NewCartIsFirst(carts, [Cart(userId)], userId);
      AddItemQuantity(items, |carts| + 1, bookId, quantity, next, |carts| + 1, b);
      QuantityWithoutRows(items, |carts| + 1, b);
    } else {
      AddItemQuantity(items, first.value, bookId, quantity, next, first.value, b);
    }
  }

  /** `addToCart` creating a single cart when the user has none. */
  method AddToCartSingleCart(db: Store, userId: int, bookId: Option<int>, quantity: Option<int>) returns (r: Reply<string>)
    requires db.Valid()
    modifies db`carts, db`cartItems, db`nextCartItemId
    ensures db.Valid()
    ensures AddRejection(old(db.books), bookId, quantity).Some? ==>
      r == AddRejection(old(db.books), bookId, quantity).value && unchanged(db)
    ensures AddRejection(old(db.books), bookId, quantity).None? ==>
      var first := FirstCart(old(db.carts), userId);
      var cartId := if first.None? then |old(db.carts)| + 1 else first.value;
      && db.carts == old(db.carts) + (if first.None? then [Cart(userId)] else [])
      && db.cartItems == AddItem(old(db.cartItems), cartId, bookId.value, quantity.value, old(db.nextCartItemId))
      && db.nextCartItemId == old(db.nextCartItemId) + (if |db.cartItems| == |old(db.cartItems)| then 0 else 1)
      && r == Ok(AddedMessage(old(db.cartItems), cartId, bookId.value))
  {
    var rejection := AddRejection(db.books, bookId, quantity);
    if rejection.Some? {
      return rejection.value;
    }
    var first := FirstCart(db.carts, userId);
    var cartId;
    if first.None? {
      db.carts := db.carts + [Cart(userId)];
      cartId := |db.carts|;
    } else {
      cartId := first.value;
    }
    r := AddItemToCart(db, cartId, bookId.value, quantity.value);
  }

  // ---------------------------------------------------------------------------
  // removeFromCart and clearCart

  /** `DELETE FROM cart_items WHERE ...`, reporting `this.changes`. */
  method DeleteRows(db: Store, cartId: int, bookId: Option<int>) returns (changes: int)
    requires db.Valid()
    modifies db`cartItems
    ensures db.Valid()
    ensures db.cartItems == Delete(old(db.cartItems), cartId, bookId)
    ensures changes == 0 <==> !AnyRemoved(old(db.cartItems), cartId, bookId)
  {
    var before := db.cartItems;
    DeleteMembers(before, cartId, bookId);
    DeleteChangesNothing(before, cartId, bookId);
    DeleteKeepsAscending(before, cartId, bookId);
    DeleteKeepsInRange(before, cartId, bookId, |db.carts|, db.nextCartItemId);
    db.cartItems := Delete(before, cartId, bookId);
    changes := |before| - |db.cartItems|;
  }

  /** `removeFromCart`: delete the cart's rows for the book; 404 when none
      existed. */
  method RemoveFromCart(db: Store, userId: int, bookId: Option<int>) returns (r: Reply<string>)
    requires db.Valid()
    modifies db`cartItems
    ensures db.Valid()
    ensures !Truthy(bookId) ==> r == Err(400, "Faltan datos para eliminar del carrito.") && unchanged(db)
    ensures Truthy(bookId) && FirstCart(db.carts, userId).None? ==>
      r == Err(404, "Carrito no encontrado.") && unchanged(db)
    ensures Truthy(bookId) && FirstCart(db.carts, userId).Some? ==>
      var id := FirstCart(db.carts, userId).value;
      && db.cartItems == Delete(old(db.cartItems), id, bookId)
      && r == (if AnyRemoved(old(db.cartItems), id, bookId) then Ok("Libro eliminado del carrito")
               else Err(404, "Libro no encontrado en el carrito."))
  {
    if !Truthy(bookId) {
      return Err(400, "Faltan datos para eliminar del carrito.");
    }
    var cart := FirstCart(db.carts, userId);
    if cart.None? {
      return Err(404, "Carrito no encontrado.");
    }
    var changes := DeleteRows(db, cart.value, bookId);
    if changes == 0 {
      return Err(404, "Libro no encontrado en el carrito.");
    }
    r := Ok("Libro eliminado del carrito");
  }

  /** `clearCart`: delete every row of the user's cart. */
  method ClearCart(db: Store, userId: int) returns (r: Reply<string>)
    requires db.Valid()
    modifies db`cartItems
    ensures db.Valid()
    ensures FirstCart(db.carts, userId).None? ==> r == Err(404, "Carrito no encontrado") && unchanged(db)
    ensures FirstCart(db.carts, userId).Some? ==>
      db.cartItems == Delete(old(db.cartItems), FirstCart(db.carts, userId).value, None)
      && r == Ok("Carrito vaciado con éxito.")
  {
    var cart := FirstCart(db.carts, userId);
    if cart.None? {
      return Err(404, "Carrito no encontrado");
    }
    var _ := DeleteRows(db, cart.value, None);
    r := Ok("Carrito vaciado con éxito.");
  }

  /** A cleared cart holds nothing, and every other cart keeps its contents. */
  lemma ClearedCartIsEmpty(items: seq<CartItem>, books: map<int, Book>, cartId: int, c: int, b: int)
    ensures JoinedLines(Delete(items, cartId, None), books, cartId) == []
    ensures c != cartId ==> QuantityOf(Delete(items, cartId, None), c, b) == QuantityOf(items, c, b)
  {
    DeleteQuantity(items, cartId, None, c, b);
    var rest := Delete(items, cartId, None);
    DeleteMembers(items, cartId, None);
    assert forall i :: 0 <= i < |rest| ==> rest[i] in rest;
    CartWithoutRowsIsEmpty(rest, books, cartId);
  }
}
