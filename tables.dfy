/** The SQLite tables of the bookstore backend (the normalized schema that
    `resetDatabase` creates) held in memory, and the reply shape every handler
    returns. */
module Tables {

  datatype Option<T> = None | Some(value: T)

  /** An HTTP reply: a JSON body, or an error status with the message the
      controller sends. */
  datatype Reply<T> = Ok(value: T) | Err(status: int, error: string)

  /** The error handler's reply to a storage error passed to `next(err)`:
      a violated constraint (UNIQUE, NOT NULL) is a 400, anything else a 500. */
  const ConstraintMessage: string := "Error en la base de datos: Restricción de clave única violada."
  const ServerMessage: string := "Ocurrió un error en el servidor. Inténtalo más tarde."

  function ConstraintViolated<T>(): Reply<T> { Err(400, ConstraintMessage) }
  function ServerFailure<T>(): Reply<T> { Err(500, ServerMessage) }

  /** JavaScript truthiness of a numeric body field: present and not 0. */
  predicate Truthy(x: Option<int>) { x.Some? && x.value != 0 }

  /** JavaScript truthiness of a text body field: present and not empty. */
  predicate Present(x: Option<string>) { x.Some? && x.value != "" }

  /** The values admitted by the CHECK constraint on `orders.status`. */
  datatype Status = Pending | Paid | Shipped | Delivered | Canceled

  function StatusName(s: Status): string {
    match s
    case Pending => "pending"
    case Paid => "paid"
    case Shipped => "shipped"
    case Delivered => "delivered"
    case Canceled => "canceled"
  }

  /** The status a request names, when it is one of the five admitted values. */
  function ParseStatus(name: string): (r: Option<Status>)
    ensures r.Some? ==> StatusName(r.value) == name
    ensures r.None? ==> forall s: Status :: StatusName(s) != name
  {
    if name == "pending" then Some(Pending)
    else if name == "paid" then Some(Paid)
    else if name == "shipped" then Some(Shipped)
    else if name == "delivered" then Some(Delivered)
    else if name == "canceled" then Some(Canceled)
    else None
  }

  datatype Role = Client | Admin

  /** The outcome of the Cloudinary upload of a request's file: no file was
      attached, the upload gave this secure URL, or it threw. */
  datatype Upload = NoFile | Uploaded(secureUrl: string) | UploadFailed

  /** A `books` row; prices are integers (cents). */
  datatype Book = Book(title: string, isbn: string, price: int, publisherId: int,
                       publicationYear: Option<int>, stock: int, description: Option<string>,
                       pages: Option<int>, imageUrl: Option<string>)

  datatype Order = Order(userId: int, totalPrice: int, status: Status)

  datatype OrderItem = OrderItem(orderId: int, bookId: int, quantity: int, price: int)

  datatype Cart = Cart(userId: int)

  datatype CartItem = CartItem(id: int, cartId: int, bookId: int, quantity: int)

  datatype User = User(username: string, email: string, password: string,
                       phone: Option<string>, address: Option<string>,
                       profileImage: Option<string>, role: Role)

  /** The UNIQUE constraints on `users.username` and `users.email`. */
  predicate UniqueAccounts(users: seq<User>) {
    forall i, j :: 0 <= i < j < |users| ==>
      users[i].username != users[j].username && users[i].email != users[j].email
  }

  /** Every book id was handed out: it is positive and below the next id. */
  predicate BookIdsBelow(books: map<int, Book>, nextBookId: int) {
    0 < nextBookId && forall id :: id in books ==> 0 < id < nextBookId
  }

  /** Every `order_items` row names one of the `orders` rows 1..orders. */
  predicate ItemsInOrders(items: seq<OrderItem>, orders: int) {
    forall i :: 0 <= i < |items| ==> 1 <= items[i].orderId <= orders
  }

  /** Every `cart_items` row names one of the carts 1..carts and has an id
      that was handed out (below `next`). */
  predicate RowsInRange(items: seq<CartItem>, carts: int, next: int) {
    forall i :: 0 <= i < |items| ==> 1 <= items[i].cartId <= carts && 0 < items[i].id < next
  }

  /** `cart_items` in row-id order. */
  predicate Ascending(items: seq<CartItem>) {
    forall i, j :: 0 <= i < j < |items| ==> items[i].id < items[j].id
  }

  /** A `book_authors` or `book_categories` row. */
  datatype Link = Link(bookId: int, targetId: int)

  /** The database. Tables that the core only appends to are sequences whose
      row id is the position plus one (AUTOINCREMENT from 1); `books` and
      `cart_items`, whose rows can be deleted, keep explicit ids and the next
      id to hand out. */
  class Store {
    var books: map<int, Book>
    var nextBookId: int
    var orders: seq<Order>
    var orderItems: seq<OrderItem>
    var carts: seq<Cart>
    var cartItems: seq<CartItem>
    var nextCartItemId: int
    var users: seq<User>
    var authors: seq<string>
    var categories: seq<string>
    var publishers: seq<string>
    var bookAuthors: seq<Link>
    var bookCategories: seq<Link>

    /** Book ids are below the next id, order items and cart items point at
        existing orders and carts, cart-item ids ascend below the next id,
        and no two users share a username or an email. */
    ghost predicate Valid()
      reads this`books, this`nextBookId, this`orders, this`orderItems, this`carts,
            this`cartItems, this`nextCartItemId, this`users
    {
      && BookIdsBelow(books, nextBookId)
      && ItemsInOrders(orderItems, |orders|)
      && 0 < nextCartItemId && RowsInRange(cartItems, |carts|, nextCartItemId) && Ascending(cartItems)
      && UniqueAccounts(users)
    }

    /** A freshly created, empty database. */
    constructor ()
      ensures Valid()
      ensures books == map[] && nextBookId == 1 && nextCartItemId == 1
      ensures orders == [] && orderItems == [] && carts == [] && cartItems == [] && users == []
      ensures authors == [] && categories == [] && publishers == []
      ensures bookAuthors == [] && bookCategories == []
    {
      books, nextBookId := map[], 1;
      orders, orderItems := [], [];
      carts, cartItems, nextCartItemId := [], [], 1;
      users := [];
      authors, categories, publishers := [], [], [];
      bookAuthors, bookCategories := [], [];
    }
  }
}
