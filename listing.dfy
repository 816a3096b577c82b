/** booksController.js, the read side: the SQL text and parameter list that
    `getBooks` builds from the query string, and the per-book grouping of
    author and category rows in `getAllBooks`. Queries are sequences of SQL
    fragments and `?` placeholders; executing them is not modelled. */
module BookListing {
  import opened Tables
  import opened Text

  // ---------------------------------------------------------------------------
  // Query text with placeholders

  /** The fixed pieces of SQL text the handler concatenates. */
  datatype Fragment =
    | SelectBooks | CountBooks
    | CategoryIn | ListComma | CloseThree
    | AuthorLike | AuthorIn | PublisherLike | PublisherIn | TitleLike | CloseOne | CloseTwo
    | PriceAtLeast | PriceAtMost
    | GroupOrder(sort: Option<string>) | LimitWord | OffsetWord

  function FragmentText(f: Fragment): string {
    match f
    case SelectBooks =>
      "SELECT books.*, publishers.name AS publisher, "
      + "COALESCE(GROUP_CONCAT(DISTINCT authors.name), '') AS authors, "
      + "COALESCE(GROUP_CONCAT(DISTINCT categories.name), '') AS categories FROM books "
      + "LEFT JOIN publishers ON books.publisher_id = publishers.id "
      + "LEFT JOIN book_authors ON books.id = book_authors.book_id "
      + "LEFT JOIN authors ON book_authors.author_id = authors.id "
      + "LEFT JOIN book_categories ON books.id = book_categories.book_id "
      + "LEFT JOIN categories ON book_categories.category_id = categories.id WHERE 1=1"
    case CountBooks => "SELECT COUNT(DISTINCT books.id) as total FROM books WHERE 1=1"
    case CategoryIn =>
      " AND books.id IN (SELECT book_id FROM book_categories WHERE category_id IN "
      + "(SELECT id FROM categories WHERE LOWER(name) IN ("
    case ListComma => ", "
    case CloseThree => ")))"
    case AuthorLike => " AND LOWER(authors.name) LIKE LOWER("
    case AuthorIn =>
      " AND books.id IN (SELECT book_id FROM book_authors WHERE author_id IN "
      + "(SELECT id FROM authors WHERE LOWER(name) LIKE LOWER("
    case PublisherLike => " AND LOWER(publishers.name) LIKE LOWER("
    case PublisherIn => " AND books.publisher_id IN (SELECT id FROM publishers WHERE LOWER(name) LIKE LOWER("
    case TitleLike => " AND LOWER(books.title) LIKE LOWER("
    case CloseOne => ")"
    case CloseTwo => "))"
    case PriceAtLeast => " AND books.price >= "
    case PriceAtMost => " AND books.price <= "
    case GroupOrder(sort) => " GROUP BY books.id ORDER BY " + SortClause(sort)
    case LimitWord => " LIMIT "
    case OffsetWord => " OFFSET "
  }

  /** A fragment of SQL text, or one `?` placeholder. */
  datatype Piece = Sql(fragment: Fragment) | Hole

  /** The SQL text of one piece. */
  function PieceText(p: Piece): string {
    if p.Hole? then "?" else FragmentText(p.fragment)
  }

  /** The SQL text a query stands for. */
  function Render(q: seq<Piece>): string
    decreases |q|
  {
    if q == [] then "" else Render(q[..|q| - 1]) + PieceText(q[|q| - 1])
  }

  /** The number of `?` placeholders in a query. */
  function Holes(q: seq<Piece>): nat {
    multiset(q)[Hole]
  }

  /** The number of `?` characters in a text. */
  function Marks(s: string): nat {
    multiset(s)['?']
  }

  /** No SQL fragment of the query holds a `?` in its text. */
  predicate MarkFreeText(q: seq<Piece>) {
    forall i :: 0 <= i < |q| ==> q[i].Hole? || '?' !in PieceText(q[i])
  }

  /** A placeholder is one `?`; a fragment without one in its text has none. */
  lemma PieceMarks(p: Piece)
    requires p.Hole? || '?' !in PieceText(p)
    ensures Marks(PieceText(p)) == if p.Hole? then 1 else 0
  {
    if p.Hole? {
      assert PieceText(p) == ['?'];
    }
  }

  lemma SplitLast(q: seq<Piece>)
    requires q != []
    ensures multiset(q) == multiset(q[..|q| - 1]) + multiset([q[|q| - 1]])
  {
    assert q == q[..|q| - 1] + [q[|q| - 1]];
  }

  /** When no fragment text holds a `?`, the text of a query holds one `?`
      per placeholder and no other. */
  lemma {:induction false} RenderMarks(q: seq<Piece>)
    requires MarkFreeText(q)
    ensures Marks(Render(q)) == Holes(q)
    decreases |q|
  {
    if q != [] {
      var n := |q| - 1;
      assert MarkFreeText(q[..n]) by {
        forall i | 0 <= i < n ensures q[..n][i].Hole? || '?' !in PieceText(q[..n][i]) {
          assert q[..n][i] == q[i];
        }
      }
      RenderMarks(q[..n]);
      PieceMarks(q[n]);
      assert multiset(Render(q)) == multiset(Render(q[..n])) + multiset(PieceText(q[n]));
      SplitLast(q);
    }
  }

  /** `list.map(() => "?").join(", ")`: `n` placeholders separated by commas. */
  function Placeholders(n: nat): (r: seq<Piece>)
    ensures Holes(r) == n
  {
    if n == 0 then []
    else if n == 1 then [Hole]
    else
      Placeholders(n - 1) + [Sql(ListComma), Hole]
  }

  /** A value bound to a placeholder: a string, a number, or `Number(text)`
      of a query-string value. */
  datatype Param = Str(s: string) | Num(n: int) | NumberOf(text: string)

  // ---------------------------------------------------------------------------
  // getBooks

  /** A query-string field that may repeat: absent, given once, or given
      several times (an array). */
  datatype QueryList = Absent | Single(value: string) | Repeated(values: seq<string>)

  /** JavaScript truthiness: an array always, a string when not empty. */
  predicate Given(c: QueryList) {
    c.Repeated? || (c.Single? && c.value != "")
  }

  /** `Array.isArray(c) ? c : [c]`. */
  function ValuesOf(c: QueryList): seq<string>
    requires Given(c)
  {
    if c.Repeated? then c.values else [c.value]
  }

  /** The query string of `getBooks`. `page` and `limit` are absent or carry
      the number their text denotes. */
  datatype BooksRequest = BooksRequest(page: Option<int>, limit: Option<int>, category: QueryList,
                                       author: Option<string>, publisher: Option<string>,
                                       minPrice: Option<string>, maxPrice: Option<string>,
                                       title: Option<string>, sort: Option<string>)

  /** The destructuring defaults `page = 1`, `limit = 9`. */
  function Page(q: BooksRequest): int { if q.page.None? then 1 else q.page.value }
  function Limit(q: BooksRequest): int { if q.limit.None? then 9 else q.limit.value }

  function Offset(q: BooksRequest): int { (Page(q) - 1) * Limit(q) }

  /** The category filter, the same in both queries, for `n` categories. */
  function CategoryFilter(n: nat): (r: seq<Piece>)
    ensures Holes(r) == n
  {
    [Sql(CategoryIn)] + Placeholders(n) + [Sql(CloseThree)]
  }

  /** A filter with one placeholder after the text `open`, followed by `close`. */
  function Around(open: Fragment, close: seq<Piece>): (r: seq<Piece>)
    requires Holes(close) == 0
    ensures Holes(r) == 1
  {
    [Sql(open), Hole] + close
  }

  const AuthorFilter: seq<Piece> := Around(AuthorLike, [Sql(CloseOne)])
  const AuthorCountFilter: seq<Piece> := Around(AuthorIn, [Sql(CloseThree)])
  const PublisherFilter: seq<Piece> := Around(PublisherLike, [Sql(CloseOne)])
  const PublisherCountFilter: seq<Piece> := Around(PublisherIn, [Sql(CloseTwo)])
  const TitleFilter: seq<Piece> := Around(TitleLike, [Sql(CloseOne)])
  const MinPriceFilter: seq<Piece> := Around(PriceAtLeast, [])
  const MaxPriceFilter: seq<Piece> := Around(PriceAtMost, [])

  /** `%x%`: the LIKE pattern for a substring. */
  function Like(x: string): Param { Str("%" + x + "%") }

  /** `categoryList.map((c) => c.toLowerCase())`. */
  function CategoryParams(values: seq<string>): (r: seq<Param>)
    ensures |r| == |values|
    decreases |values|
  {
    if values == [] then [] else CategoryParams(values[..|values| - 1]) + [Str(ToLower(values[|values| - 1]))]
  }

  /** The category filter when the query names categories. */
  function CategoryClause(c: QueryList): (r: seq<Piece>)
    ensures Holes(r) == |CategoryValues(c)|
  {
    if Given(c) then CategoryFilter(|ValuesOf(c)|) else []
  }

  function CategoryValues(c: QueryList): seq<Param> {
    if Given(c) then CategoryParams(ValuesOf(c)) else []
  }

  /** A one-placeholder filter when the query field is truthy. */
  function Clause(x: Option<string>, filter: seq<Piece>): (r: seq<Piece>)
    requires Holes(filter) == 1
    ensures Holes(r) == if Present(x) then 1 else 0
  {
    if Present(x) then filter else []
  }

  /** The value a one-placeholder filter binds when the query field is truthy. */
  function Bound(x: Option<string>, value: string -> Param): (r: seq<Param>)
    ensures |r| == if Present(x) then 1 else 0
  {
    if Present(x) then [value(x.value)] else []
  }

  /** `Number(x)`. */
  function NumberParam(x: string): Param { NumberOf(x) }

  /** The values the filters bind, in the order the handler tries them. */
  function FilterParams(q: BooksRequest): seq<Param> {
    CategoryValues(q.category) + Bound(q.author, Like) + Bound(q.publisher, Like)
    + Bound(q.title, Like) + Bound(q.minPrice, NumberParam) + Bound(q.maxPrice, NumberParam)
  }

  const Paging: seq<Piece> := Around(LimitWord, []) + Around(OffsetWord, [])

  /** `start` followed by every filter the request asks for; the two queries
      differ in their author and publisher filters. */
  function Filtered(start: Fragment, q: BooksRequest, authorFilter: seq<Piece>, publisherFilter: seq<Piece>): seq<Piece>
    requires Holes(authorFilter) == 1 && Holes(publisherFilter) == 1
  {
    [Sql(start)] + CategoryClause(q.category)
    + Clause(q.author, authorFilter) + Clause(q.publisher, publisherFilter)
    + Clause(q.title, TitleFilter) + Clause(q.minPrice, MinPriceFilter) + Clause(q.maxPrice, MaxPriceFilter)
  }

  /** The book query: the filters with joins, then the grouping, the sort
      order and the page. */
  function BookQuery(q: BooksRequest): seq<Piece> {
    Filtered(SelectBooks, q, AuthorFilter, PublisherFilter) + [Sql(GroupOrder(q.sort))] + Paging
  }

  /** The count query: the same filters, with subqueries for authors and
      publishers since it has no joins. */
  function CountQuery(q: BooksRequest): seq<Piece> {
    Filtered(CountBooks, q, AuthorCountFilter, PublisherCountFilter)
  }

  /** Whichever filters a request asks for, their placeholders match the
      values bound to them one for one. */
  lemma FiltersInLockstep(start: Fragment, q: BooksRequest, authorFilter: seq<Piece>, publisherFilter: seq<Piece>)
    requires Holes(authorFilter) == 1 && Holes(publisherFilter) == 1
    ensures Holes(Filtered(start, q, authorFilter, publisherFilter)) == |FilterParams(q)|
  {
  }

  /** The book query has one placeholder per filter value and two more, for
      the limit and the offset; the count query has one per filter value. */
  lemma QueriesInLockstep(q: BooksRequest)
    ensures Holes(BookQuery(q)) == |FilterParams(q)| + 2
    ensures Holes(CountQuery(q)) == |FilterParams(q)|
  {
    FiltersInLockstep(SelectBooks, q, AuthorFilter, PublisherFilter);
    FiltersInLockstep(CountBooks, q, AuthorCountFilter, PublisherCountFilter);
  }

  /** The same about the SQL text sent to SQLite: when no fragment text holds
      a `?`, its `?` characters match the parameters one for one. */
  lemma RenderedQueriesInLockstep(q: BooksRequest)
    requires MarkFreeText(BookQuery(q)) && MarkFreeText(CountQuery(q))
    ensures Marks(Render(BookQuery(q))) == |FilterParams(q)| + 2
    ensures Marks(Render(CountQuery(q))) == |FilterParams(q)|
  {
    QueriesInLockstep(q);
    RenderMarks(BookQuery(q));
    RenderMarks(CountQuery(q));
  }

  /** Every category value is bound lower-cased. */
  lemma {:induction false} CategoryParamsLowercase(values: seq<string>)
    ensures forall i :: 0 <= i < |values| ==> CategoryParams(values)[i] == Str(ToLower(values[i]))
    ensures forall i :: 0 <= i < |values| ==>
      forall j :: 0 <= j < |ToLower(values[i])| ==> !IsUpperAscii(ToLower(values[i])[j])
    decreases |values|
  {
    if values != [] {
      CategoryParamsLowercase(values[..|values| - 1]);
      forall i | 0 <= i < |values| ensures CategoryParams(values)[i] == Str(ToLower(values[i])) {
        if i < |values| - 1 {
          assert CategoryParams(values)[i] == CategoryParams(values[..|values| - 1])[i];
        }
      }
      forall i | 0 <= i < |values| ensures forall j :: 0 <= j < |ToLower(values[i])| ==> !IsUpperAscii(ToLower(values[i])[j]) {
        ToLowerChars(values[i]);
      }
    }
  }

  /** `sortOptions[sort] || sortOptions["default"]`. */
  function SortClause(sort: Option<string>): string {
    var key := if sort.None? then "default" else sort.value;
    if key == "title-asc" then "books.title ASC"
    else if key == "title-desc" then "books.title DESC"
    else if key == "price-asc" then "books.price ASC"
    else if key == "price-desc" then "books.price DESC"
    else "books.title ASC"
  }

  /** Each of the four sort keys picks its column and direction; any other
      key, and no key at all, sorts by title ascending. */
  lemma SortClauseChoices(sort: Option<string>)
    ensures sort == Some("title-desc") <==> SortClause(sort) == "books.title DESC"
    ensures sort == Some("price-asc") <==> SortClause(sort) == "books.price ASC"
    ensures sort == Some("price-desc") <==> SortClause(sort) == "books.price DESC"
    ensures sort !in {Some("title-desc"), Some("price-asc"), Some("price-desc")} <==>
      SortClause(sort) == "books.title ASC"
  {
  }

  /** The query part of `getBooks`: both queries built clause by clause, each
      clause's values pushed right after it. */
  method BuildBooksQuery(q: BooksRequest) returns (base: seq<Piece>, count: seq<Piece>,
                                                  params: seq<Param>, countParams: seq<Param>)
    ensures base == BookQuery(q) && count == CountQuery(q)
    ensures countParams == FilterParams(q)
    ensures params == FilterParams(q) + [Num(Limit(q)), Num(Offset(q))]
    ensures Holes(base) == |params| && Holes(count) == |countParams|
  {
    var offset := Offset(q);
    params, countParams := [], [];
    base := [Sql(SelectBooks)];
    count := [Sql(CountBooks)];
    var categoryFilter, categoryValues := CategoryPart(q.category);
    base, count := base + categoryFilter, count + categoryFilter;
    params, countParams := params + categoryValues, countParams + categoryValues;
    assert params == countParams == CategoryValues(q.category);
    base, count, params, countParams := AddFilter(q.author, AuthorFilter, AuthorCountFilter, Like, base, count, params, countParams);
    base, count, params, countParams := AddFilter(q.publisher, PublisherFilter, PublisherCountFilter, Like, base, count, params, countParams);
    base, count, params, countParams := AddFilter(q.title, TitleFilter, TitleFilter, Like, base, count, params, countParams);
    base, count, params, countParams := AddFilter(q.minPrice, MinPriceFilter, MinPriceFilter, NumberParam, base, count, params, countParams);
    base, count, params, countParams := AddFilter(q.maxPrice, MaxPriceFilter, MaxPriceFilter, NumberParam, base, count, params, countParams);
    base := base + [Sql(GroupOrder(q.sort))];
    base := base + Paging;
    params := params + [Num(Limit(q)), Num(offset)];
    QueriesInLockstep(q);
  }

  /** The category filter of `getBooks`: one placeholder per requested
      category, each bound to the category lower-cased. */
  method CategoryPart(c: QueryList) returns (filter: seq<Piece>, values: seq<Param>)
    ensures filter == CategoryClause(c) && values == CategoryValues(c)
  {
    filter, values := [], [];
    if Given(c) {
      var categoryList := ValuesOf(c);
      filter := CategoryFilter(|categoryList|);
      var i := 0;
      while i < |categoryList|
        invariant 0 <= i <= |categoryList|
        invariant values == CategoryParams(categoryList[..i])
      {
        assert categoryList[..i + 1][..i] == categoryList[..i];
        assert CategoryParams(categoryList[..i + 1]) == values + [Str(ToLower(categoryList[i]))];
        values := values + [Str(ToLower(categoryList[i]))];
        i := i + 1;
      }
      assert categoryList[..i] == categoryList;
    }
  }

  /** One text filter of `getBooks`: when the query field is truthy, its
      clause goes on both queries and its value on both parameter lists. */
  method AddFilter(x: Option<string>, filter: seq<Piece>, countFilter: seq<Piece>, value: string -> Param,
                   base: seq<Piece>, count: seq<Piece>, params: seq<Param>, countParams: seq<Param>)
    returns (base': seq<Piece>, count': seq<Piece>, params': seq<Param>, countParams': seq<Param>)
    requires Holes(filter) == 1 && Holes(countFilter) == 1
    ensures base' == base + Clause(x, filter) && count' == count + Clause(x, countFilter)
    ensures params' == params + Bound(x, value) && countParams' == countParams + Bound(x, value)
  {
    base', count', params', countParams' := base, count, params, countParams;
    if Present(x) {
      base' := base' + filter;
      count' := count' + countFilter;
      params' := params' + [value(x.value)];
      countParams' := countParams' + [value(x.value)];
    }
  }

  /** Without `page` and `limit` the first nine books are asked for. */
  lemma DefaultPaging(q: BooksRequest)
    requires q.page.None? && q.limit.None?
    ensures Offset(q) == 0 && Limit(q) == 9
  {
  }

  // ---------------------------------------------------------------------------
  // The book objects both handlers send

  /** A row of `books.*` joined with its publisher's name. */
  datatype BookRow = BookRow(id: int, book: Book, publisher: Option<string>, rating: Option<real>)

  /** The JSON object a listing sends for one book; `publisher_id` and
      `publication_year` are not copied. */
  datatype Listing = Listing(id: int, title: string, publisher: Option<string>, isbn: string, price: int,
                             stock: int, description: Option<string>, pages: Option<int>,
                             imageUrl: Option<string>, rating: Option<real>,
                             authors: seq<string>, categories: seq<string>)

  function ListingOf(row: BookRow, authors: seq<string>, categories: seq<string>): Listing {
    Listing(row.id, row.book.title, row.publisher, row.book.isbn, row.book.price, row.book.stock,
            row.book.description, row.book.pages, row.book.imageUrl, row.rating, authors, categories)
  }

  // The `replace` in the row mapping: every comma, with the white space
  // after it, becomes a bar.
  function CommasToBars(s: string): (r: string)
    decreases |s|
  {
    if s == [] then []
    else if s[0] == ',' then ['|'] + CommasToBars(TrimStart(s[1..]))
    else [s[0]] + CommasToBars(s[1..])
  }

  /** A `GROUP_CONCAT` column turned back into a list: the empty string (no
      names) gives no names. */
  function NamesOf(column: string): seq<string> {
    if column == "" then [] else Split(CommasToBars(column), '|')
  }

  /** A name the round trip through `GROUP_CONCAT` keeps: no comma, no bar,
      and no leading white space. */
  predicate PlainName(n: string) {
    n != "" && ',' !in n && '|' !in n && !IsSpace(n[0])
  }

  lemma {:induction false} CommasToBarsPlain(s: string)
    requires ',' !in s
    ensures CommasToBars(s) == s
    decreases |s|
  {
    if s != [] {
      CommasToBarsPlain(s[1..]);
      assert [s[0]] + s[1..] == s;
    }
  }

  lemma {:induction false} CommasToBarsAfterComma(a: string, b: string)
    requires ',' !in a
    requires b == [] || !IsSpace(b[0])
    ensures CommasToBars(a + [','] + b) == a + ['|'] + CommasToBars(b)
    decreases |a|
  {
    if a == [] {
      assert a + [','] + b == [','] + b;
      assert ([','] + b)[1..] == b;
      TrimStartShape(b);
    } else {
      assert (a + [','] + b)[1..] == a[1..] + [','] + b;
      CommasToBarsAfterComma(a[1..], b);
    }
  }

  lemma {:induction false} CommasToBarsJoin(names: seq<string>)
    requires forall i :: 0 <= i < |names| ==> PlainName(names[i])
    ensures CommasToBars(Join(names, ',')) == Join(names, '|')
    decreases |names|
  {
    if |names| == 1 {
      CommasToBarsPlain(names[0]);
    } else if |names| > 1 {
      CommasToBarsJoin(names[1..]);
      var rest := Join(names[1..], ',');
      assert rest == names[1] || rest[..|names[1]|] == names[1] by {
        assert |names[1..]| >= 1;
      }
      assert rest != [] && rest[0] == names[1][0] by { JoinStarts(names[1..], ','); }
      CommasToBarsAfterComma(names[0], rest);
      CommasToBarsPlain(names[0]);
    }
  }

  /** A non-empty join starts with the first part. */
  lemma JoinStarts(parts: seq<string>, sep: char)
    requires parts != [] && parts[0] != []
    ensures Join(parts, sep) != [] && Join(parts, sep)[0] == parts[0][0]
  {
  }

  /** Names that are plain come back from the comma-joined column exactly,
      in the same order. */
  lemma NamesRoundTrip(names: seq<string>)
    requires forall i :: 0 <= i < |names| ==> PlainName(names[i])
    ensures NamesOf(Join(names, ',')) == names
  {
    if names != [] {
      JoinStarts(names, ',');
      CommasToBarsJoin(names);
      SplitJoin(names, '|');
    }
  }

  /** One `getBooks` result row: the book, its publisher and its author and
      category names as `GROUP_CONCAT` gives them. */
  datatype ListedRow = ListedRow(row: BookRow, authors: string, categories: string)

  /** `rows.map(...)`: each row with its name columns split back into lists. */
  function ListBooks(rows: seq<ListedRow>): (r: seq<Listing>)
    ensures |r| == |rows|
    ensures forall i :: 0 <= i < |rows| ==>
      r[i] == ListingOf(rows[i].row, NamesOf(rows[i].authors), NamesOf(rows[i].categories))
  {
    seq(|rows|, i requires 0 <= i < |rows| => ListingOf(rows[i].row, NamesOf(rows[i].authors), NamesOf(rows[i].categories)))
  }

  /** A row whose name columns were concatenated from plain names lists
      exactly those names, in order, next to the row's own fields. */
  lemma ListedRowNames(rows: seq<ListedRow>, i: int, authors: seq<string>, categories: seq<string>)
    requires 0 <= i < |rows|
    requires rows[i].authors == Join(authors, ',') && rows[i].categories == Join(categories, ',')
    requires forall k :: 0 <= k < |authors| ==> PlainName(authors[k])
    requires forall k :: 0 <= k < |categories| ==> PlainName(categories[k])
    ensures ListBooks(rows)[i].id == rows[i].row.id && ListBooks(rows)[i].title == rows[i].row.book.title
    ensures ListBooks(rows)[i].authors == authors && ListBooks(rows)[i].categories == categories
  {
    NamesRoundTrip(authors);
    NamesRoundTrip(categories);
  }

  /** `result ? result.total : 0`. */
  function TotalOf(result: Option<int>): int {
    if result.Some? then result.value else 0
  }

  // ---------------------------------------------------------------------------
  // getAllBooks

  /** A `book_authors` or `book_categories` row joined with the name it
      links to. */
  datatype NameRow = NameRow(bookId: int, name: string)

  /** `books.map((book) => book.id)`, also the order in which `bookMap` gets
      its keys. */
  function BookIds(books: seq<BookRow>): (r: seq<int>)
    ensures |r| == |books| && forall i :: 0 <= i < |books| ==> r[i] == books[i].id
  {
    seq(|books|, i requires 0 <= i < |books| => books[i].id)
  }

  predicate UniqueIds(books: seq<BookRow>) {
    forall i, j :: 0 <= i < j < |books| ==> books[i].id != books[j].id
  }

  /** The row `bookMap[book.id] = ...` leaves in place: the last with that id. */
  function LastWith(books: seq<BookRow>, id: int): (r: BookRow)
    requires id in BookIds(books)
    ensures r.id == id
    decreases |books|
  {
    var last := books[|books| - 1];
    if last.id == id then last
    else
      assert id in BookIds(books[..|books| - 1]) by {
        var i :| 0 <= i < |books| && BookIds(books)[i] == id;
        assert BookIds(books[..|books| - 1])[i] == id;
      }
      LastWith(books[..|books| - 1], id)
  }

  /** The names of the rows that link to `id`, in row order. */
  function NamesFor(rows: seq<NameRow>, id: int): seq<string>
    decreases |rows|
  {
    if rows == [] then []
    else NamesFor(rows[..|rows| - 1], id) + (if rows[|rows| - 1].bookId == id then [rows[|rows| - 1].name] else [])
  }

  /** One more row extends the names for `id` by that row's name, if it links to `id`. */
  lemma NamesForStep(rows: seq<NameRow>, j: int, id: int)
    requires 0 <= j < |rows|
    ensures NamesFor(rows[..j + 1], id) == NamesFor(rows[..j], id) + (if rows[j].bookId == id then [rows[j].name] else [])
  {
    assert rows[..j + 1][..j] == rows[..j];
  }

  /** The book map `getAllBooks` builds: one entry per book id, with the
      names of every author and category row that links to it. */
  function Grouped(books: seq<BookRow>, authorRows: seq<NameRow>, categoryRows: seq<NameRow>): map<int, Listing> {
    map id | id in BookIds(books) :: ListingOf(LastWith(books, id), NamesFor(authorRows, id), NamesFor(categoryRows, id))
  }

  lemma LastWithSnoc(books: seq<BookRow>, i: int, id: int)
    requires 0 <= i < |books| && id in BookIds(books[..i + 1])
    ensures id == books[i].id ==> LastWith(books[..i + 1], id) == books[i]
    ensures id != books[i].id ==> id in BookIds(books[..i]) && LastWith(books[..i + 1], id) == LastWith(books[..i], id)
  {
    assert books[..i + 1][..i] == books[..i];
  }

  /** The first `forEach`: one entry per book, with no names yet. */
  method MapBooks(books: seq<BookRow>) returns (bookMap: map<int, Listing>)
    ensures forall id :: id in bookMap <==> id in BookIds(books)
    ensures forall id :: id in bookMap ==> bookMap[id] == ListingOf(LastWith(books, id), [], [])
  {
    bookMap := map[];
    var i := 0;
    while i < |books|
      invariant 0 <= i <= |books|
      invariant forall id :: id in bookMap <==> id in BookIds(books[..i])
      invariant forall id :: id in bookMap ==> bookMap[id] == ListingOf(LastWith(books[..i], id), [], [])
    {
      assert BookIds(books[..i + 1]) == BookIds(books[..i]) + [books[i].id];
      bookMap := bookMap[books[i].id := ListingOf(books[i], [], [])];
      forall id | id in bookMap ensures bookMap[id] == ListingOf(LastWith(books[..i + 1], id), [], []) {
        LastWithSnoc(books, i, id);
      }
      i := i + 1;
    }
    assert books[..i] == books;
  }

  /** The second `forEach`: each author row's name pushed onto its book's
      entry, when the book is in the map. */
  method AddAuthors(books: seq<BookRow>, authorRows: seq<NameRow>, start: map<int, Listing>)
    returns (bookMap: map<int, Listing>)
    requires forall id :: id in start <==> id in BookIds(books)
    requires forall id :: id in start ==> start[id] == ListingOf(LastWith(books, id), [], [])
    ensures forall id :: id in bookMap <==> id in BookIds(books)
    ensures forall id :: id in bookMap ==> bookMap[id] == ListingOf(LastWith(books, id), NamesFor(authorRows, id), [])
  {
    bookMap := start;
    var j := 0;
    while j < |authorRows|
      invariant 0 <= j <= |authorRows|
      invariant forall id :: id in bookMap <==> id in BookIds(books)
      invariant forall id :: id in bookMap ==>
        bookMap[id] == ListingOf(LastWith(books, id), NamesFor(authorRows[..j], id), [])
    {
      var row := authorRows[j];
      if row.bookId in bookMap {
        bookMap := bookMap[row.bookId := bookMap[row.bookId].(authors := bookMap[row.bookId].authors + [row.name])];
      }
      forall id | id in bookMap
        ensures bookMap[id] == ListingOf(LastWith(books, id), NamesFor(authorRows[..j + 1], id), [])
      {
        NamesForStep(authorRows, j, id);
      }
      j := j + 1;
    }
    assert authorRows[..j] == authorRows;
  }

  /** The third `forEach`: the same for the category rows. */
  method AddCategories(books: seq<BookRow>, authorRows: seq<NameRow>, categoryRows: seq<NameRow>, start: map<int, Listing>)
    returns (bookMap: map<int, Listing>)
    requires forall id :: id in start <==> id in BookIds(books)
    requires forall id :: id in start ==> start[id] == ListingOf(LastWith(books, id), NamesFor(authorRows, id), [])
    ensures forall id :: id in bookMap <==> id in BookIds(books)
    ensures forall id :: id in bookMap ==>
      bookMap[id] == ListingOf(LastWith(books, id), NamesFor(authorRows, id), NamesFor(categoryRows, id))
  {
    bookMap := start;
    var j := 0;
    while j < |categoryRows|
      invariant 0 <= j <= |categoryRows|
      invariant forall id :: id in bookMap <==> id in BookIds(books)
      invariant forall id :: id in bookMap ==>
        bookMap[id] == ListingOf(LastWith(books, id), NamesFor(authorRows, id), NamesFor(categoryRows[..j], id))
    {
      var row := categoryRows[j];
      if row.bookId in bookMap {
        bookMap := bookMap[row.bookId := bookMap[row.bookId].(categories := bookMap[row.bookId].categories + [row.name])];
      }
      forall id | id in bookMap
        ensures bookMap[id] == ListingOf(LastWith(books, id), NamesFor(authorRows, id), NamesFor(categoryRows[..j + 1], id))
      {
        NamesForStep(categoryRows, j, id);
      }
      j := j + 1;
    }
    assert categoryRows[..j] == categoryRows;
  }

  /** The three `forEach` loops of `getAllBooks` together. */
  method BuildBookMap(books: seq<BookRow>, authorRows: seq<NameRow>, categoryRows: seq<NameRow>)
    returns (bookMap: map<int, Listing>)
    ensures bookMap == Grouped(books, authorRows, categoryRows)
  {
    bookMap := MapBooks(books);
    bookMap := AddAuthors(books, authorRows, bookMap);
    bookMap := AddCategories(books, authorRows, categoryRows, bookMap);
    var grouped := Grouped(books, authorRows, categoryRows);
    assert forall id :: id in grouped <==> id in BookIds(books);
    assert forall id :: id in bookMap ==> bookMap[id] == grouped[id];
  }

  predicate StrictlyAscending(s: seq<int>) {
    forall i, j :: 0 <= i < j < |s| ==> s[i] < s[j]
  }

  /** `x` put into its place in an ascending list, unless already there. */
  function Insert(sorted: seq<int>, x: int): (r: seq<int>)
    ensures forall k :: k in r <==> k in sorted || k == x
  {
    if sorted == [] then [x]
    else if x < sorted[0] then [x] + sorted
    else if x == sorted[0] then sorted
    else
      assert sorted == [sorted[0]] + sorted[1..];
      [sorted[0]] + Insert(sorted[1..], x)
  }

  lemma {:induction false} InsertAscending(sorted: seq<int>, x: int)
    requires StrictlyAscending(sorted)
    ensures StrictlyAscending(Insert(sorted, x))
  {
    if sorted != [] && x > sorted[0] {
      InsertAscending(sorted[1..], x);
      var r := Insert(sorted, x);
      forall i, j | 0 <= i < j < |r| ensures r[i] < r[j] {
        if i == 0 {
          assert r[j] in Insert(sorted[1..], x);
          assert r[j] in sorted[1..] || r[j] == x;
        } else {
          assert r[i] == Insert(sorted[1..], x)[i - 1] && r[j] == Insert(sorted[1..], x)[j - 1];
        }
      }
    }
  }

  lemma {:induction false} InsertLength(sorted: seq<int>, x: int)
    requires StrictlyAscending(sorted)
    ensures |Insert(sorted, x)| == if x in sorted then |sorted| else |sorted| + 1
  {
    if sorted != [] && x > sorted[0] {
      InsertLength(sorted[1..], x);
      assert sorted == [sorted[0]] + sorted[1..];
    }
  }

  /** The distinct ids of a list, ascending: the order in which
      `Object.values` visits integer keys, whatever order they were created in. */
  function SortedIds(ids: seq<int>): (r: seq<int>)
    ensures forall k :: k in r <==> k in ids
    decreases |ids|
  {
    if ids == [] then []
    else
      var front := ids[..|ids| - 1];
      assert ids == front + [ids[|ids| - 1]];
      Insert(SortedIds(front), ids[|ids| - 1])
  }

  lemma {:induction false} SortedIdsAscending(ids: seq<int>)
    ensures StrictlyAscending(SortedIds(ids))
    decreases |ids|
  {
    if ids != [] {
      SortedIdsAscending(ids[..|ids| - 1]);
      InsertAscending(SortedIds(ids[..|ids| - 1]), ids[|ids| - 1]);
    }
  }

  lemma {:induction false} SortedIdsDistinct(ids: seq<int>)
    requires forall i, j :: 0 <= i < j < |ids| ==> ids[i] != ids[j]
    ensures |SortedIds(ids)| == |ids|
    decreases |ids|
  {
    if ids != [] {
      var front := ids[..|ids| - 1];
      SortedIdsDistinct(front);
      SortedIdsAscending(front);
      InsertLength(SortedIds(front), ids[|ids| - 1]);
      assert ids[|ids| - 1] !in front;
    }
  }

  /** `Object.values` of an object whose keys are the integers `order`, in
      the order they were created: the values by ascending key. */
  function ObjectValues(m: map<int, Listing>, order: seq<int>): (r: seq<Listing>)
    requires forall i :: 0 <= i < |order| ==> order[i] in m
    ensures |r| == |SortedIds(order)|
    ensures forall i :: 0 <= i < |r| ==> SortedIds(order)[i] in m && r[i] == m[SortedIds(order)[i]]
  {
    var keys := SortedIds(order);
    assert forall i :: 0 <= i < |keys| ==> keys[i] in m by {
      forall i | 0 <= i < |keys| ensures keys[i] in m {
        assert keys[i] in keys;
        assert keys[i] in order;
        var j :| 0 <= j < |order| && order[j] == keys[i];
      }
    }
    seq(|keys|, i requires 0 <= i < |keys| => m[keys[i]])
  }

  /** The `books` list `getAllBooks` sends. */
  function AllBooks(books: seq<BookRow>, authorRows: seq<NameRow>, categoryRows: seq<NameRow>): seq<Listing> {
    ObjectValues(Grouped(books, authorRows, categoryRows), BookIds(books))
  }

  /** `getAllBooks` from the three query results: nothing for no books,
      otherwise the book map's values and their number. */
  method GroupBooks(books: seq<BookRow>, authorRows: seq<NameRow>, categoryRows: seq<NameRow>)
    returns (result: seq<Listing>, total: int)
    ensures result == AllBooks(books, authorRows, categoryRows)
    ensures total == |result|
  {
    if |books| == 0 {
      return [], 0;
    }
    var bookMap := BuildBookMap(books, authorRows, categoryRows);
    result := ObjectValues(bookMap, BookIds(books));
    total := |result|;
  }

  /** The books `getAllBooks` sends: one per book id, by ascending id, each
      with exactly the author and category names whose rows link to it, in
      row order; rows for any other id are dropped, and with distinct ids the
      total is the number of books. */
  lemma AllBooksLists(books: seq<BookRow>, authorRows: seq<NameRow>, categoryRows: seq<NameRow>)
    ensures forall i :: 0 <= i < |AllBooks(books, authorRows, categoryRows)| ==>
      AllBooks(books, authorRows, categoryRows)[i].id in BookIds(books)
    ensures forall id :: id in BookIds(books) ==>
      exists i :: 0 <= i < |AllBooks(books, authorRows, categoryRows)| && AllBooks(books, authorRows, categoryRows)[i].id == id
    ensures forall i :: 0 <= i < |AllBooks(books, authorRows, categoryRows)| ==>
      var e := AllBooks(books, authorRows, categoryRows)[i];
      e.authors == NamesFor(authorRows, e.id) && e.categories == NamesFor(categoryRows, e.id)
    ensures forall i, j :: 0 <= i < j < |AllBooks(books, authorRows, categoryRows)| ==>
      AllBooks(books, authorRows, categoryRows)[i].id < AllBooks(books, authorRows, categoryRows)[j].id
    ensures UniqueIds(books) ==> |AllBooks(books, authorRows, categoryRows)| == |books|
  {
    var keys := SortedIds(BookIds(books));
    var r := AllBooks(books, authorRows, categoryRows);
    SortedIdsAscending(BookIds(books));
    forall i | 0 <= i < |r| ensures r[i].id == keys[i] && r[i].id in BookIds(books) {
      assert r[i] == Grouped(books, authorRows, categoryRows)[keys[i]];
    }
    forall id | id in BookIds(books) ensures exists i :: 0 <= i < |r| && r[i].id == id {
      var i :| 0 <= i < |keys| && keys[i] == id;
      assert r[i].id == id;
    }
    if UniqueIds(books) { SortedIdsDistinct(BookIds(books)); }
  }

  /** Listing the books in the order the query sorted them:
      `books.map((book) => bookMap[book.id])`. */
  function InQueryOrder(books: seq<BookRow>, authorRows: seq<NameRow>, categoryRows: seq<NameRow>): seq<Listing> {
    var m := Grouped(books, authorRows, categoryRows);
    seq(|books|, i requires 0 <= i < |books| => m[books[i].id])
  }

  /** `getAllBooks` sending the book map's entries in the query's order. */
  method GroupBooksInQueryOrder(books: seq<BookRow>, authorRows: seq<NameRow>, categoryRows: seq<NameRow>)
    returns (result: seq<Listing>, total: int)
    ensures result == InQueryOrder(books, authorRows, categoryRows)
    ensures total == |result|
  {
    if |books| == 0 {
      return [], 0;
    }
    var bookMap := BuildBookMap(books, authorRows, categoryRows);
    result := [];
    var i := 0;
    while i < |books|
      invariant 0 <= i <= |books|
      invariant |result| == i
      invariant forall k :: 0 <= k < i ==> result[k] == bookMap[books[k].id]
    {
      result := result + [bookMap[books[i].id]];
      i := i + 1;
    }
    total := |result|;
  }

  lemma {:induction false} LastWithUnique(books: seq<BookRow>, i: int)
    requires UniqueIds(books) && 0 <= i < |books|
    ensures LastWith(books, books[i].id) == books[i]
    decreases |books|
  {
    if i < |books| - 1 {
      var front := books[..|books| - 1];
      assert front[i] == books[i];
      LastWithUnique(front, i);
    }
  }

  /** With distinct ids, the listing in query order is the query's rows,
      in the query's order (by title), each with its own names. */
  lemma QueryOrderKept(books: seq<BookRow>, authorRows: seq<NameRow>, categoryRows: seq<NameRow>)
    requires UniqueIds(books)
    ensures |InQueryOrder(books, authorRows, categoryRows)| == |books|
    ensures forall i :: 0 <= i < |books| ==>
      InQueryOrder(books, authorRows, categoryRows)[i]
        == ListingOf(books[i], NamesFor(authorRows, books[i].id), NamesFor(categoryRows, books[i].id))
  {
    forall i | 0 <= i < |books|
      ensures InQueryOrder(books, authorRows, categoryRows)[i]
        == ListingOf(books[i], NamesFor(authorRows, books[i].id), NamesFor(categoryRows, books[i].id))
    {
      LastWithUnique(books, i);
      assert books[i].id in BookIds(books);
    }
  }

  /** Two books that the query returns in title order, "A" (id 2) before
      "B" (id 1), come out of `Object.values` by id, "B" first. */
  lemma ObjectValuesReordersTitles()
    ensures var a := BookRow(2, Book("A", "1", 100, 1, None, 1, None, None, None), None, None);
            var b := BookRow(1, Book("B", "2", 100, 1, None, 1, None, None, None), None, None);
            && AllBooks([a, b], [], []) == [ListingOf(b, [], []), ListingOf(a, [], [])]
            && InQueryOrder([a, b], [], []) == [ListingOf(a, [], []), ListingOf(b, [], [])]
  {
    var a := BookRow(2, Book("A", "1", 100, 1, None, 1, None, None, None), None, None);
    var b := BookRow(1, Book("B", "2", 100, 1, None, 1, None, None, None), None, None);
    assert BookIds([a, b]) == [2, 1];
    assert [2, 1][..1] == [2];
    assert SortedIds([2]) == [2];
    assert SortedIds([2, 1]) == [1, 2];
    assert [a, b][..1] == [a];
    assert LastWith([a, b], 1) == b;
    assert LastWith([a, b], 2) == a;
  }
}
