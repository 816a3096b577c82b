/** booksController.js, writing side: the name normalization behind the
    author, category and publisher lookups, and `addBook`. The two listing
    handlers, `getBooks` and `getAllBooks`, are in module BookListing. */
module Books {
  import opened Tables
  import opened Text

  // ---------------------------------------------------------------------------
  // normalizeName

  /** `normalizeName`: trimmed, lower-cased, each run of whitespace made one
      space, every dot removed. */
  function NormalizeName(name: string): (r: string)
    ensures '.' !in r
  {
    RemoveAll(CollapseSpaces(ToLower(Trim(name))), '.')
  }

  /** A normalized name holds no dot, no upper-case letter, and no whitespace
      but plain spaces. */
  lemma NormalizedChars(name: string)
    ensures '.' !in NormalizeName(name)
    ensures forall i :: 0 <= i < |NormalizeName(name)| && IsSpace(NormalizeName(name)[i]) ==> NormalizeName(name)[i] == ' '
    ensures forall i :: 0 <= i < |NormalizeName(name)| ==> !IsUpperAscii(NormalizeName(name)[i])
  {
    var lowered := ToLower(Trim(name));
    var collapsed := CollapseSpaces(lowered);
    var r := RemoveAll(collapsed, '.');
    ToLowerChars(Trim(name));
    CollapseKeepsChars(lowered);
    RemoveAllKeepsChars(collapsed, '.');
    forall i | 0 <= i < |r| ensures (IsSpace(r[i]) ==> r[i] == ' ') && !IsUpperAscii(r[i]) {
      var j :| 0 <= j < |collapsed| && collapsed[j] == r[i];
      if collapsed[j] != ' ' {
        var k :| 0 <= k < |lowered| && lowered[k] == collapsed[j];
      }
    }
  }

  /** A name `normalizeName` has nothing left to do for. */
  predicate IsNormalized(s: string) {
    && IsTrimmed(s)
    && IsSingleSpaced(s)
    && '.' !in s
    && forall i :: 0 <= i < |s| ==> !IsUpperAscii(s[i])
  }

  lemma NormalizeFixesNormalized(s: string)
    requires IsNormalized(s)
    ensures NormalizeName(s) == s
  {
    ToLowerFixesLower(s);
    CollapseFixesSingleSpaced(s);
    assert Trim(s) == s;
  }

  /** Trimming first changes nothing: `normalizeName` trims anyway. */
  lemma NormalizeIgnoresTrim(name: string)
    ensures NormalizeName(Trim(name)) == NormalizeName(name)
  {
    assert Trim(Trim(name)) == Trim(name);
  }

  // ---------------------------------------------------------------------------
  // getOrInsertAuthor / getOrInsertCategory / getOrInsertPublisher

  /** The id the lookup `SELECT id ... WHERE <key> = ?` returns: the first row
      (row id = position + 1) whose key is `key`. */
  function FindByKey(names: seq<string>, keyOf: string -> string, key: string): (r: Option<int>)
    ensures r.Some? ==> 1 <= r.value <= |names| && keyOf(names[r.value - 1]) == key
    ensures r.Some? ==> forall j :: 0 <= j < r.value - 1 ==> keyOf(names[j]) != key
    ensures r.None? <==> forall j :: 0 <= j < |names| ==> keyOf(names[j]) != key
    decreases |names|
  {
    if names == [] then None
    else
      match FindByKey(names[..|names| - 1], keyOf, key)
      case Some(id) => Some(id)
      case None => if keyOf(names[|names| - 1]) == key then Some(|names|) else None
  }

  /** No name occurs twice: the UNIQUE constraint on `name`. */
  predicate UniqueNames(names: seq<string>) {
    forall i, j :: 0 <= i < j < |names| ==> names[i] != names[j]
  }

  /** What one get-or-insert does: the first row carrying the key is found,
      or the trimmed name is inserted, or that insert clashes with the UNIQUE
      constraint on `name`. */
  datatype Got = Found(id: int) | Inserted(row: string) | Clash

  /** One get-or-insert, `SELECT id FROM t WHERE keyOf(row) = norm(name)`
      followed on a miss by `INSERT INTO t (name) VALUES (trim(name))`:
      `keyOf` is the stored key (the normalized name for authors,
      `LOWER(name)` for categories and publishers) and `norm` what the
      request's name is compared as (`normalizeName`). The insert fails when
      the trimmed name already is a row. */
  function GetOrInsert(names: seq<string>, keyOf: string -> string, norm: string -> string, name: string): Got {
    match FindByKey(names, keyOf, norm(name))
    case Some(id) => Found(id)
    case None => if Trim(name) in names then Clash else Inserted(Trim(name))
  }

  /** The table after a get-or-insert that did not clash. */
  function TableAfter(names: seq<string>, g: Got): seq<string> {
    if g.Inserted? then names + [g.row] else names
  }

  /** The id a get-or-insert that did not clash hands back: the found row's,
      or the new row's (`lastID`). */
  function IdOf(names: seq<string>, g: Got): int {
    if g.Found? then g.id else |names| + 1
  }

  /** What a get-or-insert can do: hand back a row that carries the key, or
      insert the trimmed name when no row carries the key and it is not a row
      yet; it clashes exactly when no row carries the key and the trimmed name
      is a row. Distinct names stay distinct. */
  lemma GetOrInsertOutcome(names: seq<string>, keyOf: string -> string, norm: string -> string, name: string)
    ensures var g := GetOrInsert(names, keyOf, norm, name);
      && (g.Found? ==> 1 <= g.id <= |names| && keyOf(names[g.id - 1]) == norm(name))
      && (g.Inserted? ==> g.row == Trim(name) && Trim(name) !in names)
      && (!g.Found? ==> forall j :: 0 <= j < |names| ==> keyOf(names[j]) != norm(name))
      && (g.Clash? <==> (forall j :: 0 <= j < |names| ==> keyOf(names[j]) != norm(name)) && Trim(name) in names)
      && (UniqueNames(names) && !g.Clash? ==> UniqueNames(TableAfter(names, g)))
  {
  }

  /** Row `id` of `table` is one a get-or-insert may hand back for `name`:
      it carries the name's key, or is the name itself, trimmed. */
  predicate Designates(table: seq<string>, keyOf: string -> string, norm: string -> string, id: int, name: string) {
    1 <= id <= |table| && (keyOf(table[id - 1]) == norm(name) || table[id - 1] == Trim(name))
  }

  /** The id handed back designates the name in the new table. */
  lemma GetOrInsertDesignates(names: seq<string>, keyOf: string -> string, norm: string -> string, name: string)
    requires !GetOrInsert(names, keyOf, norm, name).Clash?
    ensures var g := GetOrInsert(names, keyOf, norm, name);
      Designates(TableAfter(names, g), keyOf, norm, IdOf(names, g), name)
  {
    var g := GetOrInsert(names, keyOf, norm, name);
    if g.Inserted? {
      assert TableAfter(names, g)[|names|] == Trim(name);
    }
  }

  /** When rows are compared by their normalized names, as `getOrInsertAuthor`
      means to, a miss means that the trimmed name is not a row either: the
      author insert never violates the UNIQUE constraint. */
  lemma NormalizedLookupNeverClashes(names: seq<string>, name: string)
    ensures !GetOrInsert(names, NormalizeName, NormalizeName, name).Clash?
  {
    NormalizeIgnoresTrim(name);
  }

  /** With normalized comparison a second get-or-insert of the same name
      finds the row the first one handed back and changes nothing. */
  lemma NormalizedLookupFindsItsInsert(names: seq<string>, name: string)
    ensures var g := GetOrInsert(names, NormalizeName, NormalizeName, name);
      GetOrInsert(TableAfter(names, g), NormalizeName, NormalizeName, name) == Found(IdOf(names, g))
  {
    var g := GetOrInsert(names, NormalizeName, NormalizeName, name);
    NormalizedLookupNeverClashes(names, name);
    if g.Inserted? {
      var table := names + [g.row];
      NormalizeIgnoresTrim(name);
      assert table[..|names|] == names;
      assert FindByKey(names, NormalizeName, NormalizeName(name)).None?;
      assert NormalizeName(table[|names|]) == NormalizeName(name);
    }
  }

  /** `getOrInsertCategory` compares `LOWER(name)` with the normalized name.
      A category whose trimmed name holds a dot is never found again: the
      first book inserts it, and every later book naming it makes the insert
      violate the UNIQUE constraint, whatever other categories (`later`) were
      inserted meanwhile, as long as none of them lower-cases to the
      normalized name (as "SciFi" would for "Sci.Fi"). */
  lemma DottedCategoryIsRejectedOnReuse(names: seq<string>, later: seq<string>, name: string)
    requires '.' in Trim(name)
    requires GetOrInsert(names, ToLower, NormalizeName, name).Inserted?
    requires forall j :: 0 <= j < |later| ==> ToLower(later[j]) != NormalizeName(name)
    ensures GetOrInsert(names + [Trim(name)] + later, ToLower, NormalizeName, name) == Clash
  {
    var key := NormalizeName(name);
    var t := Trim(name);
    DottedKeyDiffers(name);
    var table := names + [t] + later;
    forall j | 0 <= j < |table| ensures ToLower(table[j]) != key {
      if j < |names| {
        assert table[j] == names[j];
      } else if j > |names| {
        assert table[j] == later[j - |names| - 1];
      }
    }
    assert FindByKey(table, ToLower, key).None?;
    assert table[|names|] == t;
  }

  /** A dotted name lower-cased keeps its dot, so it never equals its
      normalized form. */
  lemma DottedKeyDiffers(name: string)
    requires '.' in Trim(name)
    ensures ToLower(Trim(name)) != NormalizeName(name)
  {
    var t := Trim(name);
    var k :| 0 <= k < |t| && t[k] == '.';
    ToLowerChars(t);
    assert ToLower(t)[k] == '.';
  }

  /** `getOrInsertAuthor`, at the semantics the code means: the lookup
      compares normalized names, and the insert cannot clash. */
  method GetOrInsertAuthor(db: Store, name: string) returns (id: int)
    modifies db`authors
    ensures var g := GetOrInsert(old(db.authors), NormalizeName, NormalizeName, name);
      !g.Clash? && id == IdOf(old(db.authors), g) && db.authors == TableAfter(old(db.authors), g)
  {
    var found := FindByKey(db.authors, NormalizeName, NormalizeName(name));
    if found.Some? {
      return found.value;
    }
    NormalizedLookupNeverClashes(db.authors, name);
    db.authors := db.authors + [Trim(name)];
    id := |db.authors|;
  }

  /** `getOrInsertCategory`: `LOWER(name)` compared with the normalized name;
      a clashing insert is the error handler's 400. */
  method GetOrInsertCategory(db: Store, name: string) returns (r: Reply<int>)
    modifies db`categories
    ensures var g := GetOrInsert(old(db.categories), ToLower, NormalizeName, name);
      if g.Clash? then r == ConstraintViolated() && db.categories == old(db.categories)
      else r == Ok(IdOf(old(db.categories), g)) && db.categories == TableAfter(old(db.categories), g)
  {
    var rows := db.categories;
    var found := FindByKey(rows, ToLower, NormalizeName(name));
    if found.Some? {
      return Ok(found.value);
    }
    var trimmed := Trim(name);
    if trimmed in rows {
      return ConstraintViolated();
    }
    db.categories := rows + [trimmed];
    r := Ok(|rows| + 1);
  }

  /** The category lookup with both sides normalized, which finds every
      category it inserted (NormalizedLookupFindsItsInsert). */
  method GetOrInsertCategoryNormalized(db: Store, name: string) returns (id: int)
    modifies db`categories
    ensures var g := GetOrInsert(old(db.categories), NormalizeName, NormalizeName, name);
      !g.Clash? && id == IdOf(old(db.categories), g) && db.categories == TableAfter(old(db.categories), g)
  {
    var found := FindByKey(db.categories, NormalizeName, NormalizeName(name));
    if found.Some? {
      return found.value;
    }
    NormalizedLookupNeverClashes(db.categories, name);
    db.categories := db.categories + [Trim(name)];
    id := |db.categories|;
  }

  /** `getOrInsertPublisher`: the same lookup as for categories. */
  method GetOrInsertPublisher(db: Store, name: string) returns (r: Reply<int>)
    modifies db`publishers
    ensures var g := GetOrInsert(old(db.publishers), ToLower, NormalizeName, name);
      if g.Clash? then r == ConstraintViolated() && db.publishers == old(db.publishers)
      else r == Ok(IdOf(old(db.publishers), g)) && db.publishers == TableAfter(old(db.publishers), g)
  {
    var rows := db.publishers;
    var found := FindByKey(rows, ToLower, NormalizeName(name));
    if found.Some? {
      return Ok(found.value);
    }
    var trimmed := Trim(name);
    if trimmed in rows {
      return ConstraintViolated();
    }
    db.publishers := rows + [trimmed];
    r := Ok(|rows| + 1);
  }

  // ---------------------------------------------------------------------------
  // The author and category loops of addBook

  /** The table, the link rows, and whether an insert failed. */
  datatype Linking = Linking(table: seq<string>, links: seq<Link>, failed: bool)

  /** The `for ... of` loop over one list of names: each name is got or
      inserted and one link row (book, id) appended; the first failing insert
      ends the loop, and the rows written before it stay. */
  function LinkAll(table: seq<string>, links: seq<Link>, bookId: int, names: seq<string>,
                   keyOf: string -> string, norm: string -> string): Linking
    decreases |names|
  {
    if names == [] then Linking(table, links, false)
    else
      var before := LinkAll(table, links, bookId, names[..|names| - 1], keyOf, norm);
      var g := GetOrInsert(before.table, keyOf, norm, names[|names| - 1]);
      if before.failed then before
      else if g.Clash? then before.(failed := true)
      else Linking(TableAfter(before.table, g), before.links + [Link(bookId, IdOf(before.table, g))], false)
  }

  /** One more turn of the loop: the names up to `i` and then `names[i]`. */
  lemma LinkAllStep(table: seq<string>, links: seq<Link>, bookId: int, names: seq<string>,
                    keyOf: string -> string, norm: string -> string, i: int)
    requires 0 <= i < |names|
    ensures var before := LinkAll(table, links, bookId, names[..i], keyOf, norm);
      var g := GetOrInsert(before.table, keyOf, norm, names[i]);
      LinkAll(table, links, bookId, names[..i + 1], keyOf, norm) ==
        if before.failed then before
        else if g.Clash? then before.(failed := true)
        else Linking(TableAfter(before.table, g), before.links + [Link(bookId, IdOf(before.table, g))], false)
  {
    assert names[..i + 1][..i] == names[..i];
  }

  /** The loop only appends, to the table and to the link rows. */
  lemma {:induction false} LinkAllGrows(table: seq<string>, links: seq<Link>, bookId: int, names: seq<string>,
                                        keyOf: string -> string, norm: string -> string)
    ensures var r := LinkAll(table, links, bookId, names, keyOf, norm);
      && |table| <= |r.table| && (forall j :: 0 <= j < |table| ==> r.table[j] == table[j])
      && |links| <= |r.links| && (forall j :: 0 <= j < |links| ==> r.links[j] == links[j])
    decreases |names|
  {
    if names != [] {
      LinkAllGrows(table, links, bookId, names[..|names| - 1], keyOf, norm);
    }
  }

  /** A row that a name designates still does after rows are appended. */
  lemma DesignatesKeeps(table: seq<string>, longer: seq<string>, keyOf: string -> string, norm: string -> string,
                        id: int, name: string)
    requires |table| <= |longer| && Designates(table, keyOf, norm, id, name)
    requires forall j :: 0 <= j < |table| ==> longer[j] == table[j]
    ensures Designates(longer, keyOf, norm, id, name)
  {
    assert longer[id - 1] == table[id - 1];
  }

  /** A completed loop writes one link row per name, in order, each naming
      the book and a row that the name designates. */
  lemma {:induction false} LinkAllLinks(table: seq<string>, links: seq<Link>, bookId: int, names: seq<string>,
                                        keyOf: string -> string, norm: string -> string)
    requires !LinkAll(table, links, bookId, names, keyOf, norm).failed
    ensures var r := LinkAll(table, links, bookId, names, keyOf, norm);
      && |r.links| == |links| + |names|
      && forall k :: |links| <= k < |r.links| ==>
           r.links[k].bookId == bookId && Designates(r.table, keyOf, norm, r.links[k].targetId, names[k - |links|])
    decreases |names|
  {
    if names != [] {
      var init := names[..|names| - 1];
      var last := names[|names| - 1];
      var before := LinkAll(table, links, bookId, init, keyOf, norm);
      var g := GetOrInsert(before.table, keyOf, norm, last);
      assert !before.failed && !g.Clash?;
      LinkAllLinks(table, links, bookId, init, keyOf, norm);
      GetOrInsertDesignates(before.table, keyOf, norm, last);
      var t := TableAfter(before.table, g);
      var link := Link(bookId, IdOf(before.table, g));
      var r := LinkAll(table, links, bookId, names, keyOf, norm);
      assert r.table == t && r.links == before.links + [link];
      forall k | |links| <= k < |r.links|
        ensures r.links[k].bookId == bookId
        ensures Designates(r.table, keyOf, norm, r.links[k].targetId, names[k - |links|])
      {
        if k < |before.links| {
          assert names[k - |links|] == init[k - |links|];
          assert r.links[k] == before.links[k];
          DesignatesKeeps(before.table, t, keyOf, norm, before.links[k].targetId, init[k - |links|]);
        } else {
          assert k - |links| == |names| - 1;
          assert r.links[k] == link;
          assert names[k - |links|] == last;
        }
      }
    }
  }

  /** With normalized comparison the loop never fails. */
  lemma {:induction false} NormalizedLinkingNeverFails(table: seq<string>, links: seq<Link>, bookId: int,
                                                       names: seq<string>)
    ensures !LinkAll(table, links, bookId, names, NormalizeName, NormalizeName).failed
    decreases |names|
  {
    if names != [] {
      var init := names[..|names| - 1];
      NormalizedLinkingNeverFails(table, links, bookId, init);
      NormalizedLookupNeverClashes(LinkAll(table, links, bookId, init, NormalizeName, NormalizeName).table,
                                   names[|names| - 1]);
    }
  }

  /** Once an insert has failed, later names change nothing. */
  lemma {:induction false} FailedLinkingStops(table: seq<string>, links: seq<Link>, bookId: int, names: seq<string>,
                                              keyOf: string -> string, norm: string -> string, i: int)
    requires 0 <= i <= |names|
    requires LinkAll(table, links, bookId, names[..i], keyOf, norm).failed
    ensures LinkAll(table, links, bookId, names, keyOf, norm) == LinkAll(table, links, bookId, names[..i], keyOf, norm)
    decreases |names|
  {
    if i < |names| {
      var init := names[..|names| - 1];
      assert init[..i] == names[..i];
      FailedLinkingStops(table, links, bookId, init, keyOf, norm, i);
    } else {
      assert names[..i] == names;
    }
  }

  /** The author loop of `addBook`. */
  method LinkAuthors(db: Store, bookId: int, names: seq<string>)
    modifies db`authors, db`bookAuthors
    ensures var a := LinkAll(old(db.authors), old(db.bookAuthors), bookId, names, NormalizeName, NormalizeName);
      db.authors == a.table && db.bookAuthors == a.links
  {
    var i := 0;
    while i < |names|
      invariant 0 <= i <= |names|
      invariant var r := LinkAll(old(db.authors), old(db.bookAuthors), bookId, names[..i], NormalizeName, NormalizeName);
        db.authors == r.table && db.bookAuthors == r.links
    {
      NormalizedLinkingNeverFails(old(db.authors), old(db.bookAuthors), bookId, names[..i]);
      LinkAllStep(old(db.authors), old(db.bookAuthors), bookId, names, NormalizeName, NormalizeName, i);
      var id := GetOrInsertAuthor(db, names[i]);
      db.bookAuthors := db.bookAuthors + [Link(bookId, id)];
      i := i + 1;
    }
    assert names[..i] == names;
    ghost var r := LinkAll(old(db.authors), old(db.bookAuthors), bookId, names, NormalizeName, NormalizeName);
    assert db.authors == r.table && db.bookAuthors == r.links;
  }

  /** The category loop of `addBook`; `failed` when an insert clashed. */
  method LinkCategories(db: Store, bookId: int, names: seq<string>) returns (failed: bool)
    modifies db`categories, db`bookCategories
    ensures var k := LinkAll(old(db.categories), old(db.bookCategories), bookId, names, ToLower, NormalizeName);
      db.categories == k.table && db.bookCategories == k.links && failed == k.failed
  {
    var i := 0;
    while i < |names|
      invariant 0 <= i <= |names|
      invariant var r := LinkAll(old(db.categories), old(db.bookCategories), bookId, names[..i], ToLower, NormalizeName);
        !r.failed && db.categories == r.table && db.bookCategories == r.links
    {
      LinkAllStep(old(db.categories), old(db.bookCategories), bookId, names, ToLower, NormalizeName, i);
      var got := GetOrInsertCategory(db, names[i]);
      if got.Err? {
        FailedLinkingStops(old(db.categories), old(db.bookCategories), bookId, names, ToLower, NormalizeName, i + 1);
        ghost var r := LinkAll(old(db.categories), old(db.bookCategories), bookId, names, ToLower, NormalizeName);
        assert r.failed && db.categories == r.table && db.bookCategories == r.links;
        return true;
      }
      db.bookCategories := db.bookCategories + [Link(bookId, got.value)];
      i := i + 1;
    }
    assert names[..i] == names;
    ghost var r := LinkAll(old(db.categories), old(db.bookCategories), bookId, names, ToLower, NormalizeName);
    assert !r.failed && db.categories == r.table && db.bookCategories == r.links;
    failed := false;
  }

  // ---------------------------------------------------------------------------
  // addBook

  /** `authors` or `categories` in the request body: absent, one string of
      comma-separated names, or an array. */
  datatype ListField = Missing | Joined(text: string) | Listed(names: seq<string>)

  /** JavaScript truthiness of the field: an array always, a string when not
      empty. */
  predicate ListGiven(f: ListField) {
    f.Listed? || (f.Joined? && f.text != "")
  }

  /** `.map((a) => a.trim())`. */
  function TrimAll(parts: seq<string>): (r: seq<string>)
    ensures |r| == |parts|
  {
    if parts == [] then [] else TrimAll(parts[..|parts| - 1]) + [Trim(parts[|parts| - 1])]
  }

  lemma {:induction false} TrimAllAt(parts: seq<string>, i: int)
    requires 0 <= i < |parts|
    ensures TrimAll(parts)[i] == Trim(parts[i])
  {
    if i < |parts| - 1 {
      TrimAllAt(parts[..|parts| - 1], i);
    }
  }

  lemma {:induction false} TrimAllAppend(a: seq<string>, b: seq<string>)
    ensures TrimAll(a + b) == TrimAll(a) + TrimAll(b)
    decreases |b|
  {
    if b == [] {
      assert a + b == a;
    } else {
      var front := b[..|b| - 1];
      assert (a + b)[..|a + b| - 1] == a + front;
      assert (a + b)[|a + b| - 1] == b[|b| - 1];
      TrimAllAppend(a, front);
    }
  }

  /** The names the loop runs over: an array as given, a string split on `,`
      with each piece trimmed. */
  function ListOf(f: ListField): seq<string>
    requires ListGiven(f)
  {
    if f.Listed? then f.names else TrimAll(Split(f.text, ','))
  }

  /** A string gives one name per comma-separated piece, trimmed: no name
      holds a comma or starts or ends with whitespace. */
  lemma ListOfPieces(t: string)
    requires t != ""
    ensures var r := ListOf(Joined(t));
      && |r| == |Split(t, ',')|
      && (forall i :: 0 <= i < |r| ==> r[i] == Trim(Split(t, ',')[i]))
      && (forall i :: 0 <= i < |r| ==> ',' !in r[i] && IsTrimmed(r[i]))
  {
    var parts := Split(t, ',');
    var r := ListOf(Joined(t));
    SplitPieces(t, ',');
    forall i | 0 <= i < |r| ensures r[i] == Trim(parts[i]) && ',' !in r[i] && IsTrimmed(r[i]) {
      TrimAllAt(parts, i);
      TrimKeepsChars(parts[i]);
    }
  }

  /** Splitting distributes over a comma: `"a, b"` lists the names of `"a"`
      and then those of `" b"`. */
  lemma ListOfComma(a: string, b: string)
    requires a != "" && b != ""
    ensures ListOf(Joined(a + [','] + b)) == ListOf(Joined(a)) + ListOf(Joined(b))
  {
    SplitAtSep(a, b, ',');
    TrimAllAppend(Split(a, ','), Split(b, ','));
  }

  /** A string without a comma names one author or category. */
  lemma ListOfSingleName(t: string)
    requires t != "" && ',' !in t
    ensures ListOf(Joined(t)) == [Trim(t)]
  {
    SplitWithoutSep(t, ',');
  }

  /** The body fields `addBook` reads; `publisher` absent means the default. */
  datatype AddBookRequest = AddBookRequest(title: Option<string>, authors: ListField, categories: ListField,
                                           isbn: Option<string>, price: Option<int>, publisher: Option<string>,
                                           publicationYear: Option<int>, stock: Option<int>,
                                           description: Option<string>, pages: Option<int>)

  const MissingFieldsMessage: string := "Todos los campos obligatorios deben estar completos."
  const BookAddedMessage: string := "Libro agregado correctamente."

  /** The publisher name: the destructuring default applies only when the
      field is absent. */
  function PublisherName(req: AddBookRequest): string {
    if req.publisher.None? then "Autoeditado" else req.publisher.value
  }

  /** The check before anything is written: title, authors, categories,
      isbn, price and publisher all truthy. */
  predicate Complete(req: AddBookRequest) {
    && Present(req.title) && ListGiven(req.authors) && ListGiven(req.categories)
    && Present(req.isbn) && Truthy(req.price) && PublisherName(req) != ""
  }

  /** The `books` row `addBook` inserts. */
  function NewBook(req: AddBookRequest, publisherId: int, imageUrl: Option<string>): Book
    requires Complete(req)
  {
    Book(req.title.value, req.isbn.value, req.price.value, publisherId, req.publicationYear,
         if req.stock.Some? then req.stock.value else 0, req.description, req.pages, imageUrl)
  }

  /** A book already has this ISBN: the UNIQUE constraint on `books.isbn`. */
  predicate IsbnTaken(books: map<int, Book>, isbn: string) {
    exists id :: id in books && books[id].isbn == isbn
  }

  datatype AddedBook = AddedBook(message: string, bookId: int)

  /** The tables `addBook` writes, as one value. */
  datatype Catalog = Catalog(books: map<int, Book>, nextBookId: int, publishers: seq<string>,
                             authors: seq<string>, categories: seq<string>,
                             bookAuthors: seq<Link>, bookCategories: seq<Link>)

  function CatalogOf(db: Store): Catalog
    reads db`books, db`nextBookId, db`publishers, db`authors, db`categories, db`bookAuthors, db`bookCategories
  {
    Catalog(db.books, db.nextBookId, db.publishers, db.authors, db.categories, db.bookAuthors, db.bookCategories)
  }

  /** The tables after a handler step, and its reply. */
  datatype Outcome<T> = Outcome(catalog: Catalog, reply: Reply<T>)

  /** The `books` insert: the UNIQUE constraint on `isbn` fails it, and
      otherwise the row gets the next id (`lastID`). */
  function InsertedBook(c: Catalog, book: Book): Outcome<int> {
    if IsbnTaken(c.books, book.isbn) then Outcome(c, ConstraintViolated())
    else Outcome(c.(books := c.books[c.nextBookId := book], nextBookId := c.nextBookId + 1), Ok(c.nextBookId))
  }

  /** The author loop: its link rows and the new author rows. */
  function WithAuthors(c: Catalog, bookId: int, names: seq<string>): Catalog {
    var a := LinkAll(c.authors, c.bookAuthors, bookId, names, NormalizeName, NormalizeName);
    c.(authors := a.table, bookAuthors := a.links)
  }

  /** The category loop: the rows it wrote, and the error handler's reply
      when an insert failed. */
  function WithCategories(c: Catalog, bookId: int, names: seq<string>): Outcome<int> {
    var k := LinkAll(c.categories, c.bookCategories, bookId, names, ToLower, NormalizeName);
    Outcome(c.(categories := k.table, bookCategories := k.links), if k.failed then ConstraintViolated() else Ok(bookId))
  }

  /** The writes after the publisher and the image: the book row, then the
      author loop, then the category loop; the reply carries the book id. */
  function SaveAll(c: Catalog, book: Book, authorList: seq<string>, categoryList: seq<string>): Outcome<int> {
    var inserted := InsertedBook(c, book);
    if inserted.reply.Err? then inserted
    else WithCategories(WithAuthors(inserted.catalog, inserted.reply.value, authorList), inserted.reply.value, categoryList)
  }

  /** The book insert of `addBook`. */
  method InsertBook(db: Store, book: Book) returns (r: Reply<int>)
    requires BookIdsBelow(db.books, db.nextBookId)
    modifies db`books, db`nextBookId
    ensures BookIdsBelow(db.books, db.nextBookId)
    ensures Outcome(CatalogOf(db), r) == InsertedBook(old(CatalogOf(db)), book)
  {
    if IsbnTaken(db.books, book.isbn) {
      return ConstraintViolated();
    }
    r := Ok(db.nextBookId);
    db.books := db.books[db.nextBookId := book];
    db.nextBookId := db.nextBookId + 1;
  }

  /** The image URL stored with the book. */
  function ImageUrl(upload: Upload): Option<string> {
    if upload.Uploaded? then Some(upload.secureUrl) else None
  }

  /** What `addBook` does to the tables and what it replies. */
  function AddBookOutcome(c: Catalog, req: AddBookRequest, upload: Upload): Outcome<AddedBook> {
    if !Complete(req) then Outcome(c, Err(400, MissingFieldsMessage))
    else
      var pub := GetOrInsert(c.publishers, ToLower, NormalizeName, PublisherName(req));
      if pub.Clash? then Outcome(c, ConstraintViolated())
      else
        var withPublisher := c.(publishers := TableAfter(c.publishers, pub));
        if upload.UploadFailed? then Outcome(withPublisher, ServerFailure())
        else
          var saved := SaveAll(withPublisher, NewBook(req, IdOf(c.publishers, pub), ImageUrl(upload)),
                               ListOf(req.authors), ListOf(req.categories));
          Outcome(saved.catalog,
                  if saved.reply.Err? then ConstraintViolated() else Ok(AddedBook(BookAddedMessage, saved.reply.value)))
  }

  /** The writes of `addBook` after the publisher and the image. */
  method SaveBook(db: Store, book: Book, authorList: seq<string>, categoryList: seq<string>) returns (r: Reply<int>)
    requires BookIdsBelow(db.books, db.nextBookId)
    modifies db`books, db`nextBookId, db`authors, db`categories, db`bookAuthors, db`bookCategories
    ensures BookIdsBelow(db.books, db.nextBookId)
    ensures Outcome(CatalogOf(db), r) == SaveAll(old(CatalogOf(db)), book, authorList, categoryList)
  {
    var inserted := InsertBook(db, book);
    if inserted.Err? {
      return ConstraintViolated();
    }
    var bookId := inserted.value;
    LinkAuthors(db, bookId, authorList);
    var failed := LinkCategories(db, bookId, categoryList);
    if failed {
      return ConstraintViolated();
    }
    r := Ok(bookId);
  }

  /** `addBook`. `upload` is the Cloudinary outcome for the attached file.
      Every failure after the check goes to the error handler, and whatever
      was written before it stays. */
  method AddBook(db: Store, req: AddBookRequest, upload: Upload) returns (r: Reply<AddedBook>)
    requires BookIdsBelow(db.books, db.nextBookId)
    modifies db`books, db`nextBookId, db`publishers, db`authors, db`categories, db`bookAuthors, db`bookCategories
    ensures BookIdsBelow(db.books, db.nextBookId)
    ensures Outcome(CatalogOf(db), r) == AddBookOutcome(old(CatalogOf(db)), req, upload)
  {
    ghost var before := CatalogOf(db);
    if !Complete(req) {
      return Err(400, MissingFieldsMessage);
    }
    var authorList := ListOf(req.authors);
    var categoryList := ListOf(req.categories);
    ghost var pub := GetOrInsert(before.publishers, ToLower, NormalizeName, PublisherName(req));
    var publisherId := GetOrInsertPublisher(db, PublisherName(req));
    if publisherId.Err? {
      assert CatalogOf(db) == before;
      return ConstraintViolated();
    }
    ghost var withPublisher := before.(publishers := TableAfter(before.publishers, pub));
    assert CatalogOf(db) == withPublisher;
    if upload.UploadFailed? {
      return ServerFailure();
    }
    var book := NewBook(req, publisherId.value, ImageUrl(upload));
    assert book == NewBook(req, IdOf(before.publishers, pub), ImageUrl(upload));
    var saved := SaveBook(db, book, authorList, categoryList);
    if saved.Err? {
      return ConstraintViolated();
    }
    r := Ok(AddedBook(BookAddedMessage, saved.value));
  }

  /** A save that succeeded stored the book under the next id and ran both
      loops to the end. */
  lemma SaveAllSucceeded(c: Catalog, book: Book, authorList: seq<string>, categoryList: seq<string>)
    requires SaveAll(c, book, authorList, categoryList).reply.Ok?
    ensures var s := SaveAll(c, book, authorList, categoryList);
      var a := LinkAll(c.authors, c.bookAuthors, c.nextBookId, authorList, NormalizeName, NormalizeName);
      var k := LinkAll(c.categories, c.bookCategories, c.nextBookId, categoryList, ToLower, NormalizeName);
      && !IsbnTaken(c.books, book.isbn) && !k.failed
      && s.reply.value == c.nextBookId
      && s.catalog == Catalog(c.books[c.nextBookId := book], c.nextBookId + 1, c.publishers,
                              a.table, k.table, a.links, k.links)
  {
  }

  /** A successful `addBook` got the publisher and then saved. */
  lemma AddBookSaved(c: Catalog, req: AddBookRequest, upload: Upload)
    requires AddBookOutcome(c, req, upload).reply.Ok?
    ensures Complete(req) && !upload.UploadFailed?
    ensures var pub := GetOrInsert(c.publishers, ToLower, NormalizeName, PublisherName(req));
      var saved := SaveAll(c.(publishers := TableAfter(c.publishers, pub)),
                           NewBook(req, IdOf(c.publishers, pub), ImageUrl(upload)),
                           ListOf(req.authors), ListOf(req.categories));
      && !pub.Clash? && saved.reply.Ok?
      && AddBookOutcome(c, req, upload) == Outcome(saved.catalog, Ok(AddedBook(BookAddedMessage, saved.reply.value)))
  {
  }

  /** The replies of `addBook`: the 400 for missing fields exactly when a
      required field is missing, and then nothing is written; the 500
      exactly when the upload fails after the publisher was got; every other
      failure is the error handler's 400. */
  lemma AddBookReplies(c: Catalog, req: AddBookRequest, upload: Upload)
    ensures var o := AddBookOutcome(c, req, upload);
      && (o.reply == Err(400, MissingFieldsMessage) <==> !Complete(req))
      && (!Complete(req) ==> o.catalog == c)
      && (o.reply == ServerFailure() <==>
            Complete(req) && !GetOrInsert(c.publishers, ToLower, NormalizeName, PublisherName(req)).Clash?
            && upload.UploadFailed?)
      && (o.reply.Err? ==>
            o.reply == Err(400, MissingFieldsMessage) || o.reply == ConstraintViolated() || o.reply == ServerFailure())
  {
    assert ConstraintMessage != MissingFieldsMessage;
    assert ServerMessage != MissingFieldsMessage;
  }

  /** The writes of a successful `addBook` up to the book row: the
      publisher got for the request, and the book stored under the id the
      reply carries, the next free one. */
  lemma AddBookStoresBook(c: Catalog, req: AddBookRequest, upload: Upload)
    requires AddBookOutcome(c, req, upload).reply.Ok?
    ensures Complete(req) && !upload.UploadFailed?
    ensures var o := AddBookOutcome(c, req, upload);
      var pub := GetOrInsert(c.publishers, ToLower, NormalizeName, PublisherName(req));
      && !pub.Clash?
      && o.reply.value == AddedBook(BookAddedMessage, c.nextBookId)
      && o.catalog.publishers == TableAfter(c.publishers, pub)
      && Designates(o.catalog.publishers, ToLower, NormalizeName, IdOf(c.publishers, pub), PublisherName(req))
      && !IsbnTaken(c.books, req.isbn.value)
      && o.catalog.books == c.books[c.nextBookId := NewBook(req, IdOf(c.publishers, pub), ImageUrl(upload))]
      && o.catalog.nextBookId == c.nextBookId + 1
  {
    AddBookSaved(c, req, upload);
    var pub := GetOrInsert(c.publishers, ToLower, NormalizeName, PublisherName(req));
    SaveAllSucceeded(c.(publishers := TableAfter(c.publishers, pub)),
                     NewBook(req, IdOf(c.publishers, pub), ImageUrl(upload)),
                     ListOf(req.authors), ListOf(req.categories));
    GetOrInsertDesignates(c.publishers, ToLower, NormalizeName, PublisherName(req));
  }

  /** `after` keeps the author links of `before` and adds one per name, in
      order, from `bookId` to an author whose normalized name is the name's. */
  predicate AuthorsLinked(before: Catalog, after: Catalog, bookId: int, names: seq<string>) {
    && |after.bookAuthors| == |before.bookAuthors| + |names|
    && (forall k :: 0 <= k < |before.bookAuthors| ==> after.bookAuthors[k] == before.bookAuthors[k])
    && forall k :: |before.bookAuthors| <= k < |after.bookAuthors| ==>
         && after.bookAuthors[k].bookId == bookId
         && 1 <= after.bookAuthors[k].targetId <= |after.authors|
         && NormalizeName(after.authors[after.bookAuthors[k].targetId - 1]) == NormalizeName(names[k - |before.bookAuthors|])
  }

  /** `after` keeps the category links of `before` and adds one per name, in
      order, from `bookId` to a category row the name designates. */
  predicate CategoriesLinked(before: Catalog, after: Catalog, bookId: int, names: seq<string>) {
    && |after.bookCategories| == |before.bookCategories| + |names|
    && (forall k :: 0 <= k < |before.bookCategories| ==> after.bookCategories[k] == before.bookCategories[k])
    && forall k :: |before.bookCategories| <= k < |after.bookCategories| ==>
         && after.bookCategories[k].bookId == bookId
         && Designates(after.categories, ToLower, NormalizeName, after.bookCategories[k].targetId,
                       names[k - |before.bookCategories|])
  }

  /** A catalog whose author tables are those the author loop leaves has
      the book linked to each name. */
  lemma AuthorLoopLinks(c: Catalog, after: Catalog, bookId: int, names: seq<string>)
    requires var a := LinkAll(c.authors, c.bookAuthors, bookId, names, NormalizeName, NormalizeName);
      after.authors == a.table && after.bookAuthors == a.links
    ensures AuthorsLinked(c, after, bookId, names)
  {
    var a := LinkAll(c.authors, c.bookAuthors, bookId, names, NormalizeName, NormalizeName);
    NormalizedLinkingNeverFails(c.authors, c.bookAuthors, bookId, names);
    LinkAllLinks(c.authors, c.bookAuthors, bookId, names, NormalizeName, NormalizeName);
    LinkAllGrows(c.authors, c.bookAuthors, bookId, names, NormalizeName, NormalizeName);
    forall j | |c.bookAuthors| <= j < |a.links|
      ensures NormalizeName(a.table[a.links[j].targetId - 1]) == NormalizeName(names[j - |c.bookAuthors|])
    {
      NormalizeIgnoresTrim(names[j - |c.bookAuthors|]);
    }
  }

  /** A catalog whose category tables are those a completed category loop
      leaves has the book linked to each name. */
  lemma CategoryLoopLinks(c: Catalog, after: Catalog, bookId: int, names: seq<string>)
    requires var k := LinkAll(c.categories, c.bookCategories, bookId, names, ToLower, NormalizeName);
      !k.failed && after.categories == k.table && after.bookCategories == k.links
    ensures CategoriesLinked(c, after, bookId, names)
  {
    LinkAllLinks(c.categories, c.bookCategories, bookId, names, ToLower, NormalizeName);
    LinkAllGrows(c.categories, c.bookCategories, bookId, names, ToLower, NormalizeName);
  }

  /** A successful `addBook` links the new book to one author per element of
      its author list. */
  lemma AddBookLinksAuthors(c: Catalog, req: AddBookRequest, upload: Upload)
    requires AddBookOutcome(c, req, upload).reply.Ok?
    ensures Complete(req)
    ensures AuthorsLinked(c, AddBookOutcome(c, req, upload).catalog, c.nextBookId, ListOf(req.authors))
  {
    AddBookSaved(c, req, upload);
    var pub := GetOrInsert(c.publishers, ToLower, NormalizeName, PublisherName(req));
    SaveAllSucceeded(c.(publishers := TableAfter(c.publishers, pub)),
                     NewBook(req, IdOf(c.publishers, pub), ImageUrl(upload)),
                     ListOf(req.authors), ListOf(req.categories));
    AuthorLoopLinks(c, AddBookOutcome(c, req, upload).catalog, c.nextBookId, ListOf(req.authors));
  }

  /** A successful `addBook` links the new book to one category per element
      of its category list. */
  lemma AddBookLinksCategories(c: Catalog, req: AddBookRequest, upload: Upload)
    requires AddBookOutcome(c, req, upload).reply.Ok?
    ensures Complete(req)
    ensures CategoriesLinked(c, AddBookOutcome(c, req, upload).catalog, c.nextBookId, ListOf(req.categories))
  {
    AddBookSaved(c, req, upload);
    var pub := GetOrInsert(c.publishers, ToLower, NormalizeName, PublisherName(req));
    SaveAllSucceeded(c.(publishers := TableAfter(c.publishers, pub)),
                     NewBook(req, IdOf(c.publishers, pub), ImageUrl(upload)),
                     ListOf(req.authors), ListOf(req.categories));
    CategoryLoopLinks(c, AddBookOutcome(c, req, upload).catalog, c.nextBookId, ListOf(req.categories));
  }

  /** The writes are not one transaction: when a category insert clashes,
      the reply is the error handler's 400 while the book row and all its
      author links stay. */
  lemma CategoryClashKeepsBook(c: Catalog, req: AddBookRequest, upload: Upload)
    requires Complete(req) && !upload.UploadFailed?
    requires !GetOrInsert(c.publishers, ToLower, NormalizeName, PublisherName(req)).Clash?
    requires !IsbnTaken(c.books, req.isbn.value)
    requires LinkAll(c.categories, c.bookCategories, c.nextBookId, ListOf(req.categories), ToLower, NormalizeName).failed
    ensures var o := AddBookOutcome(c, req, upload);
      && o.reply == ConstraintViolated()
      && c.nextBookId in o.catalog.books && o.catalog.books[c.nextBookId].isbn == req.isbn.value
      && |o.catalog.bookAuthors| == |c.bookAuthors| + |ListOf(req.authors)|
  {
    NormalizedLinkingNeverFails(c.authors, c.bookAuthors, c.nextBookId, ListOf(req.authors));
    LinkAllLinks(c.authors, c.bookAuthors, c.nextBookId, ListOf(req.authors), NormalizeName, NormalizeName);
  }

  /** Book ids stay below the next id whatever `addBook` does. */
  lemma AddBookKeepsIdsBelow(c: Catalog, req: AddBookRequest, upload: Upload)
    requires BookIdsBelow(c.books, c.nextBookId)
    ensures var o := AddBookOutcome(c, req, upload);
      BookIdsBelow(o.catalog.books, o.catalog.nextBookId) && c.nextBookId <= o.catalog.nextBookId
  {
    if Complete(req) {
      var pub := GetOrInsert(c.publishers, ToLower, NormalizeName, PublisherName(req));
      if !pub.Clash? && !upload.UploadFailed? {
        SaveAllKeepsIdsBelow(c.(publishers := TableAfter(c.publishers, pub)),
                             NewBook(req, IdOf(c.publishers, pub), ImageUrl(upload)),
                             ListOf(req.authors), ListOf(req.categories));
      }
    }
  }

  /** The writes after the publisher keep book ids below the next id. */
  lemma SaveAllKeepsIdsBelow(c: Catalog, book: Book, authorList: seq<string>, categoryList: seq<string>)
    requires BookIdsBelow(c.books, c.nextBookId)
    ensures var s := SaveAll(c, book, authorList, categoryList);
      BookIdsBelow(s.catalog.books, s.catalog.nextBookId) && c.nextBookId <= s.catalog.nextBookId
  {
  }
}
