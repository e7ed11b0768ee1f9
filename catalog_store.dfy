/** The local catalog store (MyBookshelf/CoreDataManager.swift): Book and
    Shelf entities in a persistent context, with each shelf's `bookCount`
    kept equal to the number of books that reference it.

    The persistent context is two maps from id to entity. Each operation is
    first stated as a function on a `Catalog` value; the class
    `CoreDataManager` performs it step by step and is proved to agree. */
module CatalogStore {
  import opened Foundation
  import opened Books
  import opened Shelves

  // ----- entities -----

  /** The largest value of `Int16`, the type of the stored `bookCount`. */
  const MaxInt16: int := 0x7FFF

  newtype Int16 = x: int | -0x8000 <= x <= 0x7FFF

  /** A BookEntity row. Core Data attributes are optional, so every text
      attribute and the id may be nil. */
  datatype BookEntity = BookEntity(
    id: Option<Uuid>,
    title: Option<string>,
    author: Option<string>,
    isbn13: Option<string>,
    isbn10: Option<string>,
    publisher: Option<string>,
    publishDate: Option<string>,
    coverImage: Option<Data>,
    shelfUuid: Option<Uuid>,
    isInReadingList: bool)

  /** A ShelfEntity row. */
  datatype ShelfEntity = ShelfEntity(id: Option<Uuid>, name: Option<string>, bookCount: Int16)

  /** The persistent context: the book rows and the shelf rows by id. */
  datatype Catalog = Catalog(books: map<Uuid, BookEntity>, shelves: map<Uuid, ShelfEntity>)

  const NotFoundCode: int := 404
  const ShelfNotFound: Error := Error("com.myapp", NotFoundCode, "Shelf not found")
  const BookNotFound: Error := Error("com.myapp", NotFoundCode, "Book not found")

  /** The ids of the books whose `shelfUuid` is `shelfId`. */
  function MembersOf(books: map<Uuid, BookEntity>, shelfId: Uuid): (ids: set<Uuid>)
    ensures forall id :: id in ids <==> id in books && books[id].shelfUuid == Some(shelfId)
  {
    set id | id in books && books[id].shelfUuid == Some(shelfId)
  }

  /** `context.count(for:)` with the predicate `shelfUuid == shelfId`. */
  function CountOn(books: map<Uuid, BookEntity>, shelfId: Uuid): nat {
    |MembersOf(books, shelfId)|
  }

  /** Every row is stored under its own id. */
  ghost predicate KeyedById(c: Catalog) {
    && (forall id :: id in c.books ==> c.books[id].id == Some(id))
    && (forall id :: id in c.shelves ==> c.shelves[id].id == Some(id))
  }

  /** The shelf invariant: every shelf's count is the number of books on it. */
  ghost predicate CountsAccurate(c: Catalog) {
    forall s :: s in c.shelves ==> c.shelves[s].bookCount as int == CountOn(c.books, s)
  }

  ghost predicate Valid(c: Catalog) {
    KeyedById(c) && CountsAccurate(c)
  }

  /** Recounting shelf `s` (when given and present) would not overflow `Int16`. */
  ghost predicate Fits(c: Catalog, s: Option<Uuid>) {
    s.Some? && s.value in c.shelves ==> CountOn(c.books, s.value) <= MaxInt16
  }

  // ----- fetching: the pure compactMap over fetched rows -----

  /** The `compactMap` closure of `fetchBooks`: rows without an id are
      dropped, nil text attributes read as "". */
  function ToBook(e: BookEntity): Option<Book> {
    if e.id.None? then None
    else Some(Book(e.id.value, e.title.GetOr(""), e.author.GetOr(""), e.isbn13.GetOr(""),
                   e.isbn10.GetOr(""), e.publisher.GetOr(""), e.publishDate.GetOr(""),
                   e.coverImage, e.shelfUuid, e.isInReadingList))
  }

  function CompactMapBooks(es: seq<BookEntity>): (r: seq<Book>)
    ensures |r| <= |es|
    ensures forall b :: b in r ==> exists e :: e in es && ToBook(e) == Some(b)
    ensures (forall j :: 0 <= j < |es| ==> es[j].id.Some?) ==>
              |r| == |es| && forall i :: 0 <= i < |r| ==> ToBook(es[i]) == Some(r[i])
  {
    if es == [] then []
    else (if ToBook(es[0]).Some? then [ToBook(es[0]).value] else []) + CompactMapBooks(es[1..])
  }

  /** The `compactMap` closure of `fetchShelves`. */
  function ToShelf(e: ShelfEntity): Option<Shelf> {
    if e.id.None? then None
    else Some(Shelf(e.id.value, e.name.GetOr(""), e.bookCount as int))
  }

  function CompactMapShelves(es: seq<ShelfEntity>): (r: seq<Shelf>)
    ensures |r| <= |es|
    ensures forall s :: s in r ==> exists e :: e in es && ToShelf(e) == Some(s)
    ensures (forall j :: 0 <= j < |es| ==> es[j].id.Some?) ==>
              |r| == |es| && forall i :: 0 <= i < |r| ==> ToShelf(es[i]) == Some(r[i])
  {
    if es == [] then []
    else (if ToShelf(es[0]).Some? then [ToShelf(es[0]).value] else []) + CompactMapShelves(es[1..])
  }

  predicate BookRowHasId(e: BookEntity) { e.id.Some? }

  predicate ShelfRowHasId(e: ShelfEntity) { e.id.Some? }

  /** `fetchBooks` returns exactly the rows that have an id, in fetch order,
      each read through `ToBook`. */
  lemma {:induction false} CompactMapBooksKeepsIdentified(es: seq<BookEntity>)
    ensures |CompactMapBooks(es)| == |Filter(es, BookRowHasId)|
    ensures forall i :: 0 <= i < |CompactMapBooks(es)| ==>
      ToBook(Filter(es, BookRowHasId)[i]) == Some(CompactMapBooks(es)[i])
  {
    if es != [] {
      CompactMapBooksKeepsIdentified(es[1..]);
    }
  }

  /** `fetchShelves` returns exactly the rows that have an id, in fetch
      order, each read through `ToShelf`. */
  lemma {:induction false} CompactMapShelvesKeepsIdentified(es: seq<ShelfEntity>)
    ensures |CompactMapShelves(es)| == |Filter(es, ShelfRowHasId)|
    ensures forall i :: 0 <= i < |CompactMapShelves(es)| ==>
      ToShelf(Filter(es, ShelfRowHasId)[i]) == Some(CompactMapShelves(es)[i])
  {
    if es != [] {
      CompactMapShelvesKeepsIdentified(es[1..]);
    }
  }

  /** A row with an id and every attribute nil reads as a book with empty
      strings, no cover, no shelf and not on the reading list; without an id
      it is dropped. */
  lemma FetchReadsNilAsEmpty(id: Uuid)
    ensures ToBook(BlankBookEntity().(id := Some(id))) == Some(Book(id, "", "", "", "", "", "", None, None, false))
    ensures ToBook(BlankBookEntity()) == None
    ensures ToShelf(ShelfEntity(Some(id), None, 3)) == Some(Shelf(id, "", 3))
  {
  }

  // ----- the operations on a Catalog value -----

  /** `addShelf`: a new row with the freshly generated id, the name and count 0. */
  function AddShelfSpec(c: Catalog, name: string, newId: Uuid): Catalog {
    c.(shelves := c.shelves[newId := ShelfEntity(Some(newId), Some(name), 0)])
  }

  /** `updateShelf`: renames the shelf, or reports 404. */
  function UpdateShelfSpec(c: Catalog, id: Uuid, newName: string): (Catalog, Result<(), Error>) {
    if id in c.shelves then (c.(shelves := c.shelves[id := c.shelves[id].(name := Some(newName))]), Ok(()))
    else (c, Err(ShelfNotFound))
  }

  /** `deleteShelf`: removes the shelf row only, or reports 404. */
  function DeleteShelfSpec(c: Catalog, id: Uuid): (Catalog, Result<(), Error>) {
    if id in c.shelves then (c.(shelves := c.shelves - {id}), Ok(()))
    else (c, Err(ShelfNotFound))
  }

  /** `updateShelfBookCount`: stores the number of books on the shelf as its
      count and returns it, or reports 404 when the shelf is missing. */
  function RecountSpec(c: Catalog, shelfId: Uuid): (Catalog, Result<int, Error>)
    requires Fits(c, Some(shelfId))
  {
    var n := CountOn(c.books, shelfId);
    if shelfId in c.shelves then
      (c.(shelves := c.shelves[shelfId := c.shelves[shelfId].(bookCount := n as Int16)]), Ok(n))
    else (c, Err(ShelfNotFound))
  }

  /** A recount of an optional shelf whose result is ignored. */
  function RecountIfAny(c: Catalog, shelfId: Option<Uuid>): Catalog
    requires Fits(c, shelfId)
  {
    if shelfId.Some? then RecountSpec(c, shelfId.value).0 else c
  }

  /** A freshly inserted BookEntity: every attribute nil, the flag false. */
  function BlankBookEntity(): BookEntity {
    BookEntity(None, None, None, None, None, None, None, None, None, false)
  }

  /** `updateBookEntity`: copies every field of the book except the id. */
  function UpdateBookEntity(e: BookEntity, b: Book): (r: BookEntity)
    ensures r.id == e.id
    ensures e.id.Some? ==> ToBook(r) == Some(b.(id := e.id.value))
  {
    e.(title := Some(b.title), author := Some(b.author), isbn13 := Some(b.isbn13),
       isbn10 := Some(b.isbn10), publisher := Some(b.publisher), publishDate := Some(b.publishDate),
       coverImage := b.coverImage, shelfUuid := b.shelfUuid, isInReadingList := b.isInReadingList)
  }

  /** The row `saveBook` leaves under the book's id: the existing row
      overwritten, or a new row with the book's id. */
  function SavedEntity(c: Catalog, b: Book): BookEntity {
    var row := if b.id in c.books then c.books[b.id] else BlankBookEntity().(id := Some(b.id));
    UpdateBookEntity(row, b)
  }

  /** The catalog right after `saveBook`'s `context.save()`, before the recounts. */
  function Upserted(c: Catalog, b: Book): Catalog {
    c.(books := c.books[b.id := SavedEntity(c, b)])
  }

  /** The shelf the stored row referenced before `saveBook`. */
  function OldShelf(c: Catalog, b: Book): Option<Uuid> {
    if b.id in c.books then c.books[b.id].shelfUuid else None
  }

  /** `saveBook`: upsert the row, then recount the old shelf, then the new one. */
  function SaveBookSpec(c: Catalog, b: Book): Catalog
    requires Valid(c) && Fits(Upserted(c, b), b.shelfUuid)
  {
    var c1 := Upserted(c, b);
    OldShelfFits(c, b);
    var c2 := RecountIfAny(c1, OldShelf(c, b));
    RecountIfAny(c2, b.shelfUuid)
  }

  /** `deleteBook`: removes the row and recounts its shelf, or reports 404. */
  function DeleteBookSpec(c: Catalog, id: Uuid): (Catalog, Result<(), Error>)
    requires Valid(c)
  {
    if id in c.books then
      var c1 := c.(books := c.books - {id});
      RemovalFits(c, id);
      (RecountIfAny(c1, c.books[id].shelfUuid), Ok(()))
    else (c, Err(BookNotFound))
  }

  // ----- how counts move -----

  /** Storing `e` under `id` moves the count of shelf `s` by at most one:
      minus one if the replaced row was on `s`, plus one if `e` is. */
  lemma CountAfterStore(books: map<Uuid, BookEntity>, id: Uuid, e: BookEntity, s: Uuid)
    ensures CountOn(books[id := e], s) + (if id in books && books[id].shelfUuid == Some(s) then 1 else 0)
         == CountOn(books, s) + (if e.shelfUuid == Some(s) then 1 else 0)
  {
    var before := MembersOf(books, s);
    var after := MembersOf(books[id := e], s);
    assert after - {id} == before - {id};
    assert |after| == |after - {id}| + (if id in after then 1 else 0);
    assert |before| == |before - {id}| + (if id in before then 1 else 0);
  }

  /** Removing the row `id` lowers the count of its own shelf by one and
      leaves every other count alone. */
  lemma CountAfterRemove(books: map<Uuid, BookEntity>, id: Uuid, s: Uuid)
    requires id in books
    ensures CountOn(books - {id}, s) + (if books[id].shelfUuid == Some(s) then 1 else 0) == CountOn(books, s)
  {
    var before := MembersOf(books, s);
    assert MembersOf(books - {id}, s) == before - {id};
    assert |before| == |before - {id}| + (if id in before then 1 else 0);
  }

  lemma OldShelfFits(c: Catalog, b: Book)
    requires Valid(c) && Fits(Upserted(c, b), b.shelfUuid)
    ensures Fits(Upserted(c, b), OldShelf(c, b))
  {
    var old_ := OldShelf(c, b);
    if old_.Some? && old_.value in c.shelves {
      CountAfterStore(c.books, b.id, SavedEntity(c, b), old_.value);
    }
  }

  lemma RemovalFits(c: Catalog, id: Uuid)
    requires Valid(c) && id in c.books
    ensures Fits(c.(books := c.books - {id}), c.books[id].shelfUuid)
  {
    var s := c.books[id].shelfUuid;
    if s.Some? && s.value in c.shelves {
      CountAfterRemove(c.books, id, s.value);
    }
  }

  /** A recount sets exactly the one count, to the number of books on the
      shelf, and reports 404 with nothing changed when the shelf is missing. */
  lemma RecountSetsCount(c: Catalog, shelfId: Uuid)
    requires Fits(c, Some(shelfId))
    ensures RecountSpec(c, shelfId).0.books == c.books
    ensures RecountSpec(c, shelfId).0.shelves.Keys == c.shelves.Keys
    ensures shelfId in c.shelves ==>
      && RecountSpec(c, shelfId).1 == Ok(CountOn(c.books, shelfId))
      && RecountSpec(c, shelfId).0.shelves[shelfId].bookCount as int == CountOn(c.books, shelfId)
      && RecountSpec(c, shelfId).0.shelves[shelfId].name == c.shelves[shelfId].name
    ensures shelfId !in c.shelves ==> RecountSpec(c, shelfId) == (c, Err(ShelfNotFound))
    ensures forall s :: s in c.shelves && s != shelfId ==> RecountSpec(c, shelfId).0.shelves[s] == c.shelves[s]
  {
  }

  // ----- the invariant is kept -----

  /** A new shelf starts at 0 and, because its id is fresh (no shelf has it
      and no book references it), that count is right. */
  lemma AddShelfKeepsValid(c: Catalog, name: string, newId: Uuid)
    requires Valid(c)
    requires newId !in c.shelves && forall id :: id in c.books ==> c.books[id].shelfUuid != Some(newId)
    ensures Valid(AddShelfSpec(c, name, newId))
    ensures AddShelfSpec(c, name, newId).books == c.books
    ensures AddShelfSpec(c, name, newId).shelves.Keys == c.shelves.Keys + {newId}
    ensures AddShelfSpec(c, name, newId).shelves[newId] == ShelfEntity(Some(newId), Some(name), 0)
    ensures forall s :: s in c.shelves ==> AddShelfSpec(c, name, newId).shelves[s] == c.shelves[s]
  {
    var c' := AddShelfSpec(c, name, newId);
    assert MembersOf(c.books, newId) == {};
    forall s | s in c'.shelves
      ensures c'.shelves[s].bookCount as int == CountOn(c'.books, s)
    {
      if s != newId {
        assert c'.shelves[s] == c.shelves[s];
      }
    }
    assert c'.shelves.Keys == c.shelves.Keys + {newId};
  }

  /** `updateShelf` renames and nothing else; on 404 nothing changes. */
  lemma UpdateShelfOnlyRenames(c: Catalog, id: Uuid, newName: string)
    requires Valid(c)
    ensures Valid(UpdateShelfSpec(c, id, newName).0)
    ensures UpdateShelfSpec(c, id, newName).0.books == c.books
    ensures UpdateShelfSpec(c, id, newName).0.shelves.Keys == c.shelves.Keys
    ensures id in c.shelves ==>
      UpdateShelfSpec(c, id, newName).0.shelves[id] == c.shelves[id].(name := Some(newName))
    ensures forall s :: s in c.shelves && s != id ==> UpdateShelfSpec(c, id, newName).0.shelves[s] == c.shelves[s]
    ensures UpdateShelfSpec(c, id, newName).1.Err? <==> id !in c.shelves
    ensures id !in c.shelves ==> UpdateShelfSpec(c, id, newName) == (c, Err(ShelfNotFound))
  {
  }

  /** `deleteShelf` leaves every book row, including those that now
      reference a shelf that no longer exists. */
  lemma DeleteShelfLeavesBooks(c: Catalog, id: Uuid)
    requires Valid(c)
    ensures Valid(DeleteShelfSpec(c, id).0)
    ensures DeleteShelfSpec(c, id).0.books == c.books
    ensures DeleteShelfSpec(c, id).0.shelves.Keys == c.shelves.Keys - {id}
    ensures DeleteShelfSpec(c, id).1.Err? <==> id !in c.shelves
    ensures id !in c.shelves ==> DeleteShelfSpec(c, id) == (c, Err(ShelfNotFound))
    ensures id in c.shelves ==> MembersOf(DeleteShelfSpec(c, id).0.books, id) == MembersOf(c.books, id)
  {
  }

  /** The recount of a shelf whose count was already right changes nothing. */
  lemma RecountAccurateIsIdentity(c: Catalog, s: Option<Uuid>)
    requires Valid(c) && Fits(c, s)
    ensures RecountIfAny(c, s) == c
  {
    if s.Some? && s.value in c.shelves {
      var c' := RecountIfAny(c, s);
      assert c'.shelves[s.value] == c.shelves[s.value];
      assert c'.shelves == c.shelves;
    }
  }

  /** Recounting shelves keeps `KeyedById` and, for every shelf, either sets
      the count right or leaves it as it was. */
  lemma RecountIfAnyFacts(c: Catalog, s: Option<Uuid>)
    requires Fits(c, s)
    ensures RecountIfAny(c, s).books == c.books
    ensures RecountIfAny(c, s).shelves.Keys == c.shelves.Keys
    ensures KeyedById(c) ==> KeyedById(RecountIfAny(c, s))
    ensures s.Some? && s.value in c.shelves ==>
      RecountIfAny(c, s).shelves[s.value] == c.shelves[s.value].(bookCount := CountOn(c.books, s.value) as Int16)
    ensures forall t :: t in c.shelves && Some(t) != s ==> RecountIfAny(c, s).shelves[t] == c.shelves[t]
  {
  }

  /** `saveBook` is an upsert: exactly one row has the book's id afterwards,
      it reads back as the book, and every other row is untouched. */
  lemma SaveBookUpserts(c: Catalog, b: Book)
    requires Valid(c) && Fits(Upserted(c, b), b.shelfUuid)
    ensures SaveBookSpec(c, b).books.Keys == c.books.Keys + {b.id}
    ensures |SaveBookSpec(c, b).books| == |c.books| + (if b.id in c.books then 0 else 1)
    ensures ToBook(SaveBookSpec(c, b).books[b.id]) == Some(b)
    ensures forall id :: id in c.books && id != b.id ==> SaveBookSpec(c, b).books[id] == c.books[id]
    ensures SaveBookSpec(c, b).shelves.Keys == c.shelves.Keys
  {
    OldShelfFits(c, b);
    var c1 := Upserted(c, b);
    RecountIfAnyFacts(c1, OldShelf(c, b));
    RecountIfAnyFacts(RecountIfAny(c1, OldShelf(c, b)), b.shelfUuid);
  }

  /** After `saveBook`, shelf `s` holds the number of books on it. */
  lemma SaveBookCountOn(c: Catalog, b: Book, s: Uuid)
    requires Valid(c) && Fits(Upserted(c, b), b.shelfUuid) && s in c.shelves
    ensures SaveBookSpec(c, b).shelves[s].bookCount as int == CountOn(SaveBookSpec(c, b).books, s)
  {
    OldShelfFits(c, b);
    var c1 := Upserted(c, b);
    var c2 := RecountIfAny(c1, OldShelf(c, b));
    RecountIfAnyFacts(c1, OldShelf(c, b));
    RecountIfAnyFacts(c2, b.shelfUuid);
    var c3 := SaveBookSpec(c, b);
    assert c3 == RecountIfAny(c2, b.shelfUuid);
    if Some(s) == b.shelfUuid {
      assert c3.shelves[s].bookCount == CountOn(c2.books, s) as Int16;
    } else if Some(s) == OldShelf(c, b) {
      assert c3.shelves[s] == c2.shelves[s];
      assert c2.shelves[s].bookCount == CountOn(c1.books, s) as Int16;
    } else {
      assert c3.shelves[s] == c.shelves[s];
      CountAfterStore(c.books, b.id, SavedEntity(c, b), s);
    }
  }

  /** After `saveBook` the old and the new shelf hold the number of books
      on them, the other shelves are untouched, and the invariant holds. */
  lemma SaveBookKeepsValid(c: Catalog, b: Book)
    requires Valid(c) && Fits(Upserted(c, b), b.shelfUuid)
    ensures Valid(SaveBookSpec(c, b))
    ensures forall s :: s in c.shelves && Some(s) != OldShelf(c, b) && Some(s) != b.shelfUuid ==>
      SaveBookSpec(c, b).shelves[s] == c.shelves[s]
    ensures forall s :: s in c.shelves ==> SaveBookSpec(c, b).shelves[s].name == c.shelves[s].name
  {
    OldShelfFits(c, b);
    var c1 := Upserted(c, b);
    var c2 := RecountIfAny(c1, OldShelf(c, b));
    RecountIfAnyFacts(c1, OldShelf(c, b));
    RecountIfAnyFacts(c2, b.shelfUuid);
    var c3 := SaveBookSpec(c, b);
    assert KeyedById(c1);
    forall s | s in c3.shelves
      ensures c3.shelves[s].bookCount as int == CountOn(c3.books, s)
    {
      SaveBookCountOn(c, b, s);
    }
  }

  /** Saving the same book twice is saving it once. */
  lemma SaveBookIdempotent(c: Catalog, b: Book)
    requires Valid(c) && Fits(Upserted(c, b), b.shelfUuid)
    ensures Valid(SaveBookSpec(c, b)) && Fits(Upserted(SaveBookSpec(c, b), b), b.shelfUuid)
    ensures SaveBookSpec(SaveBookSpec(c, b), b) == SaveBookSpec(c, b)
  {
    SaveBookKeepsValid(c, b);
    SaveBookUpserts(c, b);
    var c3 := SaveBookSpec(c, b);
    assert SavedEntity(c3, b) == c3.books[b.id];
    assert Upserted(c3, b) == c3;
    assert OldShelf(c3, b) == b.shelfUuid;
    RecountAccurateIsIdentity(c3, b.shelfUuid);
  }

  /** `deleteBook`: on 404 nothing changes; otherwise the row is gone, the
      invariant holds, and only the former shelf's count moves. */
  lemma DeleteBookKeepsValid(c: Catalog, id: Uuid)
    requires Valid(c)
    ensures Valid(DeleteBookSpec(c, id).0)
    ensures DeleteBookSpec(c, id).1.Err? <==> id !in c.books
    ensures id !in c.books ==> DeleteBookSpec(c, id) == (c, Err(BookNotFound))
    ensures DeleteBookSpec(c, id).0.books == c.books - {id}
    ensures DeleteBookSpec(c, id).0.shelves.Keys == c.shelves.Keys
    ensures id in c.books ==> forall s :: s in c.shelves && Some(s) != c.books[id].shelfUuid ==>
      DeleteBookSpec(c, id).0.shelves[s] == c.shelves[s]
  {
    if id in c.books {
      var c1 := c.(books := c.books - {id});
      RemovalFits(c, id);
      RecountIfAnyFacts(c1, c.books[id].shelfUuid);
      var c2 := DeleteBookSpec(c, id).0;
      forall s | s in c2.shelves
        ensures c2.shelves[s].bookCount as int == CountOn(c2.books, s)
      {
        CountAfterRemove(c.books, id, s);
      }
    }
  }

  /** The worked example: a new shelf counts 0, putting a book on it counts
      1, and moving the book off the shelf counts 0 again. */
  lemma ShelfCountScenario(fiction: Uuid, a: Book)
    requires a.shelfUuid == Some(fiction)
    ensures var c0 := AddShelfSpec(Catalog(map[], map[]), "Fiction", fiction);
            && c0.shelves[fiction].bookCount == 0
            && Valid(c0) && Fits(Upserted(c0, a), a.shelfUuid)
            && var c1 := SaveBookSpec(c0, a);
            && c1.shelves[fiction].bookCount == 1
            && Valid(c1) && Fits(Upserted(c1, a.(shelfUuid := None)), None)
            && SaveBookSpec(c1, a.(shelfUuid := None)).shelves[fiction].bookCount == 0
  {
    var c0 := AddShelfSpec(Catalog(map[], map[]), "Fiction", fiction);
    AddShelfKeepsValid(Catalog(map[], map[]), "Fiction", fiction);
    assert CountOn(Upserted(c0, a).books, fiction) == 1 by {
      assert MembersOf(Upserted(c0, a).books, fiction) == {a.id};
    }
    var c1 := SaveBookSpec(c0, a);
    SaveBookKeepsValid(c0, a);
    SaveBookUpserts(c0, a);
    var a' := a.(shelfUuid := None);
    SaveBookKeepsValid(c1, a');
    assert MembersOf(SaveBookSpec(c1, a').books, fiction) == {};
  }

  // ----- the store itself -----

  /** `context.fetch` of every row of one entity: the rows of `m`, one per
      id, in an order the store chooses. */
  method FetchAll<V(==)>(m: map<Uuid, V>) returns (rows: seq<V>, ghost order: seq<Uuid>)
    ensures |rows| == |order| == |m|
    ensures forall i :: 0 <= i < |order| ==> order[i] in m && rows[i] == m[order[i]]
    ensures forall i, j :: 0 <= i < j < |order| ==> order[i] != order[j]
    ensures forall id :: id in m ==> id in order
    ensures |rows| == |m| && forall v :: v in rows <==> v in m.Values
  {
    var pending := m.Keys;
    rows, order := [], [];
    while pending != {}
      invariant pending <= m.Keys
      invariant |rows| == |order| && |order| + |pending| == |m|
      invariant forall i :: 0 <= i < |order| ==> order[i] in m && order[i] !in pending && rows[i] == m[order[i]]
      invariant forall i, j :: 0 <= i < j < |order| ==> order[i] != order[j]
      invariant forall id :: id in m && id !in pending ==> id in order
      decreases |pending|
    {
      var id :| id in pending;
      rows, order := rows + [m[id]], order + [id];
      pending := pending - {id};
    }
    forall v | v in m.Values
      ensures v in rows
    {
      var id :| id in m && m[id] == v;
      var i :| 0 <= i < |order| && order[i] == id;
      assert rows[i] == v;
    }
  }

  datatype EntityName = ShelfEntityName | BookEntityName

  /** `CoreDataManager`: the persistent context's two tables, changed in
      place by each operation. */
  class CoreDataManager {
    var books: map<Uuid, BookEntity>
    var shelves: map<Uuid, ShelfEntity>

    function State(): Catalog
      reads this
    {
      Catalog(books, shelves)
    }

    /** Opens the persistent store, whose contents are `persisted`. */
    constructor(persisted: Catalog)
      ensures State() == persisted
    {
      books, shelves := persisted.books, persisted.shelves;
    }

    method FetchShelves() returns (r: seq<Shelf>)
      requires Valid(State())
      ensures |r| == |shelves|
      ensures forall i :: 0 <= i < |r| ==> r[i].id in shelves && ToShelf(shelves[r[i].id]) == Some(r[i])
      ensures forall i :: 0 <= i < |r| ==> r[i].bookCount == CountOn(books, r[i].id)
      ensures forall i, j :: 0 <= i < j < |r| ==> r[i].id != r[j].id
      ensures forall id :: id in shelves ==> exists i :: 0 <= i < |r| && r[i].id == id
    {
      var rows, order := FetchAll(shelves);
      r := CompactMapShelves(rows);
      forall i | 0 <= i < |r|
        ensures r[i].id == order[i] && ToShelf(shelves[order[i]]) == Some(r[i])
      {
        assert rows[i] == shelves[order[i]];
      }
      forall id | id in shelves
        ensures exists i :: 0 <= i < |r| && r[i].id == id
      {
        var i :| 0 <= i < |order| && order[i] == id;
        assert r[i].id == id;
      }
    }

    method AddShelf(name: string, newId: Uuid) returns (r: Result<(), Error>)
      requires Valid(State())
      requires newId !in shelves && forall id :: id in books ==> books[id].shelfUuid != Some(newId)
      modifies this
      ensures Valid(State())
      ensures State() == AddShelfSpec(old(State()), name, newId) && r == Ok(())
    {
      AddShelfKeepsValid(State(), name, newId);
      shelves := shelves[newId := ShelfEntity(Some(newId), Some(name), 0)];
      r := Ok(());
    }

    method UpdateShelf(id: Uuid, newName: string) returns (r: Result<(), Error>)
      requires Valid(State())
      modifies this
      ensures Valid(State())
      ensures (State(), r) == UpdateShelfSpec(old(State()), id, newName)
    {
      UpdateShelfOnlyRenames(State(), id, newName);
      if id in shelves {
        shelves := shelves[id := shelves[id].(name := Some(newName))];
        r := Ok(());
      } else {
        r := Err(ShelfNotFound);
      }
    }

    method DeleteShelf(id: Uuid) returns (r: Result<(), Error>)
      requires Valid(State())
      modifies this
      ensures Valid(State())
      ensures (State(), r) == DeleteShelfSpec(old(State()), id)
    {
      DeleteShelfLeavesBooks(State(), id);
      if id in shelves {
        shelves := shelves - {id};
        r := Ok(());
      } else {
        r := Err(ShelfNotFound);
      }
    }

    method FetchBooks() returns (r: seq<Book>)
      requires Valid(State())
      ensures |r| == |books|
      ensures forall i :: 0 <= i < |r| ==> r[i].id in books && ToBook(books[r[i].id]) == Some(r[i])
      ensures forall i, j :: 0 <= i < j < |r| ==> r[i].id != r[j].id
      ensures forall id :: id in books ==> exists i :: 0 <= i < |r| && r[i].id == id
    {
      var rows, order := FetchAll(books);
      r := CompactMapBooks(rows);
      forall i | 0 <= i < |r|
        ensures r[i].id == order[i] && ToBook(books[order[i]]) == Some(r[i])
      {
        assert rows[i] == books[order[i]];
      }
      forall id | id in books
        ensures exists i :: 0 <= i < |r| && r[i].id == id
      {
        var i :| 0 <= i < |order| && order[i] == id;
        assert r[i].id == id;
      }
    }

    /** An unfinished stub: there is never anything to export. */
    method ExportData() returns (r: Option<Data>)
      ensures r == None
    {
      r := None;
    }

    /** An unfinished stub: importing always reports failure. */
    method ImportData(data: Data) returns (ok: bool)
      ensures !ok
    {
      ok := false;
    }

    predicate Cleared(name: EntityName)
      reads this
    {
      match name
      case ShelfEntityName => shelves == map[]
      case BookEntityName => books == map[]
    }

    /** An `NSBatchDeleteRequest` for every row of one entity. */
    method BatchDelete(name: EntityName)
      modifies this
      ensures Cleared(name)
      ensures name == ShelfEntityName ==> books == old(books)
      ensures name == BookEntityName ==> shelves == old(shelves)
    {
      match name
      case ShelfEntityName => shelves := map[];
      case BookEntityName => books := map[];
    }

    method ClearAllData() returns (r: Result<(), Error>)
      modifies this
      ensures books == map[] && shelves == map[] && r == Ok(())
      ensures Valid(State())
    {
      var entityNames := [ShelfEntityName, BookEntityName];
      for i := 0 to |entityNames|
        invariant forall j :: 0 <= j < i ==> Cleared(entityNames[j])
      {
        BatchDelete(entityNames[i]);
      }
      assert Cleared(entityNames[0]) && Cleared(entityNames[1]);
      r := Ok(());
    }

    method SaveBook(book: Book) returns (r: Result<(), Error>)
      requires Valid(State()) && Fits(Upserted(State(), book), book.shelfUuid)
      modifies this
      ensures Valid(State())
      ensures State() == SaveBookSpec(old(State()), book) && r == Ok(())
    {
      ghost var c0 := State();
      var oldShelfUuid := if book.id in books then books[book.id].shelfUuid else None;
      var bookEntity := if book.id in books then books[book.id] else BlankBookEntity().(id := Some(book.id));
      bookEntity := UpdateBookEntity(bookEntity, book);
      books := books[book.id := bookEntity];
      OldShelfFits(c0, book);
      RecountIfAnyFacts(State(), oldShelfUuid);
      if oldShelfUuid.Some? {
        var ignored := UpdateShelfBookCount(oldShelfUuid.value);
      }
      if book.shelfUuid.Some? {
        var ignored := UpdateShelfBookCount(book.shelfUuid.value);
      }
      r := Ok(());
      SaveBookKeepsValid(c0, book);
    }

    method DeleteBook(book: Book) returns (r: Result<(), Error>)
      requires Valid(State())
      modifies this
      ensures Valid(State())
      ensures (State(), r) == DeleteBookSpec(old(State()), book.id)
    {
      ghost var c0 := State();
      DeleteBookKeepsValid(c0, book.id);
      if book.id in books {
        var shelfUuid := books[book.id].shelfUuid;
        books := books - {book.id};
        RemovalFits(c0, book.id);
        if shelfUuid.Some? {
          var ignored := UpdateShelfBookCount(shelfUuid.value);
        }
        r := Ok(());
      } else {
        r := Err(BookNotFound);
      }
    }

    /** Called between steps of other operations, so it does not require
        the invariant. */
    method UpdateShelfBookCount(shelfId: Uuid) returns (r: Result<int, Error>)
      requires Fits(State(), Some(shelfId))
      modifies this
      ensures (State(), r) == RecountSpec(old(State()), shelfId)
    {
      var bookCount := CountOn(books, shelfId);
      if shelfId in shelves {
        shelves := shelves[shelfId := shelves[shelfId].(bookCount := bookCount as Int16)];
        r := Ok(bookCount);
      } else {
        r := Err(ShelfNotFound);
      }
    }
  }
}
