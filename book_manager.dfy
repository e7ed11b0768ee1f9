/** The observable book service (MyBookshelf/BookManager.swift): an in-memory
    copy of the catalog's books, its reading-list subset, and a change flag.

    The storage manager behind it is a value of type `S` whose calls are not
    modelled: each call's outcome is a parameter of the method that makes
    it, so a store that succeeds, fails or returns any list is covered. A
    block queued on the main queue from a block already running there runs
    after that block finishes, as on the serial main queue. */
module BookService {
  import opened Foundation
  import opened Books

  /** `books.filter { $0.isInReadingList }` */
  function ReadingList(books: seq<Book>): (r: seq<Book>)
    ensures forall i :: 0 <= i < |r| ==> r[i] in books && r[i].isInReadingList
    ensures forall i :: 0 <= i < |books| && books[i].isInReadingList ==> books[i] in r
    ensures forall b :: multiset(r)[b] == if b.isInReadingList then multiset(books)[b] else 0
    ensures IsSubsequence(r, books)
  {
    var onList := (b: Book) => b.isInReadingList;
    FilterIsSubsequence(books, onList);
    assert forall b :: multiset(Filter(books, onList))[b] == if b.isInReadingList then multiset(books)[b] else 0 by {
      forall b ensures multiset(Filter(books, onList))[b] == if b.isInReadingList then multiset(books)[b] else 0 {
        FilterMultiplicity(books, onList, b);
      }
    }
    Filter(books, onList)
  }

  /** Of three books flagged true, false, true, the reading list holds the
      first and the third, in that order. */
  lemma ReadingListExample(a: Book, b: Book, c: Book)
    requires a.isInReadingList && !b.isInReadingList && c.isInReadingList
    ensures ReadingList([a, b, c]) == [a, c]
  {
    var onList := (x: Book) => x.isInReadingList;
    assert [a, b, c][1..] == [b, c] && [b, c][1..] == [c] && [c][1..] == [];
    assert Filter([c], onList) == [c];
    assert Filter([b, c], onList) == [c];
  }

  class BookManager<S> {
    var books: seq<Book>
    var readingListBooks: seq<Book>
    var dataChanged: bool
    var storageManager: S

    /** The reading list is always the one derived from `books`. */
    ghost predicate Valid()
      reads this
    {
      readingListBooks == ReadingList(books)
    }

    /** `init(storageManager:)` starts empty and loads; `fetched` is what
        the store's `fetchBooks` delivers. */
    constructor(storageManager: S, fetched: Result<seq<Book>, Error>)
      ensures Valid()
      ensures this.storageManager == storageManager
      ensures books == (if fetched.Ok? then fetched.value else [])
      ensures !dataChanged
    {
      this.storageManager := storageManager;
      books, readingListBooks, dataChanged := [], [], false;
      new;
      LoadBooks(fetched);
    }

    /** Replaces both lists on success, keeps them on failure, and clears
        the change flag either way. */
    method LoadBooks(fetched: Result<seq<Book>, Error>)
      requires Valid()
      modifies this
      ensures Valid()
      ensures storageManager == old(storageManager)
      ensures fetched.Ok? ==> books == fetched.value
      ensures fetched.Err? ==> books == old(books) && readingListBooks == old(readingListBooks)
      ensures !dataChanged
    {
      match fetched {
        case Ok(fetchedBooks) =>
          books := fetchedBooks;
          readingListBooks := ReadingList(fetchedBooks);
          dataChanged := false;
        case Err(_) =>
      }
      dataChanged := false;
    }

    /** The main-queue block that `addBook`, `updateBook` and `deleteBook`
        run on the store's answer `stored`. On success it asks for a reload,
        raises the change flag and reports success; on failure it reports the
        same error and touches nothing. The reload's own reply is queued
        behind this block, so it has not arrived yet: the lists are as they
        were, and `reloadQueued` says whether a reload is pending. */
    method Finish(stored: Result<(), Error>) returns (completion: Result<(), Error>, reloadQueued: bool)
      requires Valid()
      modifies this
      ensures Valid()
      ensures storageManager == old(storageManager)
      ensures books == old(books) && readingListBooks == old(readingListBooks)
      ensures completion == stored
      ensures reloadQueued == stored.Ok?
      ensures dataChanged == (stored.Ok? || old(dataChanged))
    {
      match stored {
        case Ok(unit) =>
          reloadQueued := true;
          dataChanged := true;
          completion := Ok(());
          assert unit == ();
        case Err(error) =>
          reloadQueued := false;
          completion := Err(error);
      }
    }

    /** `addBook`: the store's `addBook` answered `stored`; the main-queue
        block runs (`Finish`), then the reload it queued delivers `reloaded`. */
    method AddBook(book: Book, stored: Result<(), Error>, reloaded: Result<seq<Book>, Error>) returns (completion: Result<(), Error>)
      requires Valid()
      modifies this
      ensures Valid()
      ensures storageManager == old(storageManager)
      ensures completion == stored
      ensures stored.Ok? ==> !dataChanged
      ensures stored.Ok? && reloaded.Ok? ==> books == reloaded.value
      ensures stored.Ok? && reloaded.Err? ==> books == old(books) && readingListBooks == old(readingListBooks)
      ensures stored.Err? ==> books == old(books) && readingListBooks == old(readingListBooks)
                              && dataChanged == old(dataChanged)
    {
      var reloadQueued;
      completion, reloadQueued := Finish(stored);
      if reloadQueued {
        LoadBooks(reloaded);
      }
    }

    /** `updateBook`: the store's `updateBook` answered `stored`; the main-queue
        block runs (`Finish`), then the reload it queued delivers `reloaded`. */
    method UpdateBook(book: Book, stored: Result<(), Error>, reloaded: Result<seq<Book>, Error>) returns (completion: Result<(), Error>)
      requires Valid()
      modifies this
      ensures Valid()
      ensures storageManager == old(storageManager)
      ensures completion == stored
      ensures stored.Ok? ==> !dataChanged
      ensures stored.Ok? && reloaded.Ok? ==> books == reloaded.value
      ensures stored.Ok? && reloaded.Err? ==> books == old(books) && readingListBooks == old(readingListBooks)
      ensures stored.Err? ==> books == old(books) && readingListBooks == old(readingListBooks)
                              && dataChanged == old(dataChanged)
    {
      var reloadQueued;
      completion, reloadQueued := Finish(stored);
      if reloadQueued {
        LoadBooks(reloaded);
      }
    }

    /** `deleteBook`: the store's `deleteBook` answered `stored`; the main-queue
        block runs (`Finish`), then the reload it queued delivers `reloaded`. */
    method DeleteBook(book: Book, stored: Result<(), Error>, reloaded: Result<seq<Book>, Error>) returns (completion: Result<(), Error>)
      requires Valid()
      modifies this
      ensures Valid()
      ensures storageManager == old(storageManager)
      ensures completion == stored
      ensures stored.Ok? ==> !dataChanged
      ensures stored.Ok? && reloaded.Ok? ==> books == reloaded.value
      ensures stored.Ok? && reloaded.Err? ==> books == old(books) && readingListBooks == old(readingListBooks)
      ensures stored.Err? ==> books == old(books) && readingListBooks == old(readingListBooks)
                              && dataChanged == old(dataChanged)
    {
      var reloadQueued;
      completion, reloadQueued := Finish(stored);
      if reloadQueued {
        LoadBooks(reloaded);
      }
    }

    /** `reinitialize(with:)`: swap the store, empty both lists, raise the
        flag, then load from the new store. */
    method Reinitialize(newStorageManager: S, fetched: Result<seq<Book>, Error>)
      requires Valid()
      modifies this
      ensures Valid()
      ensures storageManager == newStorageManager
      ensures books == (if fetched.Ok? then fetched.value else [])
      ensures !dataChanged
    {
      storageManager := newStorageManager;
      books := [];
      readingListBooks := [];
      dataChanged := true;
      LoadBooks(fetched);
    }
  }
}
