# MyBookshelf local catalog, in Dafny

MyBookshelf is an iOS app for cataloguing a personal library. Books are
placed on shelves, flagged for a reading list, searched, and added by
scanning their barcode. This project models the app's local catalog and the
small pieces of state logic on top of it, and proves properties of that
model.

- **Catalog store** (`catalog_store.dfy`, module `CatalogStore`). This is the
  Core Data store of `CoreDataManager`. The persistent context is two maps
  from id to row: `BookEntity` and `ShelfEntity`.
  - Each operation is first a function on a `Catalog` value (`AddShelfSpec`,
    `SaveBookSpec`, ...).
  - The class `CoreDataManager` performs each operation step by step, and
    its methods are proved to agree with those functions.
  - The central invariant is `Valid`: every row is stored under its own id,
    and every shelf's stored `bookCount` equals the number of book rows whose
    `shelfUuid` is that shelf.
- **Book record** (`book.dfy`, module `Books`). It covers the `Book` struct,
  its memberwise initialiser and its `Codable` form. The coding container is
  modelled as a map from key to value.
- **Shelf record** (`shelf.dfy`, module `Shelves`).
- **Observable services** (`book_manager.dfy`, `shelf_manager.dfy`). These
  are the `BookManager` and `ShelfManager` classes, holding in-memory lists
  and a `dataChanged` flag. The storage manager behind them is opaque. The
  outcome of each of its calls is a method parameter, so every success,
  failure or fetched list is covered.
- **Shelf detail filter** (`shelf_detail.dfy`, module `ShelfDetail`). This is
  the `filteredBooks` search filter and the `deleteBooks(at:)` loop.
- **Scanner de-duplication** (`camera_scanner.dfy`, module `Scanner`). This is
  the state machine in `CameraScannerView` that reports a scanned barcode
  once until it disappears. It is modelled twice:
  - as pure step functions over `ScanState`, with `Run` over a sequence of
    events;
  - as the class `CameraScannerView`, whose methods are proved to follow those
    steps.
- **Shared definitions** (`foundation.dfy`). These are `Option`, `Result`,
  the error record, an order-preserving `Filter`, and the subsequence
  relation used to state "order-preserving".

## Model

| member | source | states |
|---|---|---|
| Books.NewBook | MyBookshelf/Book.swift:15-26 | every field of the built book is the argument given |
| Books.NewBookDefaults | MyBookshelf/Book.swift:15 | omitted arguments give no cover image, no shelf and not on the reading list |
| Books.Encode | MyBookshelf/Book.swift:28-30 | the encoded container never holds an `id` key and always holds the seven required keys |
| Books.EncodeKeys | MyBookshelf/Book.swift:28-30 | an encoded book holds the seven required keys, plus `coverImage`/`shelfUuid` exactly when set, and never an `id` key |
| Books.Decode | MyBookshelf/Book.swift:32-44 | a decoded book has the fresh id; every required key was present; title, author and reading-list flag are the values stored under their keys |
| Books.DecodeSucceedsIff | MyBookshelf/Book.swift:32-44 | decoding succeeds if and only if every key holds a value of its type, with optional keys also allowed to be absent or null |
| Books.DecodeMissingRequiredFails | MyBookshelf/Book.swift:35-40 | a missing `title`, `author`, `isbn13`, `isbn10`, `publisher`, `publishDate` or `isInReadingList` makes decoding fail |
| Books.DecodeMintsId | MyBookshelf/Book.swift:34 | the decoded id is the freshly generated one, and an `id` entry in the container changes nothing; a missing `coverImage`/`shelfUuid` decodes to nil (lines 41-42) |
| Books.RoundTrip | MyBookshelf/Book.swift:28-44 | decoding an encoded book gives the same book in every field except `id`, which is the fresh one |
| Books.DecodeThenEncode | MyBookshelf/Book.swift:28-44 | re-encoding a decoded container gives back its coding-key entries, without null optionals and foreign keys |
| CatalogStore.CompactMapBooks | MyBookshelf/CoreDataManager.swift:92-104 | the fetched list is no longer than the rows; every book comes from a row; when every row has an id, book i is row i |
| CatalogStore.CompactMapShelves | MyBookshelf/CoreDataManager.swift:23-26 | the same for shelf rows |
| CatalogStore.CompactMapBooksKeepsIdentified | MyBookshelf/CoreDataManager.swift:92-104 | the fetched books are exactly the rows with an id, in fetch order, each read with nil strings as "" |
| CatalogStore.CompactMapShelvesKeepsIdentified | MyBookshelf/CoreDataManager.swift:23-26 | the fetched shelves are exactly the rows with an id, in fetch order |
| CatalogStore.FetchReadsNilAsEmpty | MyBookshelf/CoreDataManager.swift:93-103 | a row whose attributes are all nil reads as empty strings, no cover, no shelf, off the reading list; a row without an id is dropped |
| CatalogStore.FetchAll | MyBookshelf/CoreDataManager.swift:22 | `context.fetch` returns every row of the table exactly once, in some order: as many rows as stored, and a value is fetched if and only if it is stored |
| CatalogStore.CoreDataManager.constructor | MyBookshelf/CoreDataManager.swift:8-15 | the opened store holds exactly the persisted rows |
| CatalogStore.CoreDataManager.FetchShelves | MyBookshelf/CoreDataManager.swift:17-31 | one shelf per stored row, ids distinct, each read from its row; every count equals the number of books on the shelf |
| CatalogStore.CoreDataManager.FetchBooks | MyBookshelf/CoreDataManager.swift:86-109 | one book per stored row, ids distinct, each read from its row |
| CatalogStore.CoreDataManager.AddShelf | MyBookshelf/CoreDataManager.swift:33-46 | inserts one shelf with the fresh id, the name and count 0; nothing else changes; the invariant holds |
| CatalogStore.AddShelfKeepsValid | MyBookshelf/CoreDataManager.swift:33-46 | adding a shelf with a fresh id keeps the invariant and adds exactly that key, holding the fresh id, the name and count 0; the other shelves and all books are as they were |
| CatalogStore.CoreDataManager.UpdateShelf | MyBookshelf/CoreDataManager.swift:48-65 | the new state and result are those of `UpdateShelfSpec` |
| CatalogStore.UpdateShelfOnlyRenames | MyBookshelf/CoreDataManager.swift:48-65 | only the named shelf's name changes; a missing shelf fails with the 404 "Shelf not found" error and changes nothing; the invariant holds |
| CatalogStore.CoreDataManager.DeleteShelf | MyBookshelf/CoreDataManager.swift:67-84 | the new state and result are those of `DeleteShelfSpec` |
| CatalogStore.DeleteShelfLeavesBooks | MyBookshelf/CoreDataManager.swift:67-84 | removes only that shelf and no book, so references to it dangle; a missing shelf fails with 404 and changes nothing; the invariant holds |
| CatalogStore.CoreDataManager.UpdateShelfBookCount | MyBookshelf/CoreDataManager.swift:214-235 | the new state and result are those of `RecountSpec` |
| CatalogStore.RecountSetsCount | MyBookshelf/CoreDataManager.swift:214-235 | the shelf's count becomes the number of books whose `shelfUuid` is the shelf, and that number is returned; a missing shelf gives 404 and no change; no other shelf and no book changes |
| CatalogStore.RecountIfAnyFacts | MyBookshelf/CoreDataManager.swift:163-168 | a recount with an ignored result sets only that shelf's count, or changes nothing |
| CatalogStore.RecountAccurateIsIdentity | MyBookshelf/CoreDataManager.swift:214-235 | recounting a shelf whose count is already right changes nothing |
| CatalogStore.CountAfterStore | MyBookshelf/CoreDataManager.swift:158-160 | storing a row moves each shelf's book count by the row's old and new shelf membership, and by nothing else |
| CatalogStore.CountAfterRemove | MyBookshelf/CoreDataManager.swift:198-199 | deleting a row lowers its own shelf's count by one and leaves the others |
| CatalogStore.UpdateBookEntity | MyBookshelf/CoreDataManager.swift:176-186 | the row keeps its id, and a row with an id reads back as the book under that id: every other field is overwritten |
| CatalogStore.CoreDataManager.SaveBook | MyBookshelf/CoreDataManager.swift:138-174 | the new state is `SaveBookSpec`, the result is success, and the invariant holds |
| CatalogStore.SaveBookUpserts | MyBookshelf/CoreDataManager.swift:138-186 | afterwards exactly one row has the book's id; the row count grows by one only for a new id; that row reads back as the book; other rows are untouched |
| CatalogStore.SaveBookCountOn | MyBookshelf/CoreDataManager.swift:162-168 | after saving, every existing shelf's count equals the number of books on it |
| CatalogStore.SaveBookKeepsValid | MyBookshelf/CoreDataManager.swift:147-170 | the invariant holds afterwards; only the old and new shelves' counts can change; no shelf is renamed; a missing shelf's 404 is ignored |
| CatalogStore.SaveBookIdempotent | MyBookshelf/CoreDataManager.swift:138-186 | saving the same book twice gives the same store as saving it once |
| CatalogStore.CoreDataManager.DeleteBook | MyBookshelf/CoreDataManager.swift:188-212 | the new state and result are those of `DeleteBookSpec`, and the invariant holds |
| CatalogStore.DeleteBookKeepsValid | MyBookshelf/CoreDataManager.swift:188-212 | a missing id fails with the 404 "Book not found" error and changes nothing; otherwise the row is gone, the invariant holds, and only the former shelf's count may change |
| CatalogStore.CoreDataManager.BatchDelete | MyBookshelf/CoreDataManager.swift:127-129 | empties the named table and leaves the other |
| CatalogStore.CoreDataManager.ClearAllData | MyBookshelf/CoreDataManager.swift:121-136 | after the loop both tables are empty, the result is success, and the invariant holds |
| CatalogStore.CoreDataManager.ExportData | MyBookshelf/CoreDataManager.swift:111-114 | always returns nil |
| CatalogStore.CoreDataManager.ImportData | MyBookshelf/CoreDataManager.swift:116-119 | always reports failure |
| CatalogStore.ShelfCountScenario | MyBookshelf/CoreDataManager.swift:33-46 | worked example: a new shelf counts 0, saving a book onto it makes the count 1, and moving the book off makes it 0 again |
| BookService.ReadingList | MyBookshelf/BookManager.swift:22 | the reading list holds exactly the books flagged for it, each as often as in `books`, as an order-preserving subsequence |
| BookService.ReadingListExample | MyBookshelf/BookManager.swift:22 | of books flagged true, false, true, the first and third are kept, in order |
| BookService.BookManager.constructor | MyBookshelf/BookManager.swift:11-14 | starts empty and loads: holds the fetched books on success, none on failure; flag clear |
| BookService.BookManager.LoadBooks | MyBookshelf/BookManager.swift:16-30 | on success `books` is the fetched list and the reading list is derived from it; on failure both lists are kept; the flag is cleared either way |
| BookService.BookManager.Finish | MyBookshelf/BookManager.swift:34-42 | the main-queue block: on store success it queues a reload, raises the flag and reports success, with the lists not yet changed; on failure it passes the same error and changes nothing |
| BookService.BookManager.AddBook | MyBookshelf/BookManager.swift:32-45 | passes the store's answer to the completion; on success the queued reload then replaces the lists (or keeps them if it fails) and clears the flag; on failure nothing changes |
| BookService.BookManager.UpdateBook | MyBookshelf/BookManager.swift:47-60 | passes the store's answer to the completion; on success the queued reload then replaces the lists (or keeps them if it fails) and clears the flag; on failure nothing changes |
| BookService.BookManager.DeleteBook | MyBookshelf/BookManager.swift:62-75 | passes the store's answer to the completion; on success the queued reload then replaces the lists (or keeps them if it fails) and clears the flag; on failure nothing changes |
| BookService.BookManager.Reinitialize | MyBookshelf/BookManager.swift:77-83 | swaps the store, empties both lists, then loads from the new store; the flag ends cleared |
| ShelfService.ShelfManager.constructor | MyBookshelf/ShelfManager.swift:10-13 | starts empty and loads the shelves |
| ShelfService.ShelfManager.LoadShelves | MyBookshelf/ShelfManager.swift:15-27 | on success the list is the fetched one; on failure it is kept; the flag is cleared either way |
| ShelfService.ShelfManager.Forwarded | MyBookshelf/ShelfManager.swift:29-33 | the completion is called with the store's answer and then with success, so twice; the flag is raised; the list is untouched |
| ShelfService.ShelfManager.AddShelf | MyBookshelf/ShelfManager.swift:29-33 | as `Forwarded`: reports success even after a store failure |
| ShelfService.ShelfManager.UpdateShelf | MyBookshelf/ShelfManager.swift:35-39 | as `Forwarded` |
| ShelfService.ShelfManager.DeleteShelf | MyBookshelf/ShelfManager.swift:41-45 | as `Forwarded` |
| ShelfService.ShelfManager.Reinitialize | MyBookshelf/ShelfManager.swift:47-52 | swaps the store, empties the list, then loads from the new store |
| ShelfDetail.Lowercased | MyBookshelf/ShelfDetailView.swift:44-45 | lowercasing keeps the length and lowercases each character |
| ShelfDetail.ContainsIff | MyBookshelf/ShelfDetailView.swift:44-47 | `contains` holds exactly when the text occurs at some scalar position (see "## Left out" for Character matching) |
| ShelfDetail.FilteredBooks | MyBookshelf/ShelfDetailView.swift:38-50 | each loaded book is shown exactly as often as it is loaded when it is on the shelf and matches the search, and otherwise never; the result is an order-preserving subsequence of the loaded books |
| ShelfDetail.FilteredBooksMembers | MyBookshelf/ShelfDetailView.swift:38-50 | a book is shown if and only if it is loaded, is on the shelf, and the search is empty or matches it |
| ShelfDetail.EmptySearchShowsShelf | MyBookshelf/ShelfDetailView.swift:39-41 | with no search text the view is exactly the shelf's books in their original order |
| ShelfDetail.IsbnSearchIsCaseSensitive | MyBookshelf/ShelfDetailView.swift:46-47 | ISBN matching uses no case folding: "X" finds ISBN-10 155404295X, and "x" does not |
| ShelfDetail.TitleSearchIgnoresCase | MyBookshelf/ShelfDetailView.swift:44 | title matching ignores case: "dUNE" finds "Dune" |
| ShelfDetail.DeleteBooks | MyBookshelf/ShelfDetailView.swift:52-55 | one delete per offset, in order, each for the book at that offset of the filtered view; every book deleted is loaded and on the shelf |
| Scanner.HandleFiresIffNew | MyBookshelf/CameraScannerView.swift:148-154 | a scan reports the code if and only if it differs from the remembered one; afterwards the code is remembered and no timer is pending |
| Scanner.OnlyEanCodesFire | MyBookshelf/CameraScannerView.swift:133-146 | only an EAN-8/EAN-13 code with a string can report, and it reports that string; a first object that is not a code (or no object) starts the timer; other code types change nothing |
| Scanner.RunAppend | MyBookshelf/CameraScannerView.swift:133-162 | running two event sequences one after the other is running their concatenation |
| Scanner.RescanFiresNothing | MyBookshelf/CameraScannerView.swift:150-153 | rescanning the remembered code any number of times reports nothing |
| Scanner.IdenticalScansFireOnce | MyBookshelf/CameraScannerView.swift:150-153 | n ≥ 1 identical scans of a new code report it exactly once |
| Scanner.DisappearAllowsRescan | MyBookshelf/CameraScannerView.swift:158-161 | the timer firing forgets the code and reports its disappearance, so the same code scanned again is reported again |
| Scanner.CameraScannerView.Valid | MyBookshelf/CameraScannerView.swift:149-157 | at most one disappear timer is ever live |
| Scanner.CameraScannerView.constructor | MyBookshelf/CameraScannerView.swift:10-22 | no code remembered, no timer, camera inactive |
| Scanner.CameraScannerView.SetCameraActive | MyBookshelf/CameraScannerView.swift:11-16 | stores the flag and changes nothing else |
| Scanner.CameraScannerView.Reset | MyBookshelf/CameraScannerView.swift:129-131 | sets the camera active and changes nothing else |
| Scanner.CameraScannerView.CaptureImage | MyBookshelf/CameraScannerView.swift:98-110 | a session that is not running completes with nil and changes nothing; otherwise the completion is stored and a photo is requested |
| Scanner.CameraScannerView.InvalidateTimer | MyBookshelf/CameraScannerView.swift:149 | no timer is live afterwards |
| Scanner.CameraScannerView.HandleScannedCode | MyBookshelf/CameraScannerView.swift:148-154 | follows `HandleScannedCodeSpec` and keeps at most one live timer |
| Scanner.CameraScannerView.StartCodeDisappearedTimer | MyBookshelf/CameraScannerView.swift:156-162 | cancels the pending timer; afterwards exactly the new timer is live |
| Scanner.CameraScannerView.TimerFires | MyBookshelf/CameraScannerView.swift:158-161 | a live timer forgets the code and reports `onCodeDisappeared`; a cancelled timer does nothing |
| Scanner.CameraScannerView.MetadataOutput | MyBookshelf/CameraScannerView.swift:133-146 | follows `MetadataOutputSpec` and keeps at most one live timer |

## Left out

- Core Data, AVFoundation, Timer and Dispatch are not modelled. The contents of the persistent store, each metadata batch, which timer fires, whether the capture session is running, and every fresh `UUID()` are method parameters.
- Failures of `context.fetch`, `context.save` and `context.execute` are not modelled; only the 404 paths are. A failed save between the upsert and a recount in `saveBook`, which leaves a stale count, is therefore not covered.
- Every operation runs sequentially and atomically. A block queued on the main queue from a block already running there runs after that block finishes, as on the serial main queue. So in `addBook` and its siblings `dataChanged = true` and the completion come first (`Finish`), and the reload's reply runs afterwards and clears the flag.
- ShelfDetail.DeleteBooks: every offset is read against the book list as the loop found it. Each delete's reply, and the reload it starts, is queued behind the loop, so the list does not change while the loop runs.
- CatalogStore.CoreDataManager.UpdateShelfBookCount: requires the book count to fit in `Int16`. `Int16(bookCount)` traps above 32767, and that crash is not modelled.
- CatalogStore.CoreDataManager.SaveBook: requires the new shelf's count after the upsert to fit in `Int16`, for the same reason. The old shelf's count then fits as well, which is proved.
- CatalogStore.CoreDataManager.constructor: opens any store. Every other operation of the class requires the store to satisfy `Valid` (rows keyed by id, accurate counts), and the proofs rely on it. A store left with a stale count, for example by a failed save between an upsert and its recount, does not satisfy it and is outside what the model proves.
- CatalogStore.CoreDataManager.AddShelf: requires the new id to be unused by any shelf or book row. A generated `UUID()` is taken to be unique; its generation is not modelled.
- A row with a nil id cannot be stored in the id-keyed maps. Every insert path in the store sets the id. The nil-id drop of the fetches is modelled in `CompactMapBooks` and `CompactMapShelves` over arbitrary row lists.
- The order of fetched rows is whatever the store chooses (`FetchAll` picks any order). Sort descriptors are not used by the source.
- ShelfDetail.Lowercased: `lowercased()` is modelled on ASCII letters only. Unicode case mapping is left out.
- ShelfDetail.Contains: strings are sequences of Unicode scalars, compared one scalar at a time. Swift's `contains` compares Characters (grapheme clusters) under canonical equivalence, so it finds a precomposed "é" in "Cafe\u{301}" and does not find "e" there; the model does the opposite. Unicode normalisation and grapheme segmentation are not modelled.
- ShelfDetail.ContainsIff: characterises `Contains` as a match at some scalar position, which is the same scalar-level matching. It is weaker than Swift's Character-level `contains`, for the reason in the previous line.
- `Shelf` is a Swift class, modelled as a value. No modelled code mutates a shelf object after creating it, so aliasing does not matter here.
- The storage manager (StorageManager.swift) only delegates to the store, and it calls `addBook`/`updateBook`, which the store does not define. Its effect on the services is therefore not modelled: each store call's answer is a parameter.
- The completion callbacks `onCodeScanned`/`onCodeDisappeared` are returned as a list of events. The case where no callback is installed (a nil optional, so nothing happens) is not distinguished.
- The photo delegate (`photoOutput(_:didFinishProcessingPhoto:error:)`), session setup, and starting or stopping the session are not modelled: they are camera plumbing.
- SwiftUI views, NetworkManager.swift, CloudKitManager.swift, Item.swift, BookView.swift and SharedModels.swift are not part of this model.
