/** The observable shelf service (MyBookshelf/ShelfManager.swift): an
    in-memory copy of the catalog's shelves and a change flag.

    As for the book service, the storage manager is a value of type `S`, and
    the outcome of each of its calls is a parameter. The mutators hand the
    caller's completion to the store, which calls it with its own answer,
    and then call it again themselves with success: every call's
    completions are returned in the order they happen. */
module ShelfService {
  import opened Foundation
  import opened Shelves

  class ShelfManager<S> {
    var shelves: seq<Shelf>
    var dataChanged: bool
    var storageManager: S

    /** `init(storageManager:)` starts empty and loads. */
    constructor(storageManager: S, fetched: Result<seq<Shelf>, Error>)
      ensures this.storageManager == storageManager
      ensures shelves == (if fetched.Ok? then fetched.value else [])
      ensures !dataChanged
    {
      this.storageManager := storageManager;
      shelves, dataChanged := [], false;
      new;
      LoadShelves(fetched);
    }

    /** Replaces the list on success, keeps it on failure, and clears the
        change flag either way. */
    method LoadShelves(fetched: Result<seq<Shelf>, Error>)
      modifies this
      ensures storageManager == old(storageManager)
      ensures shelves == (if fetched.Ok? then fetched.value else old(shelves))
      ensures !dataChanged
    {
      match fetched {
        case Ok(fetchedShelves) =>
          shelves := fetchedShelves;
        case Err(_) =>
      }
      dataChanged := false;
    }

    /** What the three mutators share: the store answered `stored` through
        the completion; then the flag is raised and the completion is called
        again with success. The list is not reloaded. */
    method Forwarded(stored: Result<(), Error>) returns (completions: seq<Result<(), Error>>)
      modifies this
      ensures completions == [stored, Ok(())]
      ensures dataChanged
      ensures shelves == old(shelves) && storageManager == old(storageManager)
    {
      completions := [stored];
      dataChanged := true;
      completions := completions + [Ok(())];
    }

    /** `addShelf(name:)`: the store's `addShelf` answered `stored`. */
    method AddShelf(name: string, stored: Result<(), Error>) returns (completions: seq<Result<(), Error>>)
      modifies this
      ensures completions == [stored, Ok(())]
      ensures dataChanged
      ensures shelves == old(shelves) && storageManager == old(storageManager)
    {
      completions := Forwarded(stored);
    }

    /** `updateShelf(id:newName:)`: the store's `updateShelf` answered `stored`. */
    method UpdateShelf(id: Uuid, newName: string, stored: Result<(), Error>) returns (completions: seq<Result<(), Error>>)
      modifies this
      ensures completions == [stored, Ok(())]
      ensures dataChanged
      ensures shelves == old(shelves) && storageManager == old(storageManager)
    {
      completions := Forwarded(stored);
    }

    /** `deleteShelf(id:)`: the store's `deleteShelf` answered `stored`. */
    method DeleteShelf(id: Uuid, stored: Result<(), Error>) returns (completions: seq<Result<(), Error>>)
      modifies this
      ensures completions == [stored, Ok(())]
      ensures dataChanged
      ensures shelves == old(shelves) && storageManager == old(storageManager)
    {
      completions := Forwarded(stored);
    }

    /** `reinitialize(with:)`: swap the store, empty the list, raise the
        flag, then load from the new store. */
    method Reinitialize(newStorageManager: S, fetched: Result<seq<Shelf>, Error>)
      modifies this
      ensures storageManager == newStorageManager
      ensures shelves == (if fetched.Ok? then fetched.value else [])
      ensures !dataChanged
    {
      storageManager := newStorageManager;
      shelves := [];
      dataChanged := true;
      LoadShelves(fetched);
    }
  }
}
