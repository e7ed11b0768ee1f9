/** The Shelf record (MyBookshelf/Shelf.swift): an id, a name and the
    denormalised number of books on the shelf. */
module Shelves {
  import opened Foundation

  datatype Shelf = Shelf(id: Uuid, name: string, bookCount: int)
}
