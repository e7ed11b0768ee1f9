/** The Book record (MyBookshelf/Book.swift): a value with an identity, seven
    text fields, an optional cover image, an optional shelf reference and a
    reading-list flag, and its Codable form. */
module Books {
  import opened Foundation

  datatype Book = Book(
    id: Uuid,
    title: string,
    author: string,
    isbn13: string,
    isbn10: string,
    publisher: string,
    publishDate: string,
    coverImage: Option<Data>,
    shelfUuid: Option<Uuid>,
    isInReadingList: bool)

  /** The memberwise initialiser. Its `id` default is a freshly generated
      UUID, which the caller supplies here; the other defaults are written
      as Dafny default parameters. */
  function NewBook(id: Uuid, title: string, author: string, isbn13: string, isbn10: string,
                   publisher: string, publishDate: string, coverImage: Option<Data> := None,
                   shelfUuid: Option<Uuid> := None, isInReadingList: bool := false): (b: Book)
    ensures b.id == id && b.title == title && b.author == author
    ensures b.isbn13 == isbn13 && b.isbn10 == isbn10
    ensures b.publisher == publisher && b.publishDate == publishDate
    ensures b.coverImage == coverImage && b.shelfUuid == shelfUuid
    ensures b.isInReadingList == isInReadingList
  {
    Book(id, title, author, isbn13, isbn10, publisher, publishDate, coverImage, shelfUuid, isInReadingList)
  }

  /** Leaving out the last three arguments gives no cover, no shelf and a
      book that is not on the reading list. */
  lemma NewBookDefaults(id: Uuid, title: string, author: string, isbn13: string, isbn10: string,
                        publisher: string, publishDate: string)
    ensures NewBook(id, title, author, isbn13, isbn10, publisher, publishDate).coverImage == None
    ensures NewBook(id, title, author, isbn13, isbn10, publisher, publishDate).shelfUuid == None
    ensures !NewBook(id, title, author, isbn13, isbn10, publisher, publishDate).isInReadingList
  {
  }

  // ----- Codable -----

  /** The coding keys. There is no key for `id`. */
  datatype CodingKey =
    | Title | Author | Isbn13 | Isbn10 | Publisher | PublishDate
    | CoverImage | ShelfUuid | IsInReadingList
  {
    /** The key's string raw value, which names the field in an encoded container. */
    function RawValue(): string {
      match this
      case Title => "title"
      case Author => "author"
      case Isbn13 => "isbn13"
      case Isbn10 => "isbn10"
      case Publisher => "publisher"
      case PublishDate => "publishDate"
      case CoverImage => "coverImage"
      case ShelfUuid => "shelfUuid"
      case IsInReadingList => "isInReadingList"
    }

    /** The keys decoded with `decode`, whose absence is an error
        (the others are decoded with `decodeIfPresent`). */
    predicate IsRequired() {
      !(CoverImage? || ShelfUuid?)
    }
  }

  /** A value in a keyed container, as an encoder writes it. */
  datatype Value =
    | StringValue(s: string)
    | DataValue(d: Data)
    | UuidValue(u: Uuid)
    | BoolValue(b: bool)
    | NullValue

  /** A keyed container: the abstract form of an encoded object. */
  type Container = map<string, Value>

  datatype DecodingError =
    | KeyNotFound(key: CodingKey)
    | ValueNotFound(key: CodingKey)
    | TypeMismatch(key: CodingKey)

  /** The set of all key names. */
  function KeyNames(): (names: set<string>)
    ensures "id" !in names
    ensures forall k: CodingKey :: k.RawValue() in names
  {
    {"title", "author", "isbn13", "isbn10", "publisher", "publishDate",
     "coverImage", "shelfUuid", "isInReadingList"}
  }

  /** The synthesised encoder: every key of `CodingKeys` with its field's
      value; an absent optional is omitted (`encodeIfPresent`). */
  function Encode(b: Book): (r: Container)
    ensures "id" !in r
    ensures forall k: CodingKey :: k.IsRequired() ==> k.RawValue() in r
  {
    var required := map[
      Title.RawValue() := StringValue(b.title),
      Author.RawValue() := StringValue(b.author),
      Isbn13.RawValue() := StringValue(b.isbn13),
      Isbn10.RawValue() := StringValue(b.isbn10),
      Publisher.RawValue() := StringValue(b.publisher),
      PublishDate.RawValue() := StringValue(b.publishDate),
      IsInReadingList.RawValue() := BoolValue(b.isInReadingList)];
    var withCover := if b.coverImage.Some? then required[CoverImage.RawValue() := DataValue(b.coverImage.value)] else required;
    if b.shelfUuid.Some? then withCover[ShelfUuid.RawValue() := UuidValue(b.shelfUuid.value)] else withCover
  }

  /** `container.decode(String.self, forKey: k)` */
  function DecodeString(c: Container, k: CodingKey): Result<string, DecodingError> {
    if k.RawValue() !in c then Err(KeyNotFound(k))
    else match c[k.RawValue()]
      case StringValue(s) => Ok(s)
      case NullValue => Err(ValueNotFound(k))
      case _ => Err(TypeMismatch(k))
  }

  /** `container.decode(Bool.self, forKey: k)` */
  function DecodeBool(c: Container, k: CodingKey): Result<bool, DecodingError> {
    if k.RawValue() !in c then Err(KeyNotFound(k))
    else match c[k.RawValue()]
      case BoolValue(b) => Ok(b)
      case NullValue => Err(ValueNotFound(k))
      case _ => Err(TypeMismatch(k))
  }

  /** `container.decodeIfPresent(Data.self, forKey: k)`: an absent key or a
      null value gives nil. */
  function DecodeDataIfPresent(c: Container, k: CodingKey): Result<Option<Data>, DecodingError> {
    if k.RawValue() !in c then Ok(None)
    else match c[k.RawValue()]
      case DataValue(d) => Ok(Some(d))
      case NullValue => Ok(None)
      case _ => Err(TypeMismatch(k))
  }

  /** `container.decodeIfPresent(UUID.self, forKey: k)` */
  function DecodeUuidIfPresent(c: Container, k: CodingKey): Result<Option<Uuid>, DecodingError> {
    if k.RawValue() !in c then Ok(None)
    else match c[k.RawValue()]
      case UuidValue(u) => Ok(Some(u))
      case NullValue => Ok(None)
      case _ => Err(TypeMismatch(k))
  }

  /** `init(from:)`: decodes the fields in declaration order, stopping at the
      first error, and gives the book the freshly generated id `freshId`
      instead of reading one. */
  function Decode(c: Container, freshId: Uuid): (r: Result<Book, DecodingError>)
    ensures r.Ok? ==> r.value.id == freshId
    ensures r.Ok? ==> forall k: CodingKey :: k.IsRequired() ==> k.RawValue() in c
    ensures r.Ok? ==> Title.RawValue() in c && c[Title.RawValue()] == StringValue(r.value.title)
    ensures r.Ok? ==> Author.RawValue() in c && c[Author.RawValue()] == StringValue(r.value.author)
    ensures r.Ok? ==> IsInReadingList.RawValue() in c && c[IsInReadingList.RawValue()] == BoolValue(r.value.isInReadingList)
  {
    var title :- DecodeString(c, Title);
    var author :- DecodeString(c, Author);
    var isbn13 :- DecodeString(c, Isbn13);
    var isbn10 :- DecodeString(c, Isbn10);
    var publisher :- DecodeString(c, Publisher);
    var publishDate :- DecodeString(c, PublishDate);
    var coverImage :- DecodeDataIfPresent(c, CoverImage);
    var shelfUuid :- DecodeUuidIfPresent(c, ShelfUuid);
    var isInReadingList :- DecodeBool(c, IsInReadingList);
    Ok(Book(freshId, title, author, isbn13, isbn10, publisher, publishDate, coverImage, shelfUuid, isInReadingList))
  }

  /** What a container must hold under key `k` for decoding to get past it. */
  ghost predicate Decodable(c: Container, k: CodingKey) {
    var name := k.RawValue();
    match k
    case CoverImage => name !in c || c[name].NullValue? || c[name].DataValue?
    case ShelfUuid => name !in c || c[name].NullValue? || c[name].UuidValue?
    case IsInReadingList => name in c && c[name].BoolValue?
    case _ => name in c && c[name].StringValue?
  }

  // ----- properties of the Codable form -----

  /** An encoded book holds exactly the required keys plus the optional
      keys whose field is set; in particular it never holds an id. */
  lemma EncodeKeys(b: Book)
    ensures Encode(b).Keys <= KeyNames()
    ensures "id" !in Encode(b)
    ensures forall k: CodingKey :: k.RawValue() in Encode(b) <==>
      (k.IsRequired() || (k == CoverImage && b.coverImage.Some?) || (k == ShelfUuid && b.shelfUuid.Some?))
  {
  }

  /** Decoding succeeds exactly when every key holds something it can decode. */
  lemma DecodeSucceedsIff(c: Container, freshId: Uuid)
    ensures Decode(c, freshId).Ok? <==> forall k: CodingKey :: Decodable(c, k)
  {
    if forall k: CodingKey :: Decodable(c, k) {
      assert Decodable(c, Title) && Decodable(c, Author) && Decodable(c, Isbn13);
      assert Decodable(c, Isbn10) && Decodable(c, Publisher) && Decodable(c, PublishDate);
      assert Decodable(c, CoverImage) && Decodable(c, ShelfUuid) && Decodable(c, IsInReadingList);
    }
  }

  /** A missing required key makes decoding fail. */
  lemma DecodeMissingRequiredFails(c: Container, freshId: Uuid, k: CodingKey)
    requires k.IsRequired() && k.RawValue() !in c
    ensures Decode(c, freshId).Err?
  {
    DecodeSucceedsIff(c, freshId);
    assert !Decodable(c, k);
  }

  /** A decoded book carries the fresh id, whatever the container holds
      under "id", and a missing optional key decodes to nil. */
  lemma DecodeMintsId(c: Container, freshId: Uuid, v: Value)
    ensures Decode(c["id" := v], freshId) == Decode(c, freshId)
    ensures Decode(c, freshId).Ok? ==> Decode(c, freshId).value.id == freshId
    ensures Decode(c, freshId).Ok? && CoverImage.RawValue() !in c ==> Decode(c, freshId).value.coverImage == None
    ensures Decode(c, freshId).Ok? && ShelfUuid.RawValue() !in c ==> Decode(c, freshId).value.shelfUuid == None
  {
    var c' := c["id" := v];
    forall k: CodingKey ensures (k.RawValue() in c' <==> k.RawValue() in c) && (k.RawValue() in c ==> c'[k.RawValue()] == c[k.RawValue()]) {
      assert k.RawValue() in KeyNames();
    }
  }

  /** Encoding then decoding gives back the book, apart from its id. */
  lemma RoundTrip(b: Book, freshId: Uuid)
    ensures Decode(Encode(b), freshId) == Ok(b.(id := freshId))
  {
  }

  /** The container a decoded book re-encodes to: the coding keys of the
      input with their non-null values; other keys are ignored. */
  function Canonical(c: Container): Container {
    map name | name in c && name in KeyNames() && !c[name].NullValue? :: c[name]
  }

  /** Decoding then encoding gives back the container, with keys that are not
      coding keys and null optionals dropped. */
  lemma DecodeThenEncode(c: Container, freshId: Uuid)
    requires Decode(c, freshId).Ok?
    ensures Encode(Decode(c, freshId).value) == Canonical(c)
  {
    DecodeSucceedsIff(c, freshId);
    var e := Encode(Decode(c, freshId).value);
    var k := Canonical(c);
    assert Decodable(c, Title) && Decodable(c, Author) && Decodable(c, Isbn13);
    assert Decodable(c, Isbn10) && Decodable(c, Publisher) && Decodable(c, PublishDate);
    assert Decodable(c, CoverImage) && Decodable(c, ShelfUuid) && Decodable(c, IsInReadingList);
    assert e.Keys == k.Keys;
  }
}
