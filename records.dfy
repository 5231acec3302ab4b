/** A book record, the request bodies and outcomes of the handlers, and the
    lookups and checks the handlers share. */
module Records {
  import opened Options
  import opened JsValues
  import opened Text
  import opened Genres

  /** One record of the `books` array. `isRead` is whatever value the record
      holds: a boolean after create and mark-read, but PUT stores the body's
      `isRead` as sent. `rating` is null or a number, possibly fractional. */
  datatype Book = Book(
    id: int,
    title: string,
    author: string,
    genre: Genre,
    year: int,
    isRead: Json,
    rating: Option<real>,
    dateAdded: string)

  /** The error outcomes of the handlers, one per distinct response. */
  datatype Error =
    | MissingFields   // 400 "Title, author, genre, and year are required"
    | InvalidTitle    // 400 "Title must be a non-empty string"
    | InvalidAuthor   // 400 "Author must be a non-empty string"
    | InvalidGenre    // 400 "Genre must be one of: ..."
    | InvalidYear     // 400 "Year must be between 1000 and <current year>"
    | InvalidRating   // 400 the two rating messages of PUT and PATCH /rate
    | Duplicate       // 409 "Book with same title and author already exists"
    | NotFound        // 404 "Book not found"
    | TypeError       // 500 a property read on a non-string value throws

  /** The HTTP status each error outcome is answered with. */
  function StatusCode(e: Error): int {
    match e
    case Duplicate => 409
    case NotFound => 404
    case TypeError => 500
    case _ => 400
  }

  datatype Result<T> = Ok(value: T) | Err(error: Error)

  /** The body of POST /books. */
  datatype CreateBody = CreateBody(title: Json, author: Json, genre: Json, year: Json)

  /** The body of PUT /books/:id. */
  datatype UpdateBody = UpdateBody(title: Json, author: Json, genre: Json, year: Json, isRead: Json, rating: Json)

  /** The three records the service starts with (`nextId` starts at 4). */
  function Seed(): seq<Book> {
    [ Book(1, "The Great Gatsby", "F. Scott Fitzgerald", Fiction, 1925, Bool(false), None, "2024-01-15"),
      Book(2, "To Kill a Mockingbird", "Harper Lee", Fiction, 1960, Bool(true), Some(5.0), "2024-01-10"),
      Book(3, "1984", "George Orwell", SciFi, 1949, Bool(true), Some(4.0), "2024-01-12") ]
  }

  /** books.findIndex(book => book.id === id): the first slot holding `id`. */
  function IndexOf(books: seq<Book>, id: int): (r: Option<nat>)
    ensures r.Some? ==> r.value < |books| && books[r.value].id == id
    ensures r.Some? ==> forall j :: 0 <= j < r.value ==> books[j].id != id
    ensures r.None? ==> forall j :: 0 <= j < |books| ==> books[j].id != id
  {
    if books == [] then None
    else if books[0].id == id then Some(0)
    else match IndexOf(books[1..], id)
      case None => None
      case Some(k) => Some(k + 1)
  }

  /** findBookById (and GET /books/:id): the record with that id, if any. */
  function FindById(books: seq<Book>, id: int): (r: Option<Book>)
    ensures r.Some? <==> exists b :: b in books && b.id == id
    ensures r.Some? ==> r.value in books && r.value.id == id
  {
    match IndexOf(books, id)
    case None => None
    case Some(i) => Some(books[i])
  }

  /** A rating the store may hold: absent, or a number in [1, 5]. */
  predicate RatingInRange(r: Option<real>) {
    r.Some? ==> 1.0 <= r.value <= 5.0
  }

  predicate AllRatingsInRange(books: seq<Book>) {
    forall i :: 0 <= i < |books| ==> RatingInRange(books[i].rating)
  }

  /** Appending or overwriting with a record whose rating is in range keeps all ratings in range. */
  lemma RatingsStayInRange(books: seq<Book>, i: nat, b: Book)
    requires AllRatingsInRange(books) && RatingInRange(b.rating)
    ensures AllRatingsInRange(books + [b])
    ensures i < |books| ==> AllRatingsInRange(books[i := b])
  {
  }

  /** `!title || !author || !genre || !year` fails. */
  predicate RequiredPresent(title: Json, author: Json, genre: Json, year: Json) {
    Truthy(title) && Truthy(author) && Truthy(genre) && Truthy(year)
  }

  /** `typeof v === 'string' && v.trim().length !== 0`. */
  predicate NonBlankString(v: Json) {
    v.Str? && Trim(v.s) != ""
  }

  /** `VALID_GENRES.includes(v)`: strict equality with one of the six names. */
  predicate KnownGenre(v: Json) {
    v.Str? && Parse(v.s).Some?
  }

  /** `Number.isInteger(v) && v >= 1000 && v <= currentYear`. */
  predicate YearInRange(v: Json, currentYear: int) {
    IsInteger(v) && 1000.0 <= v.n <= currentYear as real
  }

  /** The rating check of PUT: `rating === null`, or a number in [1, 5]. */
  predicate ReplacementRating(v: Json) {
    v == Null || (v.Num? && 1.0 <= v.n <= 5.0)
  }

  /** The rating check of PATCH /rate: truthy, a number, and in [1, 5]. */
  predicate AcceptedRating(v: Json) {
    Truthy(v) && v.Num? && 1.0 <= v.n <= 5.0
  }

  /** Every check of POST /books before the duplicate search passes. */
  predicate CreateFieldsValid(body: CreateBody, currentYear: int) {
    RequiredPresent(body.title, body.author, body.genre, body.year)
    && NonBlankString(body.title) && NonBlankString(body.author)
    && KnownGenre(body.genre) && YearInRange(body.year, currentYear)
  }

  /** The duplicate search of POST /books: a stored record whose lower-cased
      title and author equal the lower-cased title and author as sent. The
      stored values are trimmed, the sent ones are not. */
  predicate IsDuplicate(books: seq<Book>, title: string, author: string) {
    exists b :: b in books && Lower(b.title) == Lower(title) && Lower(b.author) == Lower(author)
  }

  /** The id discipline of the store: ids are positive, strictly increasing
      along the array, and all below the next id to be handed out. */
  predicate IdsOrdered(books: seq<Book>, nextId: int) {
    1 <= nextId
    && (forall i, j :: 0 <= i < j < |books| ==> books[i].id < books[j].id)
    && (forall i :: 0 <= i < |books| ==> 1 <= books[i].id < nextId)
  }

  /** Appending a record with id `nextId` and bumping `nextId` keeps the ids ordered. */
  lemma AppendKeepsIdsOrdered(books: seq<Book>, nextId: int, b: Book)
    requires IdsOrdered(books, nextId) && b.id == nextId
    ensures IdsOrdered(books + [b], nextId + 1)
  {
  }

  /** Overwriting a slot with a record of the same id keeps the ids ordered. */
  lemma OverwriteKeepsIdsOrdered(books: seq<Book>, nextId: int, i: nat, b: Book)
    requires IdsOrdered(books, nextId) && i < |books| && b.id == books[i].id
    ensures IdsOrdered(books[i := b], nextId)
  {
  }

  /** Splicing out one slot keeps the ids ordered. */
  lemma RemoveKeepsIdsOrdered(books: seq<Book>, nextId: int, i: nat)
    requires IdsOrdered(books, nextId) && i < |books|
    ensures IdsOrdered(books[..i] + books[i + 1..], nextId)
  {
    var rest := books[..i] + books[i + 1..];
    assert forall k :: 0 <= k < |rest| ==> rest[k] == if k < i then books[k] else books[k + 1];
  }

  /** With ordered ids, the slot IndexOf finds is the only one holding that id. */
  lemma IdIsUnique(books: seq<Book>, nextId: int, id: int)
    requires IdsOrdered(books, nextId) && IndexOf(books, id).Some?
    ensures forall j :: 0 <= j < |books| && books[j].id == id ==> j == IndexOf(books, id).value
  {
  }
}
