/** The in-memory store: the `books` array and the `nextId` counter, and the
    five handlers that change them (POST, PUT, DELETE, PATCH read, PATCH rate). */
module Store {
  import opened Options
  import opened JsValues
  import opened Text
  import opened Genres
  import opened Records

  class Catalogue {
    var books: seq<Book>
    var nextId: int

    /** Ids are positive, strictly increasing along the array and below
        `nextId`; every stored rating is null or in [1, 5]. */
    ghost predicate Valid()
      reads this
    {
      IdsOrdered(books, nextId) && AllRatingsInRange(books)
    }

    /** The state at start-up: the three seed records and `nextId = 4`. */
    constructor ()
      ensures Valid()
      ensures books == Seed() && nextId == 4
    {
      books := Seed();
      nextId := 4;
    }

    /** POST /books. Validation failures are reported in the order the handler
        checks them; on success the new record is appended with the old
        `nextId` as its id, and `nextId` goes up by one. */
    method Create(body: CreateBody, currentYear: int, today: string) returns (r: Result<Book>)
      requires Valid()
      modifies this
      ensures Valid()
      ensures !RequiredPresent(body.title, body.author, body.genre, body.year) ==> r == Err(MissingFields)
      ensures (RequiredPresent(body.title, body.author, body.genre, body.year)
               && !NonBlankString(body.title))
               ==> r == Err(InvalidTitle)
      ensures (RequiredPresent(body.title, body.author, body.genre, body.year)
               && NonBlankString(body.title) && !NonBlankString(body.author))
               ==> r == Err(InvalidAuthor)
      ensures (RequiredPresent(body.title, body.author, body.genre, body.year)
               && NonBlankString(body.title) && NonBlankString(body.author)
               && !KnownGenre(body.genre))
               ==> r == Err(InvalidGenre)
      ensures (RequiredPresent(body.title, body.author, body.genre, body.year)
               && NonBlankString(body.title) && NonBlankString(body.author)
               && KnownGenre(body.genre) && !YearInRange(body.year, currentYear))
               ==> r == Err(InvalidYear)
      ensures (CreateFieldsValid(body, currentYear)
               && IsDuplicate(old(books), body.title.s, body.author.s))
               ==> r == Err(Duplicate)
      ensures r.Ok? <==> CreateFieldsValid(body, currentYear) && !IsDuplicate(old(books), body.title.s, body.author.s)
      ensures r.Ok? ==> r.value == Book(old(nextId), Trim(body.title.s), Trim(body.author.s),
                                        Parse(body.genre.s).value, body.year.n.Floor,
                                        Bool(false), None, today)
      ensures r.Ok? ==> forall b :: b in old(books) ==> b.id < r.value.id
      ensures r.Ok? ==> books == old(books) + [r.value] && nextId == old(nextId) + 1
      ensures r.Err? ==> books == old(books) && nextId == old(nextId)
    {
      var title, author, genre, year := body.title, body.author, body.genre, body.year;
      if !RequiredPresent(title, author, genre, year) {
        return Err(MissingFields);
      }
      if !NonBlankString(title) {
        return Err(InvalidTitle);
      }
      if !NonBlankString(author) {
        return Err(InvalidAuthor);
      }
      var g := if genre.Str? then Parse(genre.s) else None;
      if g.None? {
        return Err(InvalidGenre);
      }
      if !YearInRange(year, currentYear) {
        return Err(InvalidYear);
      }
      if IsDuplicate(books, title.s, author.s) {
        return Err(Duplicate);
      }
      var book := Book(nextId, Trim(title.s), Trim(author.s), g.value, year.n.Floor, Bool(false), None, today);
      Append(book);
      r := Ok(book);
    }

    /** The `books.push(newBook)` step: the record takes the next id, and the
        invariant carries over. */
    method Append(book: Book)
      requires Valid() && book.id == nextId && book.rating.None?
      modifies this
      ensures Valid()
      ensures books == old(books) + [book] && nextId == old(nextId) + 1
      ensures forall b :: b in old(books) ==> b.id < book.id
    {
      AppendKeepsIdsOrdered(books, nextId, book);
      RatingsStayInRange(books, 0, book);
      nextId := nextId + 1;
      books := books + [book];
    }

    /** PUT /books/:id. The record must exist; the body is checked (no
        duplicate search, no blank check on title and author) and the slot is
        overwritten with a new record that keeps the old id and dateAdded. */
    method Replace(id: int, body: UpdateBody, currentYear: int) returns (r: Result<Book>)
      requires Valid()
      modifies this
      ensures Valid()
      ensures nextId == old(nextId)
      ensures IndexOf(old(books), id).None? ==> r == Err(NotFound)
      ensures (IndexOf(old(books), id).Some?
               && !RequiredPresent(body.title, body.author, body.genre, body.year))
               ==> r == Err(MissingFields)
      ensures (IndexOf(old(books), id).Some?
               && RequiredPresent(body.title, body.author, body.genre, body.year)
               && !KnownGenre(body.genre))
               ==> r == Err(InvalidGenre)
      ensures (IndexOf(old(books), id).Some?
               && RequiredPresent(body.title, body.author, body.genre, body.year)
               && KnownGenre(body.genre) && !YearInRange(body.year, currentYear))
               ==> r == Err(InvalidYear)
      ensures (IndexOf(old(books), id).Some?
               && RequiredPresent(body.title, body.author, body.genre, body.year)
               && KnownGenre(body.genre) && YearInRange(body.year, currentYear)
               && !ReplacementRating(body.rating))
               ==> r == Err(InvalidRating)
      ensures (IndexOf(old(books), id).Some?
               && RequiredPresent(body.title, body.author, body.genre, body.year)
               && KnownGenre(body.genre) && YearInRange(body.year, currentYear)
               && ReplacementRating(body.rating)
               && (!body.title.Str? || !body.author.Str?))
               ==> r == Err(TypeError)
      ensures r.Ok? <==> IndexOf(old(books), id).Some?
                         && RequiredPresent(body.title, body.author, body.genre, body.year)
                         && KnownGenre(body.genre) && YearInRange(body.year, currentYear)
                         && ReplacementRating(body.rating) && body.title.Str? && body.author.Str?
      ensures r.Ok? ==>
                var i := IndexOf(old(books), id).value;
                && r.value == Book(old(books)[i].id, Trim(body.title.s), Trim(body.author.s),
                                   Parse(body.genre.s).value, body.year.n.Floor,
                                   if body.isRead == Undefined then Bool(false) else body.isRead,
                                   if body.rating.Num? then Some(body.rating.n) else None,
                                   old(books)[i].dateAdded)
                && books == old(books)[i := r.value]
      ensures r.Err? ==> books == old(books)
    {
      var found := IndexOf(books, id);
      if found.None? {
        return Err(NotFound);
      }
      var old_ := books[found.value];
      var title, author, genre, year, isRead, rating :=
        body.title, body.author, body.genre, body.year, body.isRead, body.rating;
      if !RequiredPresent(title, author, genre, year) {
        return Err(MissingFields);
      }
      var g := if genre.Str? then Parse(genre.s) else None;
      if g.None? {
        return Err(InvalidGenre);
      }
      if !YearInRange(year, currentYear) {
        return Err(InvalidYear);
      }
      if !ReplacementRating(rating) {
        return Err(InvalidRating);
      }
      if !title.Str? || !author.Str? {
        return Err(TypeError);
      }
      assert Truthy(rating) <==> rating.Num?;
      var updated := Book(old_.id, Trim(title.s), Trim(author.s), g.value, year.n.Floor,
                          if isRead != Undefined then isRead else Bool(false),
                          if Truthy(rating) then Some(rating.n) else None,
                          old_.dateAdded);
      var i := IndexOf(books, old_.id).value;
      assert i == found.value;
      Overwrite(i, updated);
      r := Ok(updated);
    }

    /** Stores `book` in slot `i` in place of a record with the same id; the
        invariant carries over as long as the rating is null or in [1, 5]. */
    method Overwrite(i: nat, book: Book)
      requires Valid() && i < |books| && book.id == books[i].id && RatingInRange(book.rating)
      modifies this
      ensures Valid()
      ensures books == old(books)[i := book] && nextId == old(nextId)
    {
      OverwriteKeepsIdsOrdered(books, nextId, i, book);
      RatingsStayInRange(books, i, book);
      books := books[i := book];
    }

    /** DELETE /books/:id. Splices out the first record with that id and
        returns it; the other records keep their order. */
    method Delete(id: int) returns (r: Result<Book>)
      requires Valid()
      modifies this
      ensures Valid()
      ensures nextId == old(nextId)
      ensures r.Err? <==> IndexOf(old(books), id).None?
      ensures r.Err? ==> r.error == NotFound && books == old(books)
      ensures r.Ok? ==>
                var i := IndexOf(old(books), id).value;
                && r.value == old(books)[i]
                && books == old(books)[..i] + old(books)[i + 1..]
      ensures r.Ok? ==> r.value.id == id && |books| == |old(books)| - 1
      ensures r.Ok? ==> forall b :: b in books ==> b.id != id
    {
      var found := IndexOf(books, id);
      if found.None? {
        return Err(NotFound);
      }
      var i := found.value;
      var removed := books[i];
      var rest := books[..i] + books[i + 1..];
      assert forall k :: 0 <= k < |rest| ==> rest[k] == if k < i then books[k] else books[k + 1];
      RemoveKeepsIdsOrdered(books, nextId, i);
      IdIsUnique(books, nextId, id);
      books := rest;
      r := Ok(removed);
    }

    /** PATCH /books/:id/read. Sets `isRead` to true on the record, in place;
        a record already marked read is left as it is. */
    method MarkRead(id: int) returns (r: Result<Book>)
      requires Valid()
      modifies this
      ensures Valid()
      ensures nextId == old(nextId)
      ensures r.Err? <==> IndexOf(old(books), id).None?
      ensures r.Err? ==> r.error == NotFound && books == old(books)
      ensures r.Ok? ==>
                var i := IndexOf(old(books), id).value;
                && books == old(books)[i := old(books)[i].(isRead := Bool(true))]
                && r.value == books[i]
      ensures r.Ok? && old(books)[IndexOf(old(books), id).value].isRead == Bool(true) ==> books == old(books)
    {
      var found := IndexOf(books, id);
      if found.None? {
        return Err(NotFound);
      }
      var i := found.value;
      Overwrite(i, books[i].(isRead := Bool(true)));
      r := Ok(books[i]);
    }

    /** PATCH /books/:id/rate. The record must exist and the rating must be a
        truthy number in [1, 5]; only the record's `rating` changes. */
    method Rate(id: int, rating: Json) returns (r: Result<Book>)
      requires Valid()
      modifies this
      ensures Valid()
      ensures nextId == old(nextId)
      ensures IndexOf(old(books), id).None? ==> r == Err(NotFound)
      ensures IndexOf(old(books), id).Some? && !AcceptedRating(rating) ==> r == Err(InvalidRating)
      ensures r.Ok? <==> IndexOf(old(books), id).Some? && AcceptedRating(rating)
      ensures r.Ok? ==>
                var i := IndexOf(old(books), id).value;
                && books == old(books)[i := old(books)[i].(rating := Some(rating.n))]
                && r.value == books[i]
      ensures r.Err? ==> books == old(books)
    {
      var found := IndexOf(books, id);
      if found.None? {
        return Err(NotFound);
      }
      if !AcceptedRating(rating) {
        return Err(InvalidRating);
      }
      var i := found.value;
      Overwrite(i, books[i].(rating := Some(rating.n)));
      r := Ok(books[i]);
    }
  }
}
