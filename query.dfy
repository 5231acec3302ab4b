/** GET /books: the filter query over the store by genre, read status and author. */
module Query {
  import opened Options
  import opened JsValues
  import opened Text
  import opened Genres
  import opened Seqs
  import opened Records

  /** The query string parameters; each is absent or a string. */
  datatype Filters = Filters(genre: Option<string>, isRead: Option<string>, author: Option<string>)

  /** `if (genre)` / `if (author)`: the parameter is present and not empty. */
  predicate Active(p: Option<string>) {
    p.Some? && p.value != ""
  }

  /** `book.genre.toLowerCase() === genre.toLowerCase()`. */
  predicate GenreMatches(b: Book, genre: string) {
    Lower(Name(b.genre)) == Lower(genre)
  }

  /** `book.isRead === (isRead === 'true')`: any text but "true" asks for false. */
  predicate ReadMatches(b: Book, isRead: string) {
    b.isRead == Bool(isRead == "true")
  }

  /** `book.author.toLowerCase().includes(author.toLowerCase())`. */
  predicate AuthorMatches(b: Book, author: string) {
    Contains(Lower(b.author), Lower(author))
  }

  /** The text of a parameter, "" when absent. */
  function ParamText(p: Option<string>): string {
    if p.Some? then p.value else ""
  }

  function GenreTest(genre: string): Book -> bool {
    b => GenreMatches(b, genre)
  }

  function ReadTest(isRead: string): Book -> bool {
    b => ReadMatches(b, isRead)
  }

  function AuthorTest(author: string): Book -> bool {
    b => AuthorMatches(b, author)
  }

  /** The handler's chain of filters: genre, then read status, then author,
      each applied only when its parameter is given. */
  function Run(books: seq<Book>, f: Filters): seq<Book> {
    var byGenre := if Active(f.genre) then Filter(books, GenreTest(f.genre.value)) else books;
    var byRead := if f.isRead.Some? then Filter(byGenre, ReadTest(f.isRead.value)) else byGenre;
    if Active(f.author) then Filter(byRead, AuthorTest(f.author.value)) else byRead
  }

  /** A record satisfies every filter that is given. */
  predicate Matches(f: Filters, b: Book) {
    (Active(f.genre) ==> GenreMatches(b, f.genre.value))
    && (f.isRead.Some? ==> ReadMatches(b, f.isRead.value))
    && (Active(f.author) ==> AuthorMatches(b, f.author.value))
  }

  function MatchTest(f: Filters): Book -> bool {
    b => Matches(f, b)
  }

  /** The chain of filters is one filter by the conjunction of the given
      filters: the result holds exactly the matching records, each as often
      as it occurs, in the store's order. */
  lemma QueryIsOneFilter(books: seq<Book>, f: Filters)
    ensures Run(books, f) == Filter(books, MatchTest(f))
  {
    var g := When(Active(f.genre), GenreTest(ParamText(f.genre)));
    var r := When(f.isRead.Some?, ReadTest(ParamText(f.isRead)));
    var a := When(Active(f.author), AuthorTest(ParamText(f.author)));
    var byGenre := if Active(f.genre) then Filter(books, GenreTest(ParamText(f.genre))) else books;
    ConditionalFilter(books, Active(f.genre), GenreTest(ParamText(f.genre)));
    assert byGenre == Filter(books, g);
    var byRead := if f.isRead.Some? then Filter(byGenre, ReadTest(ParamText(f.isRead))) else byGenre;
    ConditionalFilter(byGenre, f.isRead.Some?, ReadTest(ParamText(f.isRead)));
    FilterFilter(books, g, r);
    assert byRead == Filter(books, Both(g, r));
    var result := if Active(f.author) then Filter(byRead, AuthorTest(ParamText(f.author))) else byRead;
    ConditionalFilter(byRead, Active(f.author), AuthorTest(ParamText(f.author)));
    FilterFilter(books, Both(g, r), a);
    assert result == Filter(books, Both(Both(g, r), a));
    assert Run(books, f) == result;
    forall x ensures Both(Both(g, r), a)(x) == MatchTest(f)(x) {
    }
    FilterExtensional(books, Both(Both(g, r), a), MatchTest(f));
  }

  /** A record is in the answer exactly when it is in the store and matches. */
  lemma QueryMembership(books: seq<Book>, f: Filters, b: Book)
    ensures b in Run(books, f) <==> b in books && Matches(f, b)
  {
    QueryIsOneFilter(books, f);
    FilterMembership(books, MatchTest(f));
    var r := Filter(books, MatchTest(f));
    if b in r {
      var i :| 0 <= i < |r| && r[i] == b;
    }
    if b in books && Matches(f, b) {
      var i :| 0 <= i < |books| && books[i] == b;
    }
  }

  /** The answer keeps the store's order: it is a subsequence of `books`. */
  lemma QueryKeepsOrder(books: seq<Book>, f: Filters)
    ensures IsSubsequence(Run(books, f), books)
  {
    QueryIsOneFilter(books, f);
    FilterIsSubsequence(books, MatchTest(f));
  }

  /** Absent or empty genre and author parameters, and an absent isRead,
      impose nothing: the answer is the whole store in order. */
  lemma NoFiltersGiveEverything(books: seq<Book>, f: Filters)
    requires !Active(f.genre) && f.isRead.None? && !Active(f.author)
    ensures Run(books, f) == books
  {
  }

  /** The genre filter ignores case: a parameter that lower-cases to a
      genre's lower-cased name selects exactly the records of that genre. */
  lemma GenreFilterIgnoresCase(books: seq<Book>, genre: string, g: Genre)
    requires Lower(genre) == Lower(Name(g))
    ensures Run(books, Filters(Some(genre), None, None)) == Filter(books, (b: Book) => b.genre == g)
  {
    assert genre != "" by {
      assert |Lower(genre)| == |Name(g)|;
    }
    forall b: Book ensures GenreMatches(b, genre) == (b.genre == g) {
      LowerNamesDistinct(b.genre, g);
    }
    FilterExtensional(books, GenreTest(genre), (b: Book) => b.genre == g);
  }

  /** No two genre names are equal once lower-cased. */
  lemma LowerNamesDistinct(g: Genre, h: Genre)
    ensures Lower(Name(g)) == Lower(Name(h)) <==> g == h
  {
    if g != h {
      var x, y := Lower(Name(g)), Lower(Name(h));
      if |x| == |y| {
        assert x[0] == LowerChar(Name(g)[0]) && y[0] == LowerChar(Name(h)[0]);
        assert x[0] != y[0];
      }
    }
  }

  /** "fiction" selects the Fiction records. */
  lemma LowerCaseFictionQuery(books: seq<Book>)
    ensures Run(books, Filters(Some("fiction"), None, None)) == Filter(books, (b: Book) => b.genre == Fiction)
  {
    assert Lower("fiction") == Lower(Name(Fiction));
    GenreFilterIgnoresCase(books, "fiction", Fiction);
  }

  /** Searching by an author's full name, in any case, finds that author's records. */
  lemma FullAuthorNameMatches(b: Book, author: string)
    requires Lower(author) == Lower(b.author)
    ensures AuthorMatches(b, author)
  {
  }
}
