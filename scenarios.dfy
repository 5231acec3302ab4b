/** Concrete runs of the handlers on the seed store, stated as what their
    contracts let a caller conclude. */
module Scenarios {
  import opened Options
  import opened JsValues
  import opened Text
  import opened Genres
  import opened Seqs
  import opened Records
  import opened Store
  import opened Statistics
  import opened Samples

  /** GET /stats on the seed store: 3 books, 2 read, 67 percent, ratings 5
      and 4 averaging 4.5, Fiction the most popular genre. */
  method SeedStatistics() returns (s: Stats)
    ensures s.totalBooks == 3 && s.readBooks == 2 && s.unreadBooks == 1
    ensures s.readingProgress == 67
    ensures s.ratedBooks == 2 && s.unratedBooks == 1 && s.averageRating == 4.5
    ensures s.mostPopular == Some(Fiction)
  {
    var c := new Catalogue();
    s := Summarize(c.books);
    SeedCounts();
  }

  lemma SeedCounts()
    ensures |Filter(Seed(), CountsAsRead)| == 2 && |Filter(Seed(), IsRated)| == 2
    ensures ReadingProgress(2, 3) == 67
    ensures AverageRating(Seed()) == 4.5
    ensures MostPopularGenre(Seed()) == Some(Fiction)
  {
    var seed := Seed();
    assert Filter(seed, CountsAsRead) == [seed[1], seed[2]] by {
      assert Filter(seed[2..], CountsAsRead) == [seed[2]];
      assert Filter(seed[1..], CountsAsRead) == [seed[1], seed[2]];
    }
    var rated := Filter(seed, IsRated);
    assert rated == [seed[1], seed[2]] by {
      assert Filter(seed[2..], IsRated) == [seed[2]];
      assert Filter(seed[1..], IsRated) == [seed[1], seed[2]];
    }
    assert SumRatings(rated) == 9.0 by {
      assert rated[..1] == [seed[1]];
      assert SumRatings(rated[..1]) == 5.0;
    }
    SeedTally();
    assert Leader(Fiction, [Fiction], map[Fiction := 2, SciFi := 1]) == Fiction;
  }

  lemma SeedTally()
    ensures Tally(Seed()) == Breakdown([Fiction, SciFi], map[Fiction := 2, SciFi := 1])
  {
    var seed := Seed();
    var s1, s2 := [seed[0]], [seed[0], seed[1]];
    assert s1[..0] == [] && s2[..1] == s1 && seed[..2] == s2;
    assert Tally(s1) == Breakdown([Fiction], map[Fiction := 1]);
    assert Tally(s2) == Breakdown([Fiction], map[Fiction := 2]);
    assert Tally(seed) == Breakdown([Fiction, SciFi], map[Fiction := 2][SciFi := 1]);
    assert map[Fiction := 2][SciFi := 1] == map[Fiction := 2, SciFi := 1];
  }

  /** The tie rule of the most popular genre: with genres Fiction, Mystery,
      Fiction, Mystery both count 2, and the later key, Mystery, wins. */
  lemma TieGoesToLaterGenre()
    ensures var books := [Sample(1, Fiction), Sample(2, Mystery), Sample(3, Fiction), Sample(4, Mystery)];
            MostPopularGenre(books) == Some(Mystery)
  {
    TieTally();
    var t := Breakdown([Fiction, Mystery], map[Fiction := 2, Mystery := 2]);
    assert [Fiction, Mystery][..1] == [Fiction] && [Fiction][..0] == [];
    assert Leader(Fiction, [Fiction], t.counts) == Fiction;
  }

  /** The breakdown of Fiction, Mystery, Fiction, Mystery: both genres count 2,
      Fiction listed first. */
  lemma TieTally()
    ensures Tally([Sample(1, Fiction), Sample(2, Mystery), Sample(3, Fiction), Sample(4, Mystery)])
            == Breakdown([Fiction, Mystery], map[Fiction := 2, Mystery := 2])
  {
    var books := [Sample(1, Fiction), Sample(2, Mystery), Sample(3, Fiction), Sample(4, Mystery)];
    assert books[..3][..2] == books[..2] && books[..2][..1] == books[..1] && books[..1][..0] == [];
    assert Tally(books[..1]) == Breakdown([Fiction], map[Fiction := 1]);
    assert Tally(books[..2]) == Breakdown([Fiction, Mystery], map[Fiction := 1, Mystery := 1]);
    assert Tally(books[..3]) == Breakdown([Fiction, Mystery], map[Fiction := 2, Mystery := 1]);
  }

  function Sample(id: int, g: Genre): Book {
    Book(id, "T", "A", g, 2000, Bool(false), None, "2024-01-01")
  }

  /** The duplicate search of POST compares the title and author as sent with
      the stored, trimmed values. A body whose title and author trim to those
      of stored record `i`, but whose raw strings match no stored record, is
      accepted, and the store then holds two records with the same title and
      author. The seed store with " 1984" by George Orwell is such a case
      (`PaddedTitleIsAccepted`, `PaddedTitleTrimsToSeed`, `PaddedTitleIsNew`). */
  method WhitespaceSlipsPastDuplicateCheck(c: Catalogue, i: nat, body: CreateBody, currentYear: int, today: string)
      returns (r: Result<Book>)
    requires c.Valid() && i < |c.books|
    requires CreateFieldsValid(body, currentYear)
    requires Trim(body.title.s) == c.books[i].title && Trim(body.author.s) == c.books[i].author
    requires !IsDuplicate(c.books, body.title.s, body.author.s)
    modifies c
    ensures r.Ok? && c.books == old(c.books) + [r.value]
    ensures c.books[i].title == c.books[|c.books| - 1].title
    ensures c.books[i].author == c.books[|c.books| - 1].author
  {
    r := c.Create(body, currentYear, today);
  }

  /** PUT with the rating left out is refused: `undefined !== null` and it is
      not a number, so the record keeps its old rating. */
  method ReplaceWithoutRatingIsRefused() returns (r: Result<Book>, books: seq<Book>)
    ensures r == Err(InvalidRating) && books == Seed()
  {
    var c := new Catalogue();
    var body := UpdateBody(Str("1984"), Str("George Orwell"), Str("Sci-Fi"), Num(1949.0), Bool(true), Undefined);
    OrwellFields();
    SeedSlots();
    r := c.Replace(3, body, 2026);
    books := c.books;
  }

  /** PUT checks only that title and author are truthy: a title of spaces is
      stored as the empty string. */
  method ReplaceStoresBlankTitle() returns (r: Result<Book>)
    ensures r.Ok? && r.value.title == "" && r.value.id == 1 && r.value.dateAdded == "2024-01-15"
  {
    var c := new Catalogue();
    var body := UpdateBody(Str("   "), Str("F. Scott Fitzgerald"), Str("Fiction"), Num(1925.0), Undefined, Null);
    GatsbyFields();
    BlankTitleTrimsToEmpty();
    SeedSlots();
    r := c.Replace(1, body, 2026);
  }
}
