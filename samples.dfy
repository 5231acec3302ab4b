/** Facts about the concrete request bodies and seed records used by the
    scenarios: what trim, the genre list and the year check make of them. */
module Samples {
  import opened Options
  import opened JsValues
  import opened Text
  import opened Genres
  import opened Records

  /** The Orwell body with a padded title passes every field check of POST. */
  lemma PaddedTitleIsAccepted()
    ensures CreateFieldsValid(CreateBody(Str(" 1984"), Str("George Orwell"), Str("Sci-Fi"), Num(1949.0)), 2026)
  {
    OrwellFieldsPresent();
    PaddedTitleIsNonBlank();
    AuthorIsNonBlank();
    OrwellFields();
  }

  /** The padded title and the author trim to the seed record "1984" by
      George Orwell. */
  lemma PaddedTitleTrimsToSeed()
    ensures Trim(" 1984") == Seed()[2].title && Trim("George Orwell") == Seed()[2].author
  {
    TrimmedTitle();
    TrimmedAuthor();
  }

  lemma OrwellFieldsPresent()
    ensures RequiredPresent(Str(" 1984"), Str("George Orwell"), Str("Sci-Fi"), Num(1949.0))
  {
  }

  lemma PaddedTitleIsNonBlank()
    ensures NonBlankString(Str(" 1984")) && Trim(" 1984") == "1984"
  {
    TrimmedTitle();
  }

  lemma AuthorIsNonBlank()
    ensures NonBlankString(Str("George Orwell")) && Trim("George Orwell") == "George Orwell"
  {
    TrimmedAuthor();
  }

  /** Genre and year of the Orwell body pass their checks. */
  lemma OrwellFields()
    ensures KnownGenre(Str("Sci-Fi")) && Parse("Sci-Fi") == Some(SciFi)
    ensures YearInRange(Num(1949.0), 2026) && Num(1949.0).n.Floor == 1949
  {
    ParseName(SciFi);
    assert 1949.0.Floor == 1949;
  }

  lemma TrimmedTitle()
    ensures Trim(" 1984") == "1984"
  {
    PaddedTitleTrimsLikeTitle();
    TitleIsTrimmed();
  }

  lemma PaddedTitleTrimsLikeTitle()
    ensures Trim(" 1984") == Trim("1984")
  {
    var padded := " 1984";
    assert padded[1..] == "1984";
    TrimDropsLeadingSpace(padded);
  }

  lemma TitleIsTrimmed()
    ensures Trim("1984") == "1984"
  {
    TrimKeepsUnpadded("1984");
  }

  lemma TrimmedAuthor()
    ensures Trim("George Orwell") == "George Orwell"
  {
    var name := "George Orwell";
    assert name[0] == 'G' && name[|name| - 1] == 'l';
    TrimKeepsUnpadded(name);
  }

  /** No seed record has the padded title, even ignoring case. */
  lemma PaddedTitleIsNew()
    ensures !IsDuplicate(Seed(), " 1984", "George Orwell")
  {
    forall b | b in Seed() ensures Lower(b.title) != Lower(" 1984") {
    }
  }

  /** Where ids 1 and 3 sit in the seed store. */
  lemma SeedSlots()
    ensures IndexOf(Seed(), 1) == Some(0) && IndexOf(Seed(), 3) == Some(2)
    ensures Seed()[0].id == 1 && Seed()[0].dateAdded == "2024-01-15"
  {
    assert Seed()[1..][1..] == [Seed()[2]];
  }

  /** Genre and year of the Gatsby body pass their checks, and its title is
      all white space. */
  lemma GatsbyFields()
    ensures KnownGenre(Str("Fiction")) && Parse("Fiction") == Some(Fiction)
    ensures YearInRange(Num(1925.0), 2026) && Num(1925.0).n.Floor == 1925
    ensures RequiredPresent(Str("   "), Str("F. Scott Fitzgerald"), Str("Fiction"), Num(1925.0))
    ensures ReplacementRating(Null)
  {
    assert 1925.0.Floor == 1925;
  }

  lemma BlankTitleTrimsToEmpty()
    ensures Trim("   ") == ""
  {
    var blank := "   ";
    assert blank[0] == ' ' && blank[1] == ' ' && blank[2] == ' ';
    assert AllSpace(blank);
  }
}
