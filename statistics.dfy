/** GET /stats: counts, the average rating, the genre breakdown and the most
    popular genre over the whole store. */
module Statistics {
  import opened Options
  import opened JsValues
  import opened Genres
  import opened Seqs
  import opened Records

  /** `books.filter(book => book.isRead)`: a truthy isRead counts as read. */
  predicate CountsAsRead(b: Book) {
    Truthy(b.isRead)
  }

  /** `books.filter(book => book.rating !== null)`. */
  predicate IsRated(b: Book) {
    b.rating.Some?
  }

  /** The value a record adds to the rating sum; `sum + null` adds 0. */
  function RatingValue(b: Book): real {
    if b.rating.Some? then b.rating.value else 0.0
  }

  /** `reduce((sum, book) => sum + book.rating, 0)`, folding from the left. */
  function SumRatings(bs: seq<Book>): real {
    if bs == [] then 0.0 else SumRatings(bs[..|bs| - 1]) + RatingValue(bs[|bs| - 1])
  }

  /** Ratings all in [1, 5] sum to between the count and five times the count. */
  lemma {:induction false} SumRatingsBounds(bs: seq<Book>)
    requires forall i :: 0 <= i < |bs| ==> bs[i].rating.Some? && RatingInRange(bs[i].rating)
    ensures |bs| as real <= SumRatings(bs) <= 5.0 * |bs| as real
  {
    if bs != [] {
      SumRatingsBounds(bs[..|bs| - 1]);
    }
  }

  /** `Math.round(read / total * 100)` for a non-empty store, 0 for an empty
      one: the nearest whole percentage, halves rounded up. */
  function ReadingProgress(read: nat, total: nat): (p: int)
    ensures total == 0 ==> p == 0
    ensures total > 0 ==> 2 * total * p <= 200 * read + total < 2 * total * (p + 1)
    ensures read <= total ==> 0 <= p <= 100
  {
    if total > 0 then
      var n, d := 200 * read + total, 2 * total;
      var q := n / d;
      DivisionBounds(n, d);
      if read <= total && q > 100 then
        MultiplyMonotone(d, 101, q);
        assert false;
        0
      else q
    else 0
  }

  lemma DivisionBounds(n: nat, d: int)
    requires d > 0
    ensures 0 <= n / d && d * (n / d) <= n < d * (n / d + 1)
  {
    var q, m := n / d, n % d;
    assert n == d * q + m && 0 <= m < d;
    assert d * (q + 1) == d * q + d;
  }

  lemma MultiplyMonotone(d: nat, a: int, b: int)
    requires a <= b
    ensures d * a <= d * b
  {
    assert d * b == d * a + d * (b - a);
  }

  /** The genre breakdown: the keys of `genreStats` in insertion order and
      the count stored under each. */
  datatype Breakdown = Breakdown(keys: seq<Genre>, counts: map<Genre, nat>)

  /** The dictionary the forEach loop has built after the given records. */
  function Tally(books: seq<Book>): Breakdown {
    if books == [] then Breakdown([], map[])
    else
      var t := Tally(books[..|books| - 1]);
      var g := books[|books| - 1].genre;
      if g in t.counts then Breakdown(t.keys, t.counts[g := t.counts[g] + 1])
      else Breakdown(t.keys + [g], t.counts[g := 1])
  }

  /** The forEach loop of the stats handler, updating the dictionary in place. */
  method CountGenres(books: seq<Book>) returns (t: Breakdown)
    ensures t == Tally(books)
  {
    t := Breakdown([], map[]);
    var i := 0;
    while i < |books|
      invariant 0 <= i <= |books|
      invariant t == Tally(books[..i])
    {
      var g := books[i].genre;
      assert books[..i + 1][..i] == books[..i];
      if g in t.counts {
        t := t.(counts := t.counts[g := t.counts[g] + 1]);
      } else {
        t := Breakdown(t.keys + [g], t.counts[g := 1]);
      }
      i := i + 1;
    }
    assert books[..|books|] == books;
  }

  /** How many records have genre `g`. */
  function Occurrences(books: seq<Book>, g: Genre): nat {
    |Filter(books, (b: Book) => b.genre == g)|
  }

  lemma OccurrencesAppend(books: seq<Book>, b: Book, g: Genre)
    ensures Occurrences(books + [b], g) == Occurrences(books, g) + (if b.genre == g then 1 else 0)
  {
    FilterAppend(books, b, (x: Book) => x.genre == g);
  }

  predicate Distinct(ks: seq<Genre>) {
    forall i, j :: 0 <= i < j < |ks| ==> ks[i] != ks[j]
  }

  /** The breakdown has each genre present in the store once as a key, in no
      other place, and counts exactly that genre's records under it. */
  lemma {:induction false} TallyCounts(books: seq<Book>)
    ensures var t := Tally(books);
            && Distinct(t.keys)
            && (forall g :: g in t.keys <==> g in t.counts)
            && (forall g :: g in t.counts <==> Occurrences(books, g) > 0)
            && (forall g :: g in t.counts ==> t.counts[g] == Occurrences(books, g))
  {
    if books != [] {
      var pre, b := books[..|books| - 1], books[|books| - 1];
      assert books == pre + [b];
      TallyCounts(pre);
      forall g ensures Occurrences(books, g) == Occurrences(pre, g) + (if b.genre == g then 1 else 0) {
        OccurrencesAppend(pre, b, g);
      }
    }
  }

  /** The counts of the listed keys, added up. */
  function SumCounts(ks: seq<Genre>, counts: map<Genre, nat>): nat {
    if ks == [] then 0
    else SumCounts(ks[..|ks| - 1], counts) + (if ks[|ks| - 1] in counts then counts[ks[|ks| - 1]] else 0)
  }

  /** Changing the count of a key that is not listed changes no sum. */
  lemma {:induction false} SumCountsOther(ks: seq<Genre>, counts: map<Genre, nat>, g: Genre, v: nat)
    requires g !in ks
    ensures SumCounts(ks, counts[g := v]) == SumCounts(ks, counts)
  {
    if ks != [] {
      SumCountsOther(ks[..|ks| - 1], counts, g, v);
    }
  }

  /** Raising the count of a key listed once raises the sum by as much. */
  lemma {:induction false} SumCountsBump(ks: seq<Genre>, counts: map<Genre, nat>, g: Genre)
    requires Distinct(ks) && g in ks && g in counts
    ensures SumCounts(ks, counts[g := counts[g] + 1]) == SumCounts(ks, counts) + 1
  {
    var pre, last := ks[..|ks| - 1], ks[|ks| - 1];
    if last == g {
      assert g !in pre;
      SumCountsOther(pre, counts, g, counts[g] + 1);
    } else {
      SumCountsBump(pre, counts, g);
    }
  }

  /** The breakdown's counts add up to the number of records. */
  lemma {:induction false} TallyTotal(books: seq<Book>)
    ensures SumCounts(Tally(books).keys, Tally(books).counts) == |books|
  {
    if books != [] {
      var pre, g := books[..|books| - 1], books[|books| - 1].genre;
      var t := Tally(pre);
      TallyTotal(pre);
      TallyCounts(pre);
      if g in t.counts {
        SumCountsBump(t.keys, t.counts, g);
      } else {
        SumCountsOther(t.keys, t.counts, g, 1);
        assert (t.keys + [g])[..|t.keys|] == t.keys;
      }
    }
  }

  /** The reduce of `genreStats[a] > genreStats[b] ? a : b` from `init` over
      `ks`: a later key replaces the leader unless the leader's count is
      strictly greater. */
  function Leader(init: Genre, ks: seq<Genre>, counts: map<Genre, nat>): (r: Genre)
    requires init in counts && forall k :: k in ks ==> k in counts
    ensures r == init || r in ks
  {
    if ks == [] then init
    else
      var acc := Leader(init, ks[..|ks| - 1], counts);
      var b := ks[|ks| - 1];
      if counts[acc] > counts[b] then acc else b
  }

  /** The leader, starting from the first key, is the LAST key whose count is
      the maximum: no key has a greater count, and every key after it has a
      strictly smaller one. */
  lemma {:induction false} LeaderIsLastMaximum(ks: seq<Genre>, counts: map<Genre, nat>)
    requires |ks| > 0 && forall k :: k in ks ==> k in counts
    ensures exists i :: 0 <= i < |ks| && ks[i] == Leader(ks[0], ks, counts)
                        && (forall j :: 0 <= j < |ks| ==> counts[ks[j]] <= counts[ks[i]])
                        && (forall j :: i < j < |ks| ==> counts[ks[j]] < counts[ks[i]])
  {
    var n := |ks| - 1;
    var pre, b := ks[..n], ks[n];
    assert forall k :: k in pre ==> k in ks;
    var r := Leader(ks[0], ks, counts);
    if n == 0 {
      assert Leader(ks[0], pre, counts) == ks[0];
      assert r == ks[0];
      assert ks[0] == ks[0] && (forall j :: 0 <= j < |ks| ==> counts[ks[j]] <= counts[ks[0]]);
    } else {
      assert pre[0] == ks[0];
      LeaderIsLastMaximum(pre, counts);
      var acc := Leader(ks[0], pre, counts);
      assert r == if counts[acc] > counts[b] then acc else b;
      var i :| 0 <= i < |pre| && pre[i] == acc
               && (forall j :: 0 <= j < |pre| ==> counts[pre[j]] <= counts[pre[i]])
               && (forall j :: i < j < |pre| ==> counts[pre[j]] < counts[pre[i]]);
      assert forall j :: 0 <= j < n ==> ks[j] == pre[j];
      if counts[acc] > counts[b] {
        assert ks[i] == r;
        assert forall j :: 0 <= j < |ks| ==> counts[ks[j]] <= counts[ks[i]];
        assert forall j :: i < j < |ks| ==> counts[ks[j]] < counts[ks[i]];
      } else {
        assert ks[n] == r;
        assert forall j :: 0 <= j < |ks| ==> counts[ks[j]] <= counts[ks[n]];
      }
    }
  }

  /** `mostPopularGenre || 'None'`: no genre for an empty breakdown, else the
      leader of its keys. */
  function MostPopular(t: Breakdown): Option<Genre>
    requires forall k :: k in t.keys ==> k in t.counts
  {
    if t.keys == [] then None else Some(Leader(t.keys[0], t.keys, t.counts))
  }

  /** The most popular genre of the store, or none when it is empty. */
  function MostPopularGenre(books: seq<Book>): Option<Genre> {
    TallyCounts(books);
    MostPopular(Tally(books))
  }

  /** The response of GET /stats, without `recentlyAdded`. */
  datatype Stats = Stats(
    totalBooks: nat,
    readBooks: nat,
    unreadBooks: nat,
    readingProgress: int,
    averageRating: real,
    ratedBooks: nat,
    unratedBooks: nat,
    breakdown: Breakdown,
    mostPopular: Option<Genre>)

  /** The mean rating of the rated records, 0 when none is rated (before
      the handler rounds it to one decimal). */
  function AverageRating(books: seq<Book>): (avg: real)
    ensures |Filter(books, IsRated)| == 0 ==> avg == 0.0
    ensures |Filter(books, IsRated)| > 0 ==> avg * |Filter(books, IsRated)| as real == SumRatings(Filter(books, IsRated))
  {
    var rated := Filter(books, IsRated);
    if |rated| > 0 then SumRatings(rated) / |rated| as real else 0.0
  }

  /** With every rating in [1, 5], the mean of the rated records is in [1, 5]. */
  lemma AverageInRange(books: seq<Book>)
    requires AllRatingsInRange(books) && |Filter(books, IsRated)| > 0
    ensures 1.0 <= AverageRating(books) <= 5.0
  {
    var rated := Filter(books, IsRated);
    FilterMembership(books, IsRated);
    forall i | 0 <= i < |rated| ensures rated[i].rating.Some? && RatingInRange(rated[i].rating) {
      var k :| 0 <= k < |books| && books[k] == rated[i];
    }
    SumRatingsBounds(rated);
    MeanBounds(SumRatings(rated), |rated| as real);
  }

  lemma MeanBounds(sum: real, n: real)
    requires n > 0.0 && n <= sum <= 5.0 * n
    ensures 1.0 <= sum / n <= 5.0
  {
    var a := sum / n;
    assert a * n == sum;
    assert 1.0 <= a by {
      assert (a - 1.0) * n == sum - n;
    }
    var c := 5.0 - a;
    assert c * n == 5.0 * n - a * n;
    assert c * n >= 0.0;
    assert a <= 5.0;
  }

  /** A non-empty store has a non-empty breakdown. */
  lemma BreakdownEmptyIffNoBooks(books: seq<Book>)
    ensures Tally(books).keys == [] <==> books == []
  {
    TallyCounts(books);
    if books != [] {
      FilterMembership(books, (b: Book) => b.genre == books[0].genre);
      assert Occurrences(books, books[0].genre) > 0;
    }
  }

  /** The stats handler over the records `books`. */
  method Summarize(books: seq<Book>) returns (s: Stats)
    ensures s.totalBooks == |books|
    ensures s.readBooks == |Filter(books, CountsAsRead)| && s.readBooks + s.unreadBooks == s.totalBooks
    ensures s.readingProgress == ReadingProgress(s.readBooks, s.totalBooks)
    ensures 0 <= s.readingProgress <= 100 && (s.totalBooks == 0 ==> s.readingProgress == 0)
    ensures s.ratedBooks == |Filter(books, IsRated)| && s.ratedBooks + s.unratedBooks == s.totalBooks
    ensures s.averageRating == AverageRating(books)
    ensures s.ratedBooks > 0 && AllRatingsInRange(books) ==> 1.0 <= s.averageRating <= 5.0
    ensures s.breakdown == Tally(books) && Distinct(s.breakdown.keys)
    ensures forall g :: g in s.breakdown.keys <==> g in s.breakdown.counts
    ensures forall g :: g in s.breakdown.counts <==> Occurrences(books, g) > 0
    ensures forall g :: g in s.breakdown.counts ==> s.breakdown.counts[g] == Occurrences(books, g)
    ensures SumCounts(s.breakdown.keys, s.breakdown.counts) == s.totalBooks
    ensures s.mostPopular == MostPopularGenre(books)
    ensures s.mostPopular.None? <==> s.totalBooks == 0
    ensures s.mostPopular.Some? ==>
              exists i :: 0 <= i < |s.breakdown.keys| && s.breakdown.keys[i] == s.mostPopular.value
                          && (forall g :: g in s.breakdown.counts ==>
                                s.breakdown.counts[g] <= s.breakdown.counts[s.mostPopular.value])
                          && (forall j :: i < j < |s.breakdown.keys| ==>
                                s.breakdown.counts[s.breakdown.keys[j]] < s.breakdown.counts[s.mostPopular.value])
  {
    var total := |books|;
    var read := |Filter(books, CountsAsRead)|;
    var rated := Filter(books, IsRated);
    var average := AverageRating(books);
    if |rated| > 0 && AllRatingsInRange(books) {
      AverageInRange(books);
    }
    var t := CountGenres(books);
    TallyCounts(books);
    TallyTotal(books);
    BreakdownEmptyIffNoBooks(books);
    var top := MostPopular(t);
    if t.keys != [] {
      LeaderIsLastMaximum(t.keys, t.counts);
    }
    s := Stats(total, read, total - read, ReadingProgress(read, total), average,
               |rated|, total - |rated|, t, top);
  }
}
