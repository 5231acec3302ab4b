# Book catalogue: a verified model

`index.js` is a small Express service that keeps a reading list in memory.
The store is an ordered array `books` of records, plus a counter `nextId`.
Five handlers change the store:

- POST /books creates a record, after validation and a duplicate search.
- PUT /books/:id replaces a record.
- DELETE /books/:id removes a record.
- PATCH /books/:id/read marks a record as read.
- PATCH /books/:id/rate sets a record's rating.

Two handlers only read it: GET /books filters by genre, read status and
author, and GET /stats aggregates counts, ratings and genres.

The model keeps the same structure:

- `Store.Catalogue` is a class with fields `books: seq<Book>` and `nextId`.
  It has one method per mutating handler. Each method returns a `Result`
  (the record, or one `Error` per distinct response) instead of writing an
  HTTP response.
- The class invariant `Valid` says three things. Ids are positive and
  strictly increasing along the array. Every id is below `nextId`. Every
  stored rating is null or in [1, 5].
- Request bodies hold JSON values (`JsValues.Json`), so the handlers' checks
  appear as the code writes them: falsy tests, `typeof`, `Number.isInteger`
  and `===`.
- The GET /books query is a pure chain of filters (`Query.Run`).
- The genre breakdown of GET /stats is an imperative loop over a dictionary
  (`Statistics.CountGenres`), proved against a recursive tally.
- The rest of GET /stats is made of pure functions, gathered by
  `Statistics.Summarize`.
- The clock is a parameter. `currentYear` is the upper bound on years, and
  `today` is the `dateAdded` of a new record.

### Behaviour of the code a reader may not expect

The model follows the code in each case below.

- **Tie for the most popular genre.** The reduction `a > b ? a : b` keeps
  the later key when counts are equal. A reader might expect the first
  genre to reach the maximum to keep the lead, but for genres Fiction,
  Mystery, Fiction, Mystery the answer is Mystery
  (`Scenarios.TieGoesToLaterGenre`).
- **PUT with the rating left out is refused (400).** The test is
  `rating !== null && typeof rating !== 'number'`, so an omitted rating
  fails rather than becoming null (`Scenarios.ReplaceWithoutRatingIsRefused`).
  A rating of 0 is refused too, because it is below 1. So `rating || null`
  only ever turns null into null.
- **Ratings may be fractional.** PUT (index.js:166) and PATCH /rate
  (index.js:228) check only for a number in [1, 5], not for an integer.
  POST takes no rating and stores null (index.js:130).
- **The duplicate search does not give uniqueness.** It compares the
  lower-cased title and author *as sent* with the stored values, which
  were trimmed when stored. A padded title therefore slips past it
  (`Scenarios.WhitespaceSlipsPastDuplicateCheck`). No uniqueness invariant
  is claimed.
- **PUT checks title and author only for truthiness.** A title of spaces
  is stored as "" (`Scenarios.ReplaceStoresBlankTitle`). A title that is
  not a string makes `title.trim()` throw, which Express answers with 500.
  The model calls this outcome `Error.TypeError`.

## Model

| member | source | states |
|---|---|---|
| Text.Trim | index.js:93-97 | trim's result is no longer than its input, is empty exactly when the input is all ECMAScript white space, and neither starts nor ends with white space |
| Text.TrimIsMiddle | index.js:125-126 | the trimmed string sits in the input between a white-space prefix and a white-space suffix |
| Text.TrimIdempotent | index.js:125-126 | trimming a stored (already trimmed) title or author changes nothing |
| Text.TrimKeepsUnpadded | index.js:125-126 | a string with non-space ends is its own trim |
| Text.TrimDropsLeadingSpace | index.js:125-126 | a leading white-space character does not affect the trimmed value |
| Text.LowerIdempotent | index.js:115-116 | lower-casing twice equals lower-casing once, so comparing lower-cased values ignores case on both sides |
| Text.ContainsAt | index.js:60 | `includes` holds exactly when the needle is a prefix of some suffix of the haystack |
| Seqs.Filter | index.js:50-60 | `Array.prototype.filter` never yields more elements than it is given |
| Seqs.FilterMembership | index.js:50-60 | every element of a filter's result is in the input and satisfies the predicate, and every input element that satisfies it is kept |
| Seqs.FilterAppend | index.js:50-60 | filtering `s + [x]` is filtering `s`, then keeping `x` exactly when it satisfies the predicate |
| Seqs.FilterFilter | index.js:47-62 | two filters in a row equal one filter by the conjunction of the two predicates |
| Seqs.FilterExtensional | index.js:47-62 | filters by predicates that agree on every element give the same result |
| Seqs.FilterKeepsAll | index.js:47-62 | a filter whose predicate always holds returns the whole sequence |
| Seqs.ConditionalFilter | index.js:49-62 | applying a filter only when a parameter is given equals filtering by "parameter absent or predicate holds" |
| Seqs.FilterIsSubsequence | index.js:50-60 | a filter's result is an order-preserving subsequence of its input |
| Seqs.RemoveIsSubsequence | index.js:197 | splicing out one element leaves an order-preserving subsequence |
| Genres.Parse | index.js:6 | a string is accepted exactly when it is one of the six genre names, case-sensitively, and maps to the genre of that name |
| Genres.ParseName | index.js:6 | each of the six names is accepted and parses back to its genre |
| Records.IndexOf | index.js:181 | `findIndex` gives the first slot holding the id, or none when no record has it |
| Records.FindById | index.js:42 | `findBookById` finds a record exactly when some stored record has the id, and the record found has that id |
| Records.RatingsStayInRange | index.js:166-177 | appending or overwriting with a record whose rating is null or in [1, 5] keeps every stored rating null or in [1, 5] |
| Records.AppendKeepsIdsOrdered | index.js:124-134 | pushing a record with id `nextId` and then raising `nextId` keeps the ids increasing and below `nextId` |
| Records.OverwriteKeepsIdsOrdered | index.js:171-182 | overwriting a slot with a record of the same id keeps the id order |
| Records.RemoveKeepsIdsOrdered | index.js:197 | splicing out a slot keeps the id order |
| Records.IdIsUnique | index.js:191-197 | under the id order, no slot other than the one found holds the same id |
| Store.Catalogue.constructor | index.js:8-41 | the store starts with the three seed records and `nextId` 4, and satisfies the invariant |
| Store.Catalogue.Create | index.js:86-139 | the checks run in the handler's order: missing field, title, author, genre, year, then duplicate (409). Success happens exactly when all of them pass. The new record has the old `nextId` as its id, which is above every stored id. Title and author are trimmed, `isRead` is false, the rating is null and `dateAdded` is today. The record is appended at the end and `nextId` rises by one. On any error the store does not change |
| Store.Catalogue.Append | index.js:123-134 | the push of the new record with id `nextId` and the increment of `nextId` keep the invariant |
| Store.Catalogue.Replace | index.js:142-188 | the checks run in order: unknown id (404), missing field, genre, year, rating (null or a number in [1, 5]), then a non-string title or author (500). There is no duplicate search. Success happens exactly when all checks pass. Only the found slot changes: it keeps its id and `dateAdded`, takes trimmed title and author, and takes `isRead` as sent (false when omitted). The rating is the number sent, or null. `nextId` does not change. On any error the store does not change |
| Store.Catalogue.Overwrite | index.js:181-182 | writing a same-id record with a null or in-range rating into a slot keeps the invariant and changes only that slot |
| Store.Catalogue.Delete | index.js:190-202 | an unknown id gives 404 and no change. Otherwise the first record with the id is removed and returned, the others keep their order, the length drops by one and no remaining record has that id |
| Store.Catalogue.MarkRead | index.js:205-216 | an unknown id gives 404 and no change. Otherwise only `isRead` of the found record becomes true, and the call is idempotent |
| Store.Catalogue.Rate | index.js:219-238 | unknown id gives 404, a falsy, non-number or out-of-range rating gives 400, and success happens exactly when neither applies. On success only the rating of the found record changes. The store is unchanged on error |
| Query.QueryIsOneFilter | index.js:44-62 | the chain of genre, read-status and author filters equals one filter by "every given filter matches" |
| Query.QueryMembership | index.js:44-62 | a record is in the query result exactly when it is stored and satisfies every given filter |
| Query.QueryKeepsOrder | index.js:44-62 | the query result is an order-preserving subsequence of the store |
| Query.NoFiltersGiveEverything | index.js:45-62 | with genre and author absent or empty, and no read-status parameter, the result is the whole store |
| Query.GenreFilterIgnoresCase | index.js:49-53 | a genre parameter equal to a genre's name up to case selects exactly that genre's records |
| Query.LowerNamesDistinct | index.js:51 | the six genre names stay distinct after lower-casing, so the genre filter never mixes genres |
| Query.LowerCaseFictionQuery | index.js:49-53 | `?genre=fiction` selects exactly the Fiction records |
| Query.FullAuthorNameMatches | index.js:58-61 | an author parameter equal to a record's author up to case matches that record |
| Statistics.SumRatingsBounds | index.js:248 | the sum of n ratings in [1, 5] lies in [n, 5n] |
| Statistics.ReadingProgress | index.js:270 | the progress is 0 for an empty store. Otherwise it is read/total × 100 rounded half up (as an exact integer inequality), and it lies in [0, 100] whenever read ≤ total |
| Statistics.CountGenres | index.js:251-253 | the `forEach` loop over the store builds exactly the genre tally |
| Statistics.OccurrencesAppend | index.js:252-253 | one more record adds one to its own genre's count and nothing to other genres' counts |
| Statistics.TallyCounts | index.js:251-253 | the breakdown lists each genre present in the store once, with no other keys, and counts exactly that genre's records |
| Statistics.TallyTotal | index.js:242-253 | the breakdown's counts add up to the number of records |
| Statistics.Leader | index.js:256-258 | the reduction's result is the initial key or one of the keys |
| Statistics.LeaderIsLastMaximum | index.js:256-258 | the reduction returns a key whose count is maximal, and every later key has a strictly smaller count. On a tie the last maximal key wins |
| Statistics.BreakdownEmptyIffNoBooks | index.js:251-279 | the breakdown is empty exactly when the store is empty, so the most popular genre is "None" exactly then |
| Statistics.AverageRating | index.js:246-249 | with no rated record the average is 0. Otherwise average × (number rated) equals the sum of the ratings |
| Statistics.AverageInRange | index.js:246-249 | when every stored rating is null or in [1, 5] and some record is rated, the average lies in [1, 5] |
| Statistics.Summarize | index.js:241-285 | the summary holds: the total, truthy `isRead` counted as read with read + unread = total, and progress in [0, 100] (0 when empty). Rated means the rating is not null, with rated + unrated = total. The average is that of `AverageRating`, in [1, 5] under the invariant. The breakdown counts each genre's records, its keys are distinct and its counts sum to the total. Most popular is "None" exactly for an empty store; otherwise it is a key with the maximal count and every later key has a strictly smaller count |
| Scenarios.SeedStatistics | index.js:241-285 | on the seed store GET /stats reports 3 books, 2 read, 1 unread, 67 percent, 2 rated, 1 unrated, average 4.5, most popular Fiction |
| Scenarios.SeedCounts | index.js:243-270 | the seed store has 2 read and 2 rated records, progress 67, average 4.5, most popular Fiction |
| Scenarios.SeedTally | index.js:251-253 | the seed breakdown is Fiction 2, Sci-Fi 1, in that key order |
| Scenarios.TieGoesToLaterGenre | index.js:256-258 | genres Fiction, Mystery, Fiction, Mystery give Mystery as the most popular |
| Scenarios.TieTally | index.js:251-253 | genres Fiction, Mystery, Fiction, Mystery give the breakdown Fiction 2, Mystery 2, with Fiction listed first |
| Scenarios.WhitespaceSlipsPastDuplicateCheck | index.js:114-134 | a body whose raw title and author match no stored record, but which trim to a stored record's, is accepted. The store then holds two records with the same title and author |
| Scenarios.ReplaceWithoutRatingIsRefused | index.js:166-167 | PUT on record 3 with a valid body and no rating is refused with InvalidRating, and the store stays the seed |
| Scenarios.ReplaceStoresBlankTitle | index.js:150-178 | PUT on record 1 with a title of three spaces succeeds and stores the title "", keeping id 1 and `dateAdded` 2024-01-15 |
| Samples.PaddedTitleIsAccepted | index.js:89-112 | " 1984" by George Orwell, Sci-Fi, 1949 passes every field check of POST in 2026 |
| Samples.PaddedTitleTrimsToSeed | index.js:125-126 | " 1984" and "George Orwell" trim to the title and author of seed record 3 |
| Samples.PaddedTitleIsNew | index.js:114-117 | no seed record has the lower-cased title " 1984" with author George Orwell |
| Samples.SeedSlots | index.js:8-42 | ids 1 and 3 sit in slots 0 and 2 of the seed store, and record 1 was added on 2024-01-15 |
| Samples.GatsbyFields | index.js:150-165 | a PUT body with title "   ", author F. Scott Fitzgerald, Fiction, 1925 and a null rating passes the presence, genre, year and rating checks |
| Samples.BlankTitleTrimsToEmpty | index.js:172 | a title of three spaces trims to "" |

## Left out

- Express routing, request parsing, the message strings, the "No books found" message in place of `count` (index.js:63-73) and `app.listen`. Outcomes are `Result` values; `Records.StatusCode` gives the HTTP status of each error.
- `parseInt` of the path id: ids are taken as integers.
- The clock: `currentYear` is a parameter of `Create` and `Replace`, and `today` is a parameter of `Create` only; `Replace` keeps the stored `dateAdded`.
- `recentlyAdded` in GET /stats. It depends on JavaScript `Date` parsing, time of day and time zone, so `Statistics.Stats` has no field for it.
- Statistics.AverageRating: the mean is exact; the `toFixed(1)` rounding and `parseFloat` of the response are not modelled.
- Statistics.ReadingProgress: `Math.round` of a floating-point quotient is modelled as exact round-half-up on integers, so binary floating-point error at exact halves is not modelled.
- Numbers are exact reals. A JSON body cannot carry NaN, but an overflowing literal such as `1e400` parses to Infinity. No real stands for it, and the model needs none: every handler reaches the same outcome for ±Infinity as for a very large real of that sign. `!v`, `typeof`, `< 1`, `> 5`, `< 1000` and `> currentYear` give the same answers. `Number.isInteger` is false for ±Infinity but true for a large real, and the year range check that follows refuses the large real, so the outcome is the same 400. Floating-point addition of ratings is exact here.
- Text.Lower: `toLowerCase` maps only A–Z; Unicode case mapping of other letters is not modelled.
- Query parameters given more than once (arrays in Express) are not modelled; each parameter is absent or a string.
- Object identity: PATCH handlers update the found object in place. The model overwrites its slot with an updated value, which is equivalent because every slot holds a distinct object.
