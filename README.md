# Bible PWA search and reference engine, and favorites store, in Dafny

The model covers the engine of an offline-first Bible reader and its store of favorite verses.

The engine is `frontend/src/lib/bibleDataLoader.ts`:
- **Loading.** It loads the scripture corpus, keeping an in-memory copy, a `localStorage` copy stamped with the time it was written, and a fetch of the bundled JSON file.
- **References.** It parses references such as `John 3:16`, `Psalm 23` or `Romans 8:28-30`. It finds books by exact name, prefix, infix or abbreviation, and looks up chapters and verse ranges.
- **Word index.** It builds a word index of the whole corpus.
- **Search.** It searches either in phrase mode (a direct scan) or in word mode (the index, with prefix and infix expansion of the keyword). Results are capped at 100 collected and 50 shown.
- **Composite operations.** It combines these into `getBookContent`, `getRandomVerse`, `getPopularVerse` and `getBibleStats`.

The favorites store is `frontend/src/lib/favoritesStorage.ts`:
- an IndexedDB object store `favorites` keyed by the id `book-chapter-verse`;
- a snapshot in the `localStorage` entry `favorites_backup` after every write;
- the same entry as the fallback when the database cannot be opened.

One module per concern, one file each:
- `wrappers.dfy`: `Option`, `Result`.
- `text.dfy`: the ASCII character classes behind `\s`, `\d` and `\w`; `toLowerCase`, `trim`, `startsWith`, `includes`, `join`, and decimal rendering.
- `corpus.dfy`: the corpus (`Verse`, `Chapter`, `Book`, `BibleData`), the result records, the error taxonomy, and the traversal of every verse in corpus order.
- `reference.dfy`: the reference parser, which models the lazy regular expression, and its round trip.
- `books.dfy`: `findBook` and its abbreviation table.
- `lookup.dfy`: `getVerseByReference`, `getRandomVerse`, `getPopularVerse`, `getBibleStats`.
- `index.dfy`: tokenisation and `buildSearchIndex`.
- `search.dfy`: `searchVerses`.
- `engine.dfy`:
  - the load decision of `loadBibleData`;
  - `getBookContent`;
  - the class `BibleStore`, which holds the module state (`cachedBibleData`, the two `localStorage` entries, and the `searchIndex` memo) and runs every exported operation after loading.
- `favorites.dfy`: the favorites store, as the class `FavoritesStore` and the functions that specify it.

Loops of the source are methods with loop invariants, each proved equal to a specification function:
- the scans of `searchVerses`, which use `break`;
- the nested `forEach` of `buildSearchIndex` and `getBibleStats`;
- the abbreviation loop of `findBook`;
- the grouping loops of `getFavoritesByBook`.

Some loops stop early. Their specification functions test the cap before each step, and lemmas show that the capped result is the first 100 entries of an uncapped reference scan. The properties are then proved about the specification functions.

Inputs that the source reads from its environment are explicit parameters:
- the clock (`now`);
- the outcome of the fetch;
- whether a `localStorage` write succeeds;
- the three `Math.random()` draws, each in `[0, 1)`;
- whether `indexedDB.open` succeeds (`openOk`);
- whether an IndexedDB request succeeds (`requestOk`).

## Model

| member | source | states |
|---|---|---|
| Text.Lower | frontend/src/lib/bibleDataLoader.ts:201 | every character is lowercased in place (ASCII `A`-`Z` shift by 32, others unchanged); the length is kept |
| Text.LowerIdempotent | frontend/src/lib/bibleDataLoader.ts:421 | lowercasing twice is lowercasing once |
| Text.Trim | frontend/src/lib/bibleDataLoader.ts:240 | the result is a slice of the input with only whitespace removed on either side, and it neither starts nor ends with whitespace |
| Text.TrimOfTrimmed | frontend/src/lib/bibleDataLoader.ts:249 | trimming a string without outer whitespace leaves it unchanged |
| Text.NatToString | frontend/src/lib/bibleDataLoader.ts:440 | the decimal rendering is a non-empty digit string whose value is the number |
| Text.NatToStringInjective | frontend/src/lib/bibleDataLoader.ts:494 | distinct numbers render differently |
| Text.ContainsTrans | frontend/src/lib/bibleDataLoader.ts:476-477 | a substring of a substring is a substring |
| Corpus.AllVersesSoundOrdered | frontend/src/lib/bibleDataLoader.ts:436-438 | the traversal of books, chapters and verses yields only verses at valid positions, in strictly increasing position order |
| Corpus.AllVersesComplete | frontend/src/lib/bibleDataLoader.ts:436-438 | every verse at a valid position occurs in the traversal |
| Reference.ParseRange | frontend/src/lib/bibleDataLoader.ts:243 | a parsed `-<digits>` suffix renders back to the text it was parsed from |
| Reference.ParseVerse | frontend/src/lib/bibleDataLoader.ts:243 | a parsed `:<digits>[-<digits>]` suffix renders back to its text |
| Reference.ParseTail | frontend/src/lib/bibleDataLoader.ts:243 | a parsed tail starts with whitespace and is that whitespace followed by the rendering of chapter, verse and range |
| Reference.ParseRangeComplete | frontend/src/lib/bibleDataLoader.ts:243 | every rendered range suffix parses back to itself |
| Reference.ParseVerseComplete | frontend/src/lib/bibleDataLoader.ts:243 | every rendered verse suffix parses back to itself |
| Reference.ParseTailComplete | frontend/src/lib/bibleDataLoader.ts:243 | whitespace followed by a rendered tail parses back to that tail |
| Reference.LazySplit | frontend/src/lib/bibleDataLoader.ts:243 | the lazy `+?` book group ends at the first position where the rest matches, and nowhere earlier |
| Reference.ParseReference | frontend/src/lib/bibleDataLoader.ts:239-255 | `null` exactly when no split of the trimmed text matches; otherwise the locator at the first matching split; a verse end is present only with a verse start (`verseEnd` defaults to `verseStart`) |
| Reference.ParseReferenceText | frontend/src/lib/bibleDataLoader.ts:239-255 | rendering a locator whose book is words of word characters, then parsing the text, gives back the locator |
| Reference.FirstSplitAfterBook | frontend/src/lib/bibleDataLoader.ts:243 | for such a book name, the first split of the rendered reference lies right after the book |
| Books.FirstMatch | frontend/src/lib/bibleDataLoader.ts:265-275 | `Array.find`: the first book matching the tier (exact, prefix, infix), or none when no book matches |
| Books.FirstMatchIsFirst | frontend/src/lib/bibleDataLoader.ts:265-275 | the search returns exactly the first matching book, and none exactly when no book matches |
| Books.TiersNest | frontend/src/lib/bibleDataLoader.ts:264-275 | an exact match is a prefix match and a prefix match is an infix match |
| Books.AbbreviationMatchFacts | frontend/src/lib/bibleDataLoader.ts:338-343 | a book is found exactly when some table entry has an abbreviation the name equals or starts with and whose full name occurs in a book; the first such entry decides |
| Books.BookMatch | frontend/src/lib/bibleDataLoader.ts:261-347 | the four tiers in order: each later tier applies only when all earlier tiers found nothing |
| Books.BookMatchNone | frontend/src/lib/bibleDataLoader.ts:261-347 | no book is found exactly when no tier and no abbreviation entry matches |
| Books.ScanAbbreviations | frontend/src/lib/bibleDataLoader.ts:338-343 | the loop with `break` computes the abbreviation match |
| Books.FindBook | frontend/src/lib/bibleDataLoader.ts:261-347 | the method computes `BookMatch` |
| Lookup.ChapterIndex | frontend/src/lib/bibleDataLoader.ts:366 | `chapters.find(c => c.chapter === n)`: the first chapter with that number, or none when there is none |
| Lookup.SelectedMembers | frontend/src/lib/bibleDataLoader.ts:376-378 | the filter keeps exactly the verses numbered between the bounds |
| Lookup.Denormalize | frontend/src/lib/bibleDataLoader.ts:384-397 | one result record per verse, carrying the book's name and the requested chapter number |
| Lookup.ChapterLookup | frontend/src/lib/bibleDataLoader.ts:372-412 | `VERSE_NOT_FOUND` exactly when a verse range selects nothing; otherwise the selected verses, their joined text and the data's version |
| Lookup.LocatorLookup | frontend/src/lib/bibleDataLoader.ts:360-412 | `BOOK_NOT_FOUND` exactly when no book matches; the only errors are `BOOK_NOT_FOUND`, `CHAPTER_NOT_FOUND` and `VERSE_NOT_FOUND` |
| Lookup.LocatorLookupFound | frontend/src/lib/bibleDataLoader.ts:366-412 | once the book is found, `CHAPTER_NOT_FOUND` exactly when the book has no chapter with the number; otherwise the lookup in the first such chapter |
| Lookup.GetVerseByReference | frontend/src/lib/bibleDataLoader.ts:352-413 | `INVALID_FORMAT` exactly when parsing fails; otherwise the lookup of the parsed locator; no other error is possible |
| Lookup.SelectedNumbered | frontend/src/lib/bibleDataLoader.ts:376-378 | in a chapter numbered consecutively, the selected verses are the contiguous slice of the range |
| Lookup.ChapterRange | frontend/src/lib/bibleDataLoader.ts:372-389 | in a chapter numbered 1.., a range within the chapter yields exactly that slice |
| Lookup.RangeLookup | frontend/src/lib/bibleDataLoader.ts:352-413 | the reference text of a locator for a found book, chapter and in-range verses yields exactly those verses |
| Lookup.LabelRoundTrip | frontend/src/lib/bibleDataLoader.ts:401-405 | the `reference` label of a result parses back to the locator under the book's own name |
| Lookup.Pick | frontend/src/lib/bibleDataLoader.ts:584-590 | `Math.floor(u * length)` is an index below the length |
| Lookup.PickReaches | frontend/src/lib/bibleDataLoader.ts:584-590 | every index is the pick of some draw in `[0, 1)` |
| Lookup.RandomVerse | frontend/src/lib/bibleDataLoader.ts:580-605 | succeeds exactly when the drawn book and chapter are non-empty (otherwise the `TypeError` of reading `undefined`); the result is exactly the verse at position (`Math.floor(u1·books)`, `Math.floor(u2·chapters)`, `Math.floor(u3·verses)`), labelled `book chapter:verse` |
| Lookup.RandomVerseReachesEvery | frontend/src/lib/bibleDataLoader.ts:580-605 | every verse of the corpus is drawn by some triple of draws |
| Lookup.JsRem | frontend/src/lib/bibleDataLoader.ts:634 | JavaScript `%` on integers: the remainder takes the sign of the dividend |
| Lookup.PopularSlot | frontend/src/lib/bibleDataLoader.ts:634 | a non-negative index picks slot `index mod 20`; a negative one picks a slot only when the remainder is (minus) zero, and that slot is 0; otherwise it reads `undefined` |
| Lookup.PopularSlotPeriodic | frontend/src/lib/bibleDataLoader.ts:634 | shifting the index by a multiple of 20 picks the same slot |
| Lookup.PopularVerse | frontend/src/lib/bibleDataLoader.ts:610-642 | the popular reference's lookup when it succeeds; the random verse otherwise |
| Lookup.PopularVerseFailsOnlyWithFallback | frontend/src/lib/bibleDataLoader.ts:636-641 | whenever the random fallback succeeds, the popular verse succeeds |
| Lookup.CountVerses | frontend/src/lib/bibleDataLoader.ts:672-674 | the inner `forEach` sums the verse counts of the chapters |
| Lookup.BibleStats | frontend/src/lib/bibleDataLoader.ts:664-682 | books, chapter total and verse total of the corpus |
| Lookup.VerseTotalIsTraversalLength | frontend/src/lib/bibleDataLoader.ts:664-682 | the verse total equals the number of verses the search traversal visits |
| SearchIndex.Clean | frontend/src/lib/bibleDataLoader.ts:202 | `replace(/[^\w\s]/g, ' ')`: every character that is neither a word nor a space character becomes a space |
| SearchIndex.WordsShape | frontend/src/lib/bibleDataLoader.ts:203 | the pieces of the split on `\s+` are non-empty and contain no whitespace |
| SearchIndex.LongWords | frontend/src/lib/bibleDataLoader.ts:204 | keeps exactly the words longer than two characters |
| SearchIndex.TokenFacts | frontend/src/lib/bibleDataLoader.ts:200-204 | every token has at least three lowercase word characters and occurs in the lowercased verse text |
| SearchIndex.PrefixesFromFacts | frontend/src/lib/bibleDataLoader.ts:214-220 | the prefix map gains the word under each of its prefixes of length 3 to 8 and changes nowhere else |
| SearchIndex.AddPrefixes | frontend/src/lib/bibleDataLoader.ts:214-220 | the prefix loop computes the prefix update |
| SearchIndex.IndexVerse | frontend/src/lib/bibleDataLoader.ts:206-221 | the word loop of one verse computes its fold |
| SearchIndex.IndexChapter | frontend/src/lib/bibleDataLoader.ts:198-222 | the verse loop computes the fold over the chapter's verses |
| SearchIndex.IndexBook | frontend/src/lib/bibleDataLoader.ts:197-223 | the chapter loop computes the fold over the book's verses |
| SearchIndex.BuildSearchIndex | frontend/src/lib/bibleDataLoader.ts:184-234 | the three nested `forEach` compute the index of the corpus traversal |
| SearchIndex.PostingsAreOccurrences | frontend/src/lib/bibleDataLoader.ts:206-211 | the postings of a word are exactly its occurrences, one entry per occurrence of the token in a verse, in corpus order |
| SearchIndex.IndexSound | frontend/src/lib/bibleDataLoader.ts:206-211 | every posting is a valid position whose verse has the word as a token, so the lowercased text contains it |
| SearchIndex.IndexComplete | frontend/src/lib/bibleDataLoader.ts:206-211 | every token of every verse is a key whose postings include that verse |
| SearchIndex.IndexOrdered | frontend/src/lib/bibleDataLoader.ts:196-211 | the postings of every word are in non-decreasing corpus order |
| SearchIndex.IndexWellFormed | frontend/src/lib/bibleDataLoader.ts:206-220 | keys are distinct, at least three characters long, and exactly the words with postings, all non-empty; every prefix entry has between 3 and 8 characters, lists only indexed words that start with it, and every indexed word is listed under all its prefixes |
| Search.PhraseFromAppend | frontend/src/lib/bibleDataLoader.ts:436-460 | scanning two parts in turn is scanning them joined, so the nested loops compose |
| Search.PhraseResultsFacts | frontend/src/lib/bibleDataLoader.ts:431-460 | phrase results are the first 100 of the uncapped scan, with distinct keys in corpus order; each is a corpus verse whose lowercased text contains the keyword; below the cap, every such verse is among them |
| Search.PhraseChapter | frontend/src/lib/bibleDataLoader.ts:438-456 | the verse loop with `break` computes the capped scan of one chapter |
| Search.PhraseBook | frontend/src/lib/bibleDataLoader.ts:437-458 | the chapter loop computes the capped scan of one book |
| Search.PhraseScanCorpus | frontend/src/lib/bibleDataLoader.ts:436-460 | the book loop computes the phrase results |
| Search.ExpandsContains | frontend/src/lib/bibleDataLoader.ts:476-477 | a word that expands the keyword contains it |
| Search.MatchingWordsFacts | frontend/src/lib/bibleDataLoader.ts:466-483 | expansion always runs; at most 20 distinct indexed words, each starting with the keyword or, for keywords of four or more characters, containing it; the keyword first when it is indexed; below 20, every such word |
| Search.ExpandKeys | frontend/src/lib/bibleDataLoader.ts:466-483 | the `for...in` loop with `break` computes the matching words |
| Search.PosKeyInjective | frontend/src/lib/bibleDataLoader.ts:494 | the dedupe key `${bookIndex}-${chapterIndex}-${verseIndex}` identifies the position |
| Search.CollectFromAppend | frontend/src/lib/bibleDataLoader.ts:486-508 | collecting two posting lists in turn is collecting them joined |
| Search.WordHitsSound | frontend/src/lib/bibleDataLoader.ts:486-508 | word hits are the first 100 of the uncapped collection and distinct; each is a valid position whose verse has a token that expands the keyword |
| Search.WordHitsComplete | frontend/src/lib/bibleDataLoader.ts:463-508 | below both caps, every verse with a token that expands the keyword is a hit |
| Search.CollectWord | frontend/src/lib/bibleDataLoader.ts:489-506 | the posting loop with `break` computes the capped collection of one word |
| Search.CollectWords | frontend/src/lib/bibleDataLoader.ts:486-508 | the loop over matching words computes the word hits |
| Search.WordMatchContains | frontend/src/lib/bibleDataLoader.ts:476-477 | a verse matched in word mode also contains the keyword as a phrase |
| Search.SearchSpec | frontend/src/lib/bibleDataLoader.ts:419-550 | the only errors are `EMPTY_SEARCH` and `NO_RESULTS`, and `EMPTY_SEARCH` arises exactly when the lowercased, trimmed keyword is empty |
| Search.SearchShowsMatches | frontend/src/lib/bibleDataLoader.ts:537-549 | exactly the first min(n, 50) of the n verses collected are shown; each is a corpus verse containing the keyword; the label counts all collected and says "50 of" exactly when some were cut; joined text and version |
| Search.SearchNoResults | frontend/src/lib/bibleDataLoader.ts:431-539 | `NO_RESULTS` exactly when no verse contains the phrase (phrase mode) or no token of any verse expands the keyword (word mode) |
| Search.PhraseNone | frontend/src/lib/bibleDataLoader.ts:431-460 | the phrase scan is empty exactly when no verse of the corpus contains the phrase |
| Search.WordNone | frontend/src/lib/bibleDataLoader.ts:463-508 | the word hits are empty exactly when no token of any verse expands the keyword |
| Search.WordHitsNonEmpty | frontend/src/lib/bibleDataLoader.ts:463-508 | a verse that matches in word mode makes the hits non-empty |
| Search.SearchVerses | frontend/src/lib/bibleDataLoader.ts:419-550 | the method, building the index when no memo is given, computes the search specification |
| Engine.LoadDecision | frontend/src/lib/bibleDataLoader.ts:67-156 | the only failure is "unavailable"; a success is the fetched, well-shaped data or the stored copy |
| Engine.FreshCacheWins | frontend/src/lib/bibleDataLoader.ts:74-83 | a stored copy younger than thirty days that parses is returned and nothing is written |
| Engine.LoadFailsIff | frontend/src/lib/bibleDataLoader.ts:67-156 | the load fails exactly when there is no well-shaped fetched data and no stored copy that parses |
| Engine.LoadFailureStable | frontend/src/lib/bibleDataLoader.ts:84-88 | a failed load leaves storage on which the same inputs fail the same way |
| Engine.WriteThenHit | frontend/src/lib/bibleDataLoader.ts:123-134 | a written-through copy is what every load within thirty days returns, whatever the network does |
| Engine.LoadSession | frontend/src/lib/bibleDataLoader.ts:55-159 | the in-memory copy short-cuts everything; otherwise the load decision; the memo is set exactly on success, to the result |
| Engine.LoadMemoised | frontend/src/lib/bibleDataLoader.ts:57-59 | after a successful load every later load returns the same data and changes nothing |
| Engine.LoadRetryFails | frontend/src/lib/bibleDataLoader.ts:138-155 | a failed load retried with the same inputs fails again and changes nothing more |
| Engine.BookContent | frontend/src/lib/bibleDataLoader.ts:555-575 | succeeds exactly when either the reference lookup or the keyword search does; the lookup wins; on failure the original reference error is returned |
| Engine.BookContentFallsBackToSearch | frontend/src/lib/bibleDataLoader.ts:555-575 | a query that is no resolvable reference, but that some verse matches, yields the keyword search |
| Engine.BibleStore.constructor | frontend/src/lib/bibleDataLoader.ts:37-49 | a page load starts with nothing in memory, no index, and the given storage |
| Engine.BibleStore.LoadBibleData | frontend/src/lib/bibleDataLoader.ts:55-159 | result and new state are those of the load session; the index memo is kept |
| Engine.BibleStore.BuildSearchIndex | frontend/src/lib/bibleDataLoader.ts:184-234 | the memo is returned when present; otherwise, after a successful load, the index of the loaded corpus, which becomes the memo |
| Engine.BibleStore.GetVerseByReference | frontend/src/lib/bibleDataLoader.ts:352-413 | the load session's error, or the lookup on the loaded data |
| Engine.BibleStore.SearchVerses | frontend/src/lib/bibleDataLoader.ts:419-550 | the load session's error, or the search on the loaded data; the index memo is set exactly when a word-mode search runs on a successful load |
| Engine.BibleStore.GetBookContent | frontend/src/lib/bibleDataLoader.ts:555-575 | the load error, or the book content of the loaded data |
| Engine.BibleStore.GetRandomVerse | frontend/src/lib/bibleDataLoader.ts:580-605 | the load error, or the random verse of the loaded data |
| Engine.BibleStore.GetPopularVerse | frontend/src/lib/bibleDataLoader.ts:610-642 | the popular verse of the loaded data when the load succeeds; when it fails, the random fallback's own load, with its own clock reading and fetch outcome, decides the result and the new state |
| Engine.BibleStore.GetBibleStats | frontend/src/lib/bibleDataLoader.ts:664-682 | the load error, or the statistics of the loaded data |
| Favorites.MakeFavorite | frontend/src/lib/favoritesStorage.ts:61-67 | the favorite carries the input's fields, the id `book-chapter-verse` and the time stamp |
| Favorites.IdLessTransitive | frontend/src/lib/favoritesStorage.ts:47 | the key order of the object store is transitive |
| Favorites.IdLessTotal | frontend/src/lib/favoritesStorage.ts:47 | any two distinct keys are ordered one way or the other |
| Favorites.PutFacts | frontend/src/lib/favoritesStorage.ts:72 | `put` keeps the records in key order; the store, as a map, maps the id to the new record and is otherwise unchanged |
| Favorites.PutFound | frontend/src/lib/favoritesStorage.ts:58-90 | after a put, the id is a favorite with exactly one record (re-adding overwrites), and every other id is as before |
| Favorites.DeleteMembers | frontend/src/lib/favoritesStorage.ts:232 | the filter keeps exactly the records with a different id |
| Favorites.DeleteOrdered | frontend/src/lib/favoritesStorage.ts:102 | `delete` keeps the records in key order |
| Favorites.DeleteMap | frontend/src/lib/favoritesStorage.ts:102 | the store, as a map, loses the id and is otherwise unchanged |
| Favorites.DeleteGone | frontend/src/lib/favoritesStorage.ts:95-120 | after a delete the id is no favorite, and every other id is as before |
| Favorites.AsMapKeys | frontend/src/lib/favoritesStorage.ts:164-167 | an id is a key of the store exactly when a record carries it, and the key maps to that record |
| Favorites.SortByFacts | frontend/src/lib/favoritesStorage.ts:137 | the sort orders by the comparator, is a permutation, and keeps the input order of ties (a stable sort) |
| Favorites.SortBySorted | frontend/src/lib/favoritesStorage.ts:241 | sorting a list already sorted by the comparator leaves it unchanged |
| Favorites.KeyOrderedCount | frontend/src/lib/favoritesStorage.ts:47 | an object store holds at most one record per id |
| Favorites.CountIdMultiset | frontend/src/lib/favoritesStorage.ts:137 | lists with the same elements have the same favorites, with the same number of entries each |
| Favorites.BackupAddFacts | frontend/src/lib/favoritesStorage.ts:216-228 | the fallback add does no upsert: the id gains one more entry, even when it was already there, and every other id keeps its count |
| Favorites.BackupRemoveFacts | frontend/src/lib/favoritesStorage.ts:230-234 | the fallback remove drops every entry with the id and keeps every other entry, with the same number of entries for every other id |
| Favorites.SnapshotFacts | frontend/src/lib/favoritesStorage.ts:210-214 | the backup after a database write holds exactly the database's favorites, one entry per id, and reading it back gives what `getAllFavorites` returned |
| Favorites.GroupedFacts | frontend/src/lib/favoritesStorage.ts:187-194 | groups have distinct book names; each holds exactly its book's favorites in listing order and is non-empty; every favorite's book has a group; the sizes add up to the listing's size |
| Favorites.OfBookFacts | frontend/src/lib/favoritesStorage.ts:189-194 | a book's favorites all carry its name, each as often as in the listing |
| Favorites.SortedGroupFacts | frontend/src/lib/favoritesStorage.ts:197-204 | a sorted group is in chapter-then-verse order, has the book's favorites as often as the listing and nothing else, and keeps listing order among equal chapter and verse |
| Favorites.ByBookFacts | frontend/src/lib/favoritesStorage.ts:185-207 | every book of the listing has exactly one group, each showing that book's favorites sorted by chapter then verse, and no favorite is lost |
| Favorites.DeleteCount | frontend/src/lib/favoritesStorage.ts:232 | the filter leaves no entry with the id and every other id's entries as often as before |
| Favorites.GroupedOrder | frontend/src/lib/favoritesStorage.ts:187-194 | the `Map` holds the groups in the order their books first appear in the listing |
| Favorites.ByBookOrder | frontend/src/lib/favoritesStorage.ts:185-207 | the groups returned come in the order their books first appear in the listing |
| Favorites.GroupByBook | frontend/src/lib/favoritesStorage.ts:189-194 | the grouping `forEach` computes the groups |
| Favorites.SortEachGroup | frontend/src/lib/favoritesStorage.ts:197-204 | the sorting `forEach` sorts every group |
| Favorites.FavoritesStore.constructor | frontend/src/lib/favoritesStorage.ts:19 | a page load starts with no connection and the given database and backup |
| Favorites.FavoritesStore.InitDB | frontend/src/lib/favoritesStorage.ts:24-53 | the connection is reused, or opened when the open succeeds; nothing else changes |
| Favorites.FavoritesStore.AddFavorite | frontend/src/lib/favoritesStorage.ts:58-90 | without a connection the fallback add; on a failed request a rejection and no change; otherwise the put, then the snapshot as the backup |
| Favorites.FavoritesStore.RemoveFavorite | frontend/src/lib/favoritesStorage.ts:95-120 | without a connection the fallback remove; on a failed request a rejection and no change; otherwise the delete, then the snapshot |
| Favorites.FavoritesStore.GetAllFavorites | frontend/src/lib/favoritesStorage.ts:125-151 | without a connection the backup read sorted newest first; on a failed request a rejection; otherwise the records, in key order, sorted newest first |
| Favorites.FavoritesStore.IsFavorite | frontend/src/lib/favoritesStorage.ts:156-180 | without a connection whether the backup holds the id; on a failed request a rejection; otherwise whether the store holds the id |
| Favorites.FavoritesStore.GetFavoritesByBook | frontend/src/lib/favoritesStorage.ts:185-207 | the grouping of whatever `getAllFavorites` returns, or its rejection |

## Left out

- **Concurrency and the async machinery.** `isLoading`, `loadPromise` and `getBibleDataLoadingStatus` are not modelled. Every operation runs to completion before the next one starts, so concurrent callers sharing one load are not modelled.
- **Clock readings.** `loadBibleData` reads the clock for the age test and again for the written stamp. The model uses a single `now` for both.
- **Partial `localStorage` writes.** The write-through of `loadBibleData` either writes both entries or neither. A failure between the two `setItem` calls is not modelled.
- **Stored copies that parse into the wrong shape.** A stored corpus copy either parses as a corpus or is corrupt. JSON that parses but is not a corpus (`null`, say) is not modelled.
- **Fetch errors.** Every failure of `fetch` and `response.json()`, including a non-OK status, is the single input `FetchFailed`. The error message is not modelled.
- Engine.LoadRetryFails: states a retry with the same inputs as the first attempt. A real retry sees a new clock reading and network; `Engine.BibleStore.GetPopularVerse` takes those as separate inputs for its fallback's load.
- **Character handling.** `\w`, `\s` and `\d` are modelled as their ASCII classes, and `toLowerCase` as ASCII case folding. Unicode whitespace such as the no-break space is not modelled, and neither is non-ASCII case folding.
- **`parseInt` of very long runs of digits.** It loses precision in the source. The model reads such runs exactly.
- **Iteration order of `for...in` over the index.** The model visits keys in insertion order. It does not model JavaScript's rule that integer-like keys come first. Indexed words are words of at least three word characters, so a key made only of digits (`100`, say) would come earlier in the source.
- **Keys inherited from `Object.prototype`.** `constructor`, `toString`, `__proto__` and the like are not modelled on the plain-object index. The model's index holds only its own keys, so the `catch` branch of `searchVerses` (lines 509-534) cannot be reached. That branch is the direct scan run when the index throws, and it is the same scan as phrase mode.
- **`partialSearchIndex`.** It is built (`SearchIndex.PrefixesFromFacts`, `SearchIndex.IndexWellFormed`), but nothing in the source reads it, so no search uses it.
- **A memoised index after a reload.** An index built for an earlier corpus is never reused for a different one. For that to happen, `cachedBibleData` would have to change while `searchIndex` is set, and no path of the source does that. `Engine.BibleStore.Valid` keeps this invariant.
- **`loadBook` and `bookCache`.** `loadBook` is not exported and nothing calls it.
- **Console logging and timing.** These include the "Expected 66 books" warning. The model does not reproduce any of it.
- **Floating point.** `Math.random()` is an input in `[0, 1)`, and `Math.floor(u * n)` is computed exactly on reals. Chapter and verse numbers are integers.
- **IndexedDB and `localStorage` plumbing.**
  - The database name, version and upgrade handler are not modelled.
  - The secondary indexes `dateAdded` and `bookName` are never read, and are not modelled.
  - Transaction lifetimes are not modelled.
  - A `db.transaction` call that throws is the same as a failed request.
- **Dates.** `dateAdded` is an integer time stamp, standing for `new Date(...).getTime()` of the ISO string. Unparsable dates (`NaN` in the comparator) are not modelled.
- **Comparison of ids.** Ids compare character by character, as IndexedDB compares code units. Characters outside the Basic Multilingual Plane, which are two code units in JavaScript, are not modelled.
- **The two `new Date()` readings in the fallback add.** The model uses one `now` for both. They are `addFavorite` line 66, which is unused on the fallback path, and `addFavoriteToLocalStorage` line 223.
- **Favorites.Snapshot: the backup snapshot is written at once.** In the source it is a later, asynchronous `getAllFavorites`, whose own failure is only logged. It could also interleave with other operations. The model assumes it succeeds as soon as the write does.
- **`localStorage` write failures in the favorites fallback.** A full quota throws inside the `catch` block and rejects. This is not modelled; fallback writes always succeed.
- **Everything outside the two library files.** The React hooks, pages and components, the service worker `sw.js`, and the build configuration are not part of this model.

Behaviours of the code that the model keeps:
- **Only a failed open falls back to the backup.** A failure to open the database is caught and the `localStorage` fallback runs. A failed request rejects to the caller (favoritesStorage.ts:69-89). In `addFavorite`, for example, the `try` returns the request's promise without awaiting it, so `onerror` rejects past the `catch`. The model returns `Err(RequestFailed)` there and changes nothing.
- **`getPopularVerse` can fail.** Its random fallback throws a `TypeError` when the drawn book has no chapters or the drawn chapter has no verses (bibleDataLoader.ts:583-589), and the model keeps that error (`Lookup.RandomVerse`).
- **Negative popular-verse indices.** A negative index whose remainder is not zero reads `undefined` from the list. `parseReference` then throws a `TypeError` on it, and the random fallback runs. An index that is a negative multiple of 20 gives `-0`, which reads slot 0 (`Lookup.PopularSlot`).
- **Verse 0 in ranges.** A verse end of `0` is falsy, so the range ends at the verse start. A verse start of `0` produces a label without a verse part. `Lookup.LabelRoundTrip` excludes verse 0 for that reason.
