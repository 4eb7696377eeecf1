/** The module state of the loader and the exported operations that read it:
    `loadBibleData` (the in-memory copy, the `localStorage` copy with its
    timestamp, the fetch of the bundled file), the memo of
    `buildSearchIndex`, and the operations that load before they look up. */
module Engine {
  import opened Wrappers
  import opened Text
  import opened Corpus
  import opened SearchIndex
  import opened Lookup
  import opened Search

  // ---------------------------------------------------------------- the load decision

  /** What `JSON.parse` makes of the `bible_data_cache` entry. */
  datatype Cached = Parsed(data: BibleData) | Corrupt

  /** The two `localStorage` entries: `copy` is absent for a missing or empty
      entry, `stamp` for a missing or empty entry or one that is not a number. */
  datatype Storage = Storage(copy: Option<Cached>, stamp: Option<int>)

  /** The outcome of `fetch('/bible-data.json')` and `response.json()`. */
  datatype Fetch = Fetched(data: BibleData) | FetchFailed

  /** `30 * 24 * 60 * 60 * 1000` milliseconds. */
  const ThirtyDays: int := 2592000000

  /** The structure check on fetched data: a non-empty version and at least one book. */
  predicate WellShaped(data: BibleData) {
    data.version != "" && |data.books| > 0
  }

  /** The stored copy is present, stamped, and younger than thirty days at `now`. */
  predicate Fresh(st: Storage, now: int) {
    st.copy.Some? && st.stamp.Some? && now - st.stamp.value < ThirtyDays
  }

  predicate Usable(st: Storage) {
    st.copy.Some? && st.copy.value.Parsed?
  }

  datatype Loaded = Loaded(result: Result<BibleData, Error>, storage: Storage)

  /** One run of the body of `loadBibleData` at time `now`: a fresh copy is
      used when it parses (and both entries are removed when it does not);
      otherwise the fetched data is checked and written through (`saved` says
      whether writing both entries succeeded); on a failed fetch or a
      malformed file the stored copy is used whatever its age; otherwise the
      load fails. */
  function LoadDecision(st: Storage, now: int, fetch: Fetch, saved: bool): (r: Loaded)
    ensures r.result.Err? ==> r.result.error == Unavailable
    ensures r.result.Ok? ==>
      (fetch.Fetched? && r.result.value == fetch.data && WellShaped(fetch.data))
      || st.copy == Some(Parsed(r.result.value))
  {
    if Fresh(st, now) && st.copy.value.Parsed? then Loaded(Ok(st.copy.value.data), st)
    else
      var kept := if Fresh(st, now) then Storage(None, None) else st;
      if fetch.Fetched? && WellShaped(fetch.data) then
        Loaded(Ok(fetch.data), if saved then Storage(Some(Parsed(fetch.data)), Some(now)) else kept)
      else if Usable(kept) then Loaded(Ok(kept.copy.value.data), kept)
      else Loaded(Err(Unavailable), kept)
  }

  /** A fresh copy that parses is used without looking at the network, and nothing is written. */
  lemma FreshCacheWins(st: Storage, now: int, fetch: Fetch, saved: bool)
    requires Fresh(st, now) && Usable(st)
    ensures LoadDecision(st, now, fetch, saved) == Loaded(Ok(st.copy.value.data), st)
  {
  }

  /** The load fails exactly when the fetch yields no well-shaped data and no stored copy parses. */
  lemma LoadFailsIff(st: Storage, now: int, fetch: Fetch, saved: bool)
    ensures LoadDecision(st, now, fetch, saved).result.Err? <==>
      !(fetch.Fetched? && WellShaped(fetch.data)) && !Usable(st)
  {
  }

  /** A failed load leaves a storage on which the same inputs fail the same way. */
  lemma LoadFailureStable(st: Storage, now: int, fetch: Fetch, saved: bool)
    requires LoadDecision(st, now, fetch, saved).result.Err?
    ensures var d := LoadDecision(st, now, fetch, saved);
      LoadDecision(d.storage, now, fetch, saved) == d
  {
  }

  /** Written through, a fetched copy is what every load within thirty days
      yields, whatever the network does then. */
  lemma WriteThenHit(st: Storage, now: int, fetch: Fetch, later: int, fetch2: Fetch, saved2: bool)
    requires !(Fresh(st, now) && Usable(st))
    requires fetch.Fetched? && WellShaped(fetch.data)
    requires now <= later < now + ThirtyDays
    ensures var d := LoadDecision(st, now, fetch, true);
      && d.result == Ok(fetch.data)
      && LoadDecision(d.storage, later, fetch2, saved2) == Loaded(Ok(fetch.data), d.storage)
  {
  }

  /** The result of `loadBibleData` with the in-memory copy `memo`, the memo
      it leaves, and the storage it leaves. */
  datatype Session = Session(result: Result<BibleData, Error>, memo: Option<BibleData>, storage: Storage)

  function LoadSession(memo: Option<BibleData>, st: Storage, now: int, fetch: Fetch, saved: bool): (s: Session)
    ensures memo.Some? ==> s == Session(Ok(memo.value), memo, st)
    ensures memo.None? ==> s.result == LoadDecision(st, now, fetch, saved).result && s.storage == LoadDecision(st, now, fetch, saved).storage
    ensures s.result.Ok? <==> s.memo.Some?
    ensures s.result.Ok? ==> s.memo == Some(s.result.value)
  {
    if memo.Some? then Session(Ok(memo.value), memo, st)
    else
      var d := LoadDecision(st, now, fetch, saved);
      Session(d.result, if d.result.Ok? then Some(d.result.value) else None, d.storage)
  }

  /** Once a load succeeds, every later load returns the same data and changes nothing. */
  lemma LoadMemoised(memo: Option<BibleData>, st: Storage, now: int, fetch: Fetch, saved: bool,
                     now2: int, fetch2: Fetch, saved2: bool)
    requires LoadSession(memo, st, now, fetch, saved).result.Ok?
    ensures var s := LoadSession(memo, st, now, fetch, saved);
      LoadSession(s.memo, s.storage, now2, fetch2, saved2) == s
  {
  }

  /** A failed load, retried with the same inputs, fails again and changes nothing more. */
  lemma LoadRetryFails(memo: Option<BibleData>, st: Storage, now: int, fetch: Fetch, saved: bool)
    requires LoadSession(memo, st, now, fetch, saved).result.Err?
    ensures var s := LoadSession(memo, st, now, fetch, saved);
      LoadSession(s.memo, s.storage, now, fetch, saved) == s
  {
    LoadFailureStable(st, now, fetch, saved);
  }

  // ---------------------------------------------------------------- getBookContent

  predicate ReferenceError(e: Error) {
    e == InvalidFormat || e == BookNotFound || e == ChapterNotFound || e == VerseNotFound
  }

  /** `getBookContent` on loaded data: the reference lookup; on any of its
      four errors the keyword search, and when that fails too, the
      reference error again. */
  function BookContent(data: BibleData, query: string): (r: Result<SearchResult, Error>)
    ensures var looked := Lookup.GetVerseByReference(data, query);
      var found := SearchSpec(data, query);
      && (r.Ok? <==> looked.Ok? || found.Ok?)
      && (looked.Ok? ==> r == looked)
      && (looked.Err? && found.Ok? ==> r == found)
      && (r.Err? ==> r == looked && ReferenceError(r.error))
  {
    var looked := Lookup.GetVerseByReference(data, query);
    if looked.Ok? || !ReferenceError(looked.error) then looked
    else
      var found := SearchSpec(data, query);
      if found.Ok? then found else looked
  }

  /** A query that is no reference to a passage of the corpus, but whose
      keyword a verse matches, yields the keyword search. */
  lemma BookContentFallsBackToSearch(data: BibleData, query: string, p: Pos)
    requires Lookup.GetVerseByReference(data, query).Err?
    requires ValidPos(data.books, p) && Normalized(query) != []
    requires var kw := Normalized(query);
      if ' ' in kw then PhraseHit(VerseAt(data.books, p), kw) else WordMatch(data.books, p, kw)
    ensures SearchSpec(data, query).Ok? && BookContent(data, query) == SearchSpec(data, query)
  {
    SearchNoResults(data, query);
  }

  /** The keyword of a query takes word mode, where the search index is needed. */
  predicate WordMode(keyword: string) {
    Normalized(keyword) != [] && ' ' !in Normalized(keyword)
  }

  // ---------------------------------------------------------------- the store

  /** The loader's module state. The operations take the clock reading, the
      fetch outcome and whether writing `localStorage` succeeds as inputs, as
      well as the `Math.random()` draws where they are used. */
  class BibleStore {
    /** `cachedBibleData`. */
    var cachedBibleData: Option<BibleData>
    /** The `bible_data_cache` and `bible_data_cache_timestamp` entries. */
    var storage: Storage
    /** `searchIndex`, the memo of `buildSearchIndex`. */
    var searchIndex: Option<Index>

    /** The memoised index is the index of the loaded data. */
    ghost predicate Valid()
      reads this
    {
      searchIndex.Some? ==> cachedBibleData.Some? && searchIndex.value == IndexOf(cachedBibleData.value.books)
    }

    /** A page load: nothing in memory, `stored` in `localStorage`. */
    constructor (stored: Storage)
      ensures Valid() && cachedBibleData == None && searchIndex == None && storage == stored
    {
      cachedBibleData := None;
      storage := stored;
      searchIndex := None;
    }

    /** `isBibleDataReady`. */
    predicate IsBibleDataReady()
      reads this
    {
      cachedBibleData.Some?
    }

    /** `loadBibleData`. */
    method LoadBibleData(now: int, fetch: Fetch, saved: bool) returns (r: Result<BibleData, Error>)
      requires Valid()
      modifies this
      ensures Valid() && searchIndex == old(searchIndex)
      ensures var s := LoadSession(old(cachedBibleData), old(storage), now, fetch, saved);
        r == s.result && cachedBibleData == s.memo && storage == s.storage
    {
      if cachedBibleData.Some? {
        return Ok(cachedBibleData.value);
      }
      var d := LoadDecision(storage, now, fetch, saved);
      storage := d.storage;
      if d.result.Ok? {
        cachedBibleData := Some(d.result.value);
      }
      r := d.result;
    }

    /** `buildSearchIndex`: the memo when there is one, otherwise the index of the loaded data. */
    method BuildSearchIndex(now: int, fetch: Fetch, saved: bool) returns (r: Result<Index, Error>)
      requires Valid()
      modifies this
      ensures Valid()
      ensures old(searchIndex).Some? ==>
        r == Ok(old(searchIndex).value) && unchanged(this)
      ensures old(searchIndex).None? ==>
        var s := LoadSession(old(cachedBibleData), old(storage), now, fetch, saved);
        && cachedBibleData == s.memo && storage == s.storage
        && r == (if s.result.Ok? then Ok(IndexOf(s.result.value.books)) else Err(s.result.error))
        && searchIndex == (if s.result.Ok? then Some(IndexOf(s.result.value.books)) else None)
    {
      if searchIndex.Some? {
        return Ok(searchIndex.value);
      }
      var loaded := LoadBibleData(now, fetch, saved);
      if loaded.Err? {
        return Err(loaded.error);
      }
      var ix := SearchIndex.BuildSearchIndex(loaded.value.books);
      searchIndex := Some(ix);
      r := Ok(ix);
    }

    /** `getVerseByReference`. */
    method GetVerseByReference(reference: string, now: int, fetch: Fetch, saved: bool) returns (r: Result<SearchResult, Error>)
      requires Valid()
      modifies this
      ensures Valid() && searchIndex == old(searchIndex)
      ensures var s := LoadSession(old(cachedBibleData), old(storage), now, fetch, saved);
        && cachedBibleData == s.memo && storage == s.storage
        && r == (if s.result.Ok? then Lookup.GetVerseByReference(s.result.value, reference) else Err(s.result.error))
    {
      var loaded := LoadBibleData(now, fetch, saved);
      if loaded.Err? {
        return Err(loaded.error);
      }
      r := Lookup.GetVerseByReference(loaded.value, reference);
    }

    /** `searchVerses`; word mode builds the search index when it is not built yet. */
    method SearchVerses(keyword: string, now: int, fetch: Fetch, saved: bool) returns (r: Result<SearchResult, Error>)
      requires Valid()
      modifies this
      ensures Valid()
      ensures var s := LoadSession(old(cachedBibleData), old(storage), now, fetch, saved);
        && cachedBibleData == s.memo && storage == s.storage
        && r == (if s.result.Ok? then SearchSpec(s.result.value, keyword) else Err(s.result.error))
        && searchIndex == (if s.result.Ok? && WordMode(keyword) then Some(IndexOf(s.result.value.books)) else old(searchIndex))
    {
      var loaded := LoadBibleData(now, fetch, saved);
      if loaded.Err? {
        return Err(loaded.error);
      }
      var data := loaded.value;
      var memo := None;
      if WordMode(keyword) {
        var built := BuildSearchIndex(now, fetch, saved);
        memo := Some(built.value);
      }
      r := Search.SearchVerses(data, memo, keyword);
    }

    /** `getBookContent`: the reference lookup, then the keyword search on a reference error. */
    method GetBookContent(query: string, now: int, fetch: Fetch, saved: bool) returns (r: Result<SearchResult, Error>)
      requires Valid()
      modifies this
      ensures Valid()
      ensures var s := LoadSession(old(cachedBibleData), old(storage), now, fetch, saved);
        && cachedBibleData == s.memo && storage == s.storage
        && r == (if s.result.Ok? then BookContent(s.result.value, query) else Err(s.result.error))
        && searchIndex ==
             (if s.result.Ok? && Lookup.GetVerseByReference(s.result.value, query).Err? && WordMode(query)
              then Some(IndexOf(s.result.value.books)) else old(searchIndex))
    {
      r := GetVerseByReference(query, now, fetch, saved);
      if r.Err? && ReferenceError(r.error) {
        var found := SearchVerses(query, now, fetch, saved);
        if found.Ok? {
          r := found;
        }
      }
    }

    /** `getRandomVerse`, with the three `Math.random()` draws as inputs. */
    method GetRandomVerse(u1: real, u2: real, u3: real, now: int, fetch: Fetch, saved: bool) returns (r: Result<SearchResult, Error>)
      requires Valid()
      requires 0.0 <= u1 < 1.0 && 0.0 <= u2 < 1.0 && 0.0 <= u3 < 1.0
      modifies this
      ensures Valid() && searchIndex == old(searchIndex)
      ensures var s := LoadSession(old(cachedBibleData), old(storage), now, fetch, saved);
        && cachedBibleData == s.memo && storage == s.storage
        && r == (if s.result.Ok? then RandomVerse(s.result.value, u1, u2, u3) else Err(s.result.error))
    {
      var loaded := LoadBibleData(now, fetch, saved);
      if loaded.Err? {
        return Err(loaded.error);
      }
      r := RandomVerse(loaded.value, u1, u2, u3);
    }

    /** `getPopularVerse`: the reference of the day; on any failure, including a
        failed load, the random verse, whose own load takes the second clock
        reading, fetch outcome and saved flag. */
    method GetPopularVerse(index: int, u1: real, u2: real, u3: real, now: int, fetch: Fetch, saved: bool,
                           now2: int, fetch2: Fetch, saved2: bool)
      returns (r: Result<SearchResult, Error>)
      requires Valid()
      requires 0.0 <= u1 < 1.0 && 0.0 <= u2 < 1.0 && 0.0 <= u3 < 1.0
      modifies this
      ensures Valid() && searchIndex == old(searchIndex)
      ensures var s := LoadSession(old(cachedBibleData), old(storage), now, fetch, saved);
        s.result.Ok? ==>
          && cachedBibleData == s.memo && storage == s.storage
          && r == PopularVerse(s.result.value, index, u1, u2, u3)
      ensures var s := LoadSession(old(cachedBibleData), old(storage), now, fetch, saved);
        var s2 := LoadSession(s.memo, s.storage, now2, fetch2, saved2);
        s.result.Err? ==>
          && cachedBibleData == s2.memo && storage == s2.storage
          && r == (if s2.result.Ok? then RandomVerse(s2.result.value, u1, u2, u3) else Err(s2.result.error))
    {
      var slot := PopularSlot(index);
      var loaded := LoadBibleData(now, fetch, saved);
      var looked: Result<SearchResult, Error>;
      if loaded.Err? {
        looked := Err(loaded.error);
      } else if slot.None? {
        // `parseReference(undefined)` reads `trim` of `undefined`
        looked := Err(TypeError);
      } else {
        looked := Lookup.GetVerseByReference(loaded.value, PopularVerses[slot.value]);
      }
      if looked.Ok? {
        r := looked;
      } else {
        if loaded.Ok? {
          LoadMemoised(old(cachedBibleData), old(storage), now, fetch, saved, now2, fetch2, saved2);
        }
        r := GetRandomVerse(u1, u2, u3, now2, fetch2, saved2);
      }
    }

    /** `getBibleStats`. */
    method GetBibleStats(now: int, fetch: Fetch, saved: bool) returns (r: Result<Stats, Error>)
      requires Valid()
      modifies this
      ensures Valid() && searchIndex == old(searchIndex)
      ensures var s := LoadSession(old(cachedBibleData), old(storage), now, fetch, saved);
        && cachedBibleData == s.memo && storage == s.storage
        && r == (if s.result.Ok? then Ok(Stats(|s.result.value.books|, ChapterTotal(s.result.value.books), VerseTotal(s.result.value.books)))
                 else Err(s.result.error))
    {
      var loaded := LoadBibleData(now, fetch, saved);
      if loaded.Err? {
        return Err(loaded.error);
      }
      var stats := BibleStats(loaded.value);
      r := Ok(stats);
    }
  }
}
