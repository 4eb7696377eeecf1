/** The reference lookups over a loaded corpus: `getVerseByReference`,
    `getRandomVerse`, `getPopularVerse` and `getBibleStats`. */
module Lookup {
  import opened Wrappers
  import opened Text
  import opened Corpus
  import opened Reference
  import opened Books

  /** `book.chapters.find(c => c.chapter === n)`, as an index. */
  function ChapterIndex(chapters: seq<Chapter>, n: int): (r: Option<nat>)
    ensures r.Some? ==> r.value < |chapters| && chapters[r.value].chapter == n
    ensures r.Some? ==> forall j :: 0 <= j < r.value ==> chapters[j].chapter != n
    ensures r.None? <==> forall j :: 0 <= j < |chapters| ==> chapters[j].chapter != n
  {
    if chapters == [] then None
    else if chapters[0].chapter == n then Some(0)
    else match ChapterIndex(chapters[1..], n) {
      case None => None
      case Some(i) => Some(i + 1)
    }
  }

  /** `chapter.verses.filter(v => v.verse >= lo && v.verse <= hi)`. */
  function Selected(vs: seq<Verse>, lo: int, hi: int): (r: seq<Verse>)
    ensures |r| <= |vs|
  {
    if vs == [] then []
    else (if lo <= vs[0].verse <= hi then [vs[0]] else []) + Selected(vs[1..], lo, hi)
  }

  /** The filter keeps exactly the verses numbered between the bounds. */
  lemma {:induction false} SelectedMembers(vs: seq<Verse>, lo: int, hi: int)
    ensures forall v :: v in Selected(vs, lo, hi) <==> v in vs && lo <= v.verse <= hi
    decreases |vs|
  {
    if vs != [] {
      SelectedMembers(vs[1..], lo, hi);
      SelectedCons(vs, lo, hi);
      assert vs == [vs[0]] + vs[1..];
    }
  }

  /** The upper bound `parsed.verseEnd || parsed.verseStart`: a `verseEnd` of 0 is falsy. */
  function Upper(loc: Locator): int
    requires loc.verseStart.Some?
  {
    if loc.verseEnd.Some? && loc.verseEnd.value != 0 then loc.verseEnd.value else loc.verseStart.value
  }

  /** The verses a locator asks for in a chapter: the range when a verse is
      given, otherwise the whole chapter. */
  function Wanted(loc: Locator, vs: seq<Verse>): seq<Verse> {
    if loc.verseStart.Some? then Selected(vs, loc.verseStart.value, Upper(loc)) else vs
  }

  /** `verses.map(v => ({ book_name, chapter, verse: v.verse, text: v.text }))`. */
  function Denormalize(bookName: string, chapter: int, vs: seq<Verse>): (r: seq<ResolvedVerse>)
    ensures |r| == |vs|
    ensures forall i :: 0 <= i < |vs| ==> r[i] == ResolvedVerse(bookName, chapter, vs[i].verse, vs[i].text)
  {
    seq(|vs|, i requires 0 <= i < |vs| => ResolvedVerse(bookName, chapter, vs[i].verse, vs[i].text))
  }

  /** The `verseRef` label; each test is the truthiness test of the source,
      so a verse number 0 counts as absent. */
  function ReferenceLabel(bookName: string, loc: Locator): string {
    if loc.verseStart.Some? && loc.verseStart.value != 0 then
      if loc.verseEnd.Some? && loc.verseEnd.value != 0 && loc.verseEnd != loc.verseStart then
        bookName + " " + NatToString(loc.chapter) + ":" + NatToString(loc.verseStart.value) + "-" + NatToString(loc.verseEnd.value)
      else
        bookName + " " + NatToString(loc.chapter) + ":" + NatToString(loc.verseStart.value)
    else
      bookName + " " + NatToString(loc.chapter)
  }

  predicate NoVerseIn(vs: seq<Verse>, lo: int, hi: int) {
    forall v :: v in vs ==> !(lo <= v.verse <= hi)
  }

  /** The last step of `getVerseByReference`, once book and chapter are found:
      the wanted verses, or `VERSE_NOT_FOUND` when a verse range selects none. */
  function ChapterLookup(version: string, book: Book, ci: nat, loc: Locator): (r: Result<SearchResult, Error>)
    requires ci < |book.chapters|
    ensures r == Err(VerseNotFound) <==>
      loc.verseStart.Some? && NoVerseIn(book.chapters[ci].verses, loc.verseStart.value, Upper(loc))
    ensures r.Err? ==> r.error == VerseNotFound
    ensures r.Ok? ==>
      && r.value.verses == Denormalize(book.name, loc.chapter, Wanted(loc, book.chapters[ci].verses))
      && r.value.reference == ReferenceLabel(book.name, loc)
      && r.value.text == JoinTexts(r.value.verses)
      && r.value.translationId == version
  {
    var chapter := book.chapters[ci];
    var verses := Wanted(loc, chapter.verses);
    var lo := if loc.verseStart.Some? then loc.verseStart.value else 0;
    var hi := if loc.verseStart.Some? then Upper(loc) else 0;
    SelectedMembers(chapter.verses, lo, hi);
    if loc.verseStart.Some? && verses == [] then
      Err(VerseNotFound)
    else
      assert loc.verseStart.Some? ==> verses[0] in chapter.verses;
      var resolved := Denormalize(book.name, loc.chapter, verses);
      Ok(SearchResult(ReferenceLabel(book.name, loc), resolved, JoinTexts(resolved), version))
  }

  /** `getVerseByReference` after parsing: `BOOK_NOT_FOUND` exactly when no
      book matches, otherwise the chapter step (`LocatorLookupFound`). */
  function LocatorLookup(data: BibleData, loc: Locator): (r: Result<SearchResult, Error>)
    ensures r == Err(BookNotFound) <==> BookMatch(data.books, loc.book).None?
    ensures r.Err? ==> r.error in {BookNotFound, ChapterNotFound, VerseNotFound}
  {
    match BookMatch(data.books, loc.book)
    case None => Err(BookNotFound)
    case Some(bi) =>
      var book := data.books[bi];
      match ChapterIndex(book.chapters, loc.chapter)
      case None => Err(ChapterNotFound)
      case Some(ci) => ChapterLookup(data.version, book, ci, loc)
  }

  /** Once the book is found: `CHAPTER_NOT_FOUND` exactly when the book has no
      chapter with that number, otherwise the chapter's lookup. */
  lemma LocatorLookupFound(data: BibleData, loc: Locator, bi: nat)
    requires BookMatch(data.books, loc.book) == Some(bi)
    ensures LocatorLookup(data, loc) == Err(ChapterNotFound) <==> ChapterIndex(data.books[bi].chapters, loc.chapter).None?
    ensures forall ci :: ChapterIndex(data.books[bi].chapters, loc.chapter) == Some(ci) ==>
      LocatorLookup(data, loc) == ChapterLookup(data.version, data.books[bi], ci, loc)
  {
    match ChapterIndex(data.books[bi].chapters, loc.chapter)
    case None =>
    case Some(ci) =>
      var r := ChapterLookup(data.version, data.books[bi], ci, loc);
      assert r.Err? ==> r.error == VerseNotFound;
  }

  /** `getVerseByReference` on loaded data: `INVALID_FORMAT` exactly when the
      reference does not parse, otherwise the lookup of the parsed locator. */
  function GetVerseByReference(data: BibleData, reference: string): (r: Result<SearchResult, Error>)
    ensures r == Err(InvalidFormat) <==> ParseReference(reference).None?
    ensures forall loc :: ParseReference(reference) == Some(loc) ==> r == LocatorLookup(data, loc)
    ensures r.Err? ==> r.error in {InvalidFormat, BookNotFound, ChapterNotFound, VerseNotFound}
  {
    match ParseReference(reference)
    case None => Err(InvalidFormat)
    case Some(loc) => LocatorLookup(data, loc)
  }

  /** Verse numbers `base`, `base + 1`, ... in order, as a chapter normally has them. */
  predicate NumberedFrom(vs: seq<Verse>, base: int) {
    forall i :: 0 <= i < |vs| ==> vs[i].verse == base + i
  }

  lemma NumberedTail(vs: seq<Verse>, base: int)
    requires vs != [] && NumberedFrom(vs, base)
    ensures NumberedFrom(vs[1..], base + 1)
  {
    forall i | 0 <= i < |vs[1..]| ensures vs[1..][i].verse == base + 1 + i {
      assert vs[1..][i] == vs[i + 1];
    }
  }

  /** Selection one verse at a time: the first verse is kept or dropped, then the rest. */
  lemma SelectedCons(vs: seq<Verse>, lo: int, hi: int)
    requires vs != []
    ensures lo <= vs[0].verse <= hi ==> Selected(vs, lo, hi) == [vs[0]] + Selected(vs[1..], lo, hi)
    ensures !(lo <= vs[0].verse <= hi) ==> Selected(vs, lo, hi) == Selected(vs[1..], lo, hi)
  {
    assert [] + Selected(vs[1..], lo, hi) == Selected(vs[1..], lo, hi);
  }

  lemma {:induction false} SelectedPrefix(vs: seq<Verse>, base: int, lo: int, hi: int)
    requires NumberedFrom(vs, base) && lo <= base && base - 1 <= hi < base + |vs|
    ensures Selected(vs, lo, hi) == vs[..hi - base + 1]
    decreases |vs|
  {
    if vs != [] {
      if hi == base - 1 {
        SelectedNone(vs, base, lo, hi);
      } else {
        assert vs[0].verse == base;
        NumberedTail(vs, base);
        SelectedPrefix(vs[1..], base + 1, lo, hi);
        SelectedCons(vs, lo, hi);
        assert vs[..hi - base + 1] == [vs[0]] + vs[1..][..hi - base];
      }
    }
  }

  lemma {:induction false} SelectedNone(vs: seq<Verse>, base: int, lo: int, hi: int)
    requires NumberedFrom(vs, base) && hi < base
    ensures Selected(vs, lo, hi) == []
    decreases |vs|
  {
    if vs != [] {
      NumberedTail(vs, base);
      SelectedNone(vs[1..], base + 1, lo, hi);
      SelectedCons(vs, lo, hi);
    }
  }

  /** In a chapter numbered consecutively, a range of verse numbers inside the
      chapter selects exactly that stretch of the chapter. */
  lemma {:induction false} SelectedNumbered(vs: seq<Verse>, base: int, lo: int, hi: int)
    requires NumberedFrom(vs, base) && base <= lo <= hi < base + |vs|
    ensures Selected(vs, lo, hi) == vs[lo - base..hi - base + 1]
    decreases |vs|
  {
    if lo == base {
      SelectedPrefix(vs, base, lo, hi);
    } else {
      assert vs[0].verse == base;
      NumberedTail(vs, base);
      SelectedNumbered(vs[1..], base + 1, lo, hi);
      SelectedCons(vs, lo, hi);
      assert vs[1..][lo - base - 1..hi - base] == vs[lo - base..hi - base + 1];
    }
  }

  /** In a chapter numbered 1, 2, ..., a verse range S to E inside the chapter
      yields exactly verses S to E. */
  lemma ChapterRange(version: string, book: Book, ci: nat, loc: Locator)
    requires ci < |book.chapters| && NumberedFrom(book.chapters[ci].verses, 1)
    requires loc.verseStart.Some? && 1 <= loc.verseStart.value <= Upper(loc) <= |book.chapters[ci].verses|
    ensures var vs := book.chapters[ci].verses;
      var r := ChapterLookup(version, book, ci, loc);
      && r.Ok?
      && r.value.verses == Denormalize(book.name, loc.chapter, vs[loc.verseStart.value - 1..Upper(loc)])
      && |r.value.verses| == Upper(loc) - loc.verseStart.value + 1
  {
    var vs := book.chapters[ci].verses;
    var s, u := loc.verseStart.value, Upper(loc);
    SelectedNumbered(vs, 1, s, u);
    assert Wanted(loc, vs) == vs[s - 1..u];
    assert vs[s - 1].verse == s && vs[s - 1] in vs;
    assert !NoVerseIn(vs, s, u);
  }

  /** End to end: the text `Book C:S-E` (or `Book C:S`) of a locator whose book
      and chapter exist, looked up in a chapter numbered 1, 2, ..., yields
      exactly verses S to E of that chapter. */
  lemma RangeLookup(data: BibleData, loc: Locator, bi: nat, ci: nat)
    requires PlainBookName(loc.book)
    requires BookMatch(data.books, loc.book) == Some(bi)
    requires ChapterIndex(data.books[bi].chapters, loc.chapter) == Some(ci)
    requires NumberedFrom(data.books[bi].chapters[ci].verses, 1)
    requires loc.verseStart.Some? && loc.verseEnd.Some?
    requires 1 <= loc.verseStart.value <= loc.verseEnd.value <= |data.books[bi].chapters[ci].verses|
    ensures var vs := data.books[bi].chapters[ci].verses;
      var r := GetVerseByReference(data, ReferenceText(loc));
      && r.Ok?
      && r.value.verses == Denormalize(data.books[bi].name, loc.chapter, vs[loc.verseStart.value - 1..loc.verseEnd.value])
      && |r.value.verses| == loc.verseEnd.value - loc.verseStart.value + 1
  {
    var text := ReferenceText(loc);
    ParseReferenceText(loc);
    assert GetVerseByReference(data, text) == LocatorLookup(data, loc);
    LocatorLookupFound(data, loc, bi);
    ChapterRange(data.version, data.books[bi], ci, loc);
  }

  /** Labels round-trip: the label of a lookup with nonzero numbers and a
      plain book name parses back to that book, chapter and verse range. */
  lemma LabelRoundTrip(bookName: string, loc: Locator)
    requires PlainBookName(bookName)
    requires loc.verseEnd.Some? <==> loc.verseStart.Some?
    requires loc.verseStart.Some? ==> loc.verseStart.value != 0 && loc.verseEnd.value != 0
    ensures ParseReference(ReferenceLabel(bookName, loc)) == Some(loc.(book := bookName))
  {
    var named := loc.(book := bookName);
    assert ReferenceLabel(bookName, loc) == ReferenceText(named);
    ParseReferenceText(named);
  }

  /** `Math.floor(Math.random() * length)` for a draw `0 <= u < 1`. */
  function Pick(u: real, length: nat): (i: int)
    requires 0.0 <= u < 1.0
    ensures length > 0 ==> 0 <= i < length
    ensures length == 0 ==> i == 0
  {
    assert 0.0 <= u * length as real;
    assert length > 0 ==> u * length as real < length as real;
    (u * length as real).Floor
  }

  /** Every index can be drawn. */
  lemma PickReaches(i: nat, length: nat)
    requires i < length
    ensures 0.0 <= i as real / length as real < 1.0
    ensures Pick(i as real / length as real, length) == i
  {
    var u := i as real / length as real;
    assert u * length as real == i as real;
    assert u < 1.0;
    assert (i as real).Floor == i;
  }

  /** `getRandomVerse` on loaded data, with the three `Math.random()` draws as
      parameters; reading a property of the `undefined` that an empty array
      yields is `TypeError`. */
  function RandomVerse(data: BibleData, u1: real, u2: real, u3: real): (r: Result<SearchResult, Error>)
    requires 0.0 <= u1 < 1.0 && 0.0 <= u2 < 1.0 && 0.0 <= u3 < 1.0
    ensures r.Ok? <==>
      && |data.books| > 0
      && |data.books[Pick(u1, |data.books|)].chapters| > 0
      && |data.books[Pick(u1, |data.books|)].chapters[Pick(u2, |data.books[Pick(u1, |data.books|)].chapters|)].verses| > 0
    ensures r.Err? ==> r.error == TypeError
    ensures r.Ok? ==>
      var bi := Pick(u1, |data.books|);
      var ci := Pick(u2, |data.books[bi].chapters|);
      var p := Pos(bi, ci, Pick(u3, |data.books[bi].chapters[ci].verses|));
      ValidPos(data.books, p) && r.value.verses == [VerseAt(data.books, p)]
    ensures r.Ok? ==> |r.value.verses| == 1 && r.value.text == r.value.verses[0].text && r.value.translationId == data.version
    ensures r.Ok? ==> var v := r.value.verses[0];
      r.value.reference == v.bookName + " " + IntToString(v.chapter) + ":" + IntToString(v.verse)
  {
    var bi := Pick(u1, |data.books|);
    if bi >= |data.books| then Err(TypeError)
    else
      var book := data.books[bi];
      var ci := Pick(u2, |book.chapters|);
      if ci >= |book.chapters| then Err(TypeError)
      else
        var chapter := book.chapters[ci];
        var vi := Pick(u3, |chapter.verses|);
        if vi >= |chapter.verses| then Err(TypeError)
        else
          var p := Pos(bi, ci, vi);
          var v := VerseAt(data.books, p);
          Ok(SearchResult(v.bookName + " " + IntToString(v.chapter) + ":" + IntToString(v.verse), [v], v.text, data.version))
  }

  /** Every verse of the corpus is the daily verse for some draws. */
  lemma RandomVerseReachesEvery(data: BibleData, p: Pos)
    requires ValidPos(data.books, p)
    ensures var chapters := data.books[p.bookIndex].chapters;
      var u1 := p.bookIndex as real / |data.books| as real;
      var u2 := p.chapterIndex as real / |chapters| as real;
      var u3 := p.verseIndex as real / |chapters[p.chapterIndex].verses| as real;
      && 0.0 <= u1 < 1.0 && 0.0 <= u2 < 1.0 && 0.0 <= u3 < 1.0
      && RandomVerse(data, u1, u2, u3).Ok?
      && RandomVerse(data, u1, u2, u3).value.verses == [VerseAt(data.books, p)]
  {
    var chapters := data.books[p.bookIndex].chapters;
    PickReaches(p.bookIndex, |data.books|);
    PickReaches(p.chapterIndex, |chapters|);
    PickReaches(p.verseIndex, |chapters[p.chapterIndex].verses|);
  }

  /** The twenty references of the daily rotation. */
  const PopularVerses: seq<string> := [
    "John 3:16", "Philippians 4:13", "Jeremiah 29:11", "Romans 8:28", "Proverbs 3:5-6",
    "Isaiah 41:10", "Matthew 6:33", "Psalm 23:1", "Joshua 1:9", "Romans 12:2",
    "Galatians 5:22-23", "Ephesians 2:8-9", "Colossians 3:23", "Hebrews 11:1", "James 1:2-3",
    "Psalm 46:1", "Matthew 11:28", "John 14:6", "Romans 5:8", "Psalm 119:105"
  ]

  lemma {:induction false} MulAtLeast(d: int, b: int)
    requires d >= 1 && b > 0
    ensures d * b >= b
    decreases d
  {
    if d > 1 {
      MulAtLeast(d - 1, b);
      assert d * b == (d - 1) * b + b;
    }
  }

  /** Quotient and remainder are unique. */
  lemma ModUnique(x: int, b: int, q: int, r: int)
    requires b > 0 && x == q * b + r && 0 <= r < b
    ensures x % b == r
  {
    var q0 := x / b;
    var r0 := x % b;
    var d := q0 - q;
    assert d * b == q0 * b - q * b;
    assert d * b == r - r0;
    if d >= 1 {
      MulAtLeast(d, b);
    } else if d <= -1 {
      MulAtLeast(-d, b);
    }
  }

  /** JavaScript's `%`, which truncates toward zero, in terms of Dafny's
      Euclidean `%`. */
  function JsRem(a: int, b: int): (r: int)
    requires b > 0
    ensures a >= 0 ==> r == a % b
    ensures a < 0 ==> r == if a % b == 0 then 0 else a % b - b
  {
    if a >= 0 then a % b
    else
      var m := a % b;
      var q := a / b;
      assert a == q * b + m;
      if m == 0 then
        ModUnique(-a, b, -q, 0);
        -((-a) % b)
      else
        assert -a == (-q - 1) * b + (b - m);
        ModUnique(-a, b, -q - 1, b - m);
        -((-a) % b)
  }

  /** `popularVerses[index % popularVerses.length]`: a negative remainder is no
      array index (`undefined`), but a remainder of `-0` reads element 0. */
  function PopularSlot(index: int): (r: Option<nat>)
    ensures index >= 0 ==> r == Some(index % |PopularVerses|)
    ensures index < 0 ==> (r.Some? <==> index % |PopularVerses| == 0)
    ensures r.Some? ==> r.value < |PopularVerses| && r.value == index % |PopularVerses|
  {
    var m := JsRem(index, |PopularVerses|);
    if m >= 0 then Some(m) else None
  }

  /** The rotation repeats every twenty days. */
  lemma PopularSlotPeriodic(index: nat, k: nat)
    ensures PopularSlot(index + k * |PopularVerses|) == PopularSlot(index)
  {
    assert (index + k * 20) % 20 == index % 20;
  }

  /** `getPopularVerse` on loaded data: the lookup's failure, or an index with
      no entry (whose `undefined` makes `parseReference` throw), falls back to
      the random verse. */
  function PopularVerse(data: BibleData, index: int, u1: real, u2: real, u3: real): (r: Result<SearchResult, Error>)
    requires 0.0 <= u1 < 1.0 && 0.0 <= u2 < 1.0 && 0.0 <= u3 < 1.0
    ensures PopularSlot(index).Some? && GetVerseByReference(data, PopularVerses[PopularSlot(index).value]).Ok? ==>
      r == GetVerseByReference(data, PopularVerses[PopularSlot(index).value])
    ensures PopularSlot(index).None? || GetVerseByReference(data, PopularVerses[PopularSlot(index).value]).Err? ==>
      r == RandomVerse(data, u1, u2, u3)
  {
    match PopularSlot(index)
    case None => RandomVerse(data, u1, u2, u3)
    case Some(slot) =>
      match GetVerseByReference(data, PopularVerses[slot])
      case Ok(result) => Ok(result)
      case Err(_) => RandomVerse(data, u1, u2, u3)
  }

  /** The daily verse fails only when the random fallback does. */
  lemma PopularVerseFailsOnlyWithFallback(data: BibleData, index: int, u1: real, u2: real, u3: real)
    requires 0.0 <= u1 < 1.0 && 0.0 <= u2 < 1.0 && 0.0 <= u3 < 1.0
    requires RandomVerse(data, u1, u2, u3).Ok?
    ensures PopularVerse(data, index, u1, u2, u3).Ok?
  {
  }

  /** `getBibleStats`' totals, book by book. */
  datatype Stats = Stats(books: nat, chapters: nat, verses: nat)

  function ChapterTotal(books: seq<Book>): nat {
    if books == [] then 0 else |books[0].chapters| + ChapterTotal(books[1..])
  }

  function ChapterVerses(chapters: seq<Chapter>): nat {
    if chapters == [] then 0 else |chapters[0].verses| + ChapterVerses(chapters[1..])
  }

  function VerseTotal(books: seq<Book>): nat {
    if books == [] then 0 else ChapterVerses(books[0].chapters) + VerseTotal(books[1..])
  }

  /** The chapter loop of one book: `book.chapters.forEach(... totalVerses += ...)`. */
  method CountVerses(chapters: seq<Chapter>) returns (total: nat)
    ensures total == ChapterVerses(chapters)
  {
    total := 0;
    var ci := 0;
    while ci < |chapters|
      invariant 0 <= ci <= |chapters|
      invariant total + ChapterVerses(chapters[ci..]) == ChapterVerses(chapters)
    {
      assert chapters[ci..][1..] == chapters[ci + 1..];
      total := total + |chapters[ci].verses|;
      ci := ci + 1;
    }
  }

  /** `getBibleStats` on loaded data. */
  method BibleStats(data: BibleData) returns (stats: Stats)
    ensures stats == Stats(|data.books|, ChapterTotal(data.books), VerseTotal(data.books))
  {
    var totalChapters := 0;
    var totalVerses := 0;
    var bi := 0;
    while bi < |data.books|
      invariant 0 <= bi <= |data.books|
      invariant totalChapters + ChapterTotal(data.books[bi..]) == ChapterTotal(data.books)
      invariant totalVerses + VerseTotal(data.books[bi..]) == VerseTotal(data.books)
    {
      assert data.books[bi..][1..] == data.books[bi + 1..];
      totalChapters := totalChapters + |data.books[bi].chapters|;
      var n := CountVerses(data.books[bi].chapters);
      totalVerses := totalVerses + n;
      bi := bi + 1;
    }
    stats := Stats(|data.books|, totalChapters, totalVerses);
  }

  lemma {:induction false} ChaptersFromCount(books: seq<Book>, bi: nat, ci: nat)
    requires bi < |books| && ci <= |books[bi].chapters|
    ensures |ChaptersFrom(books, bi, ci)| == ChapterVerses(books[bi].chapters[ci..])
    decreases |books[bi].chapters| - ci
  {
    if ci < |books[bi].chapters| {
      VersesFromFacts(books, bi, ci, 0);
      ChaptersFromCount(books, bi, ci + 1);
      assert books[bi].chapters[ci..][1..] == books[bi].chapters[ci + 1..];
    }
  }

  lemma {:induction false} BooksFromCount(books: seq<Book>, bi: nat)
    requires bi <= |books|
    ensures |BooksFrom(books, bi)| == VerseTotal(books[bi..])
    decreases |books| - bi
  {
    if bi < |books| {
      ChaptersFromCount(books, bi, 0);
      BooksFromCount(books, bi + 1);
      assert books[bi..][1..] == books[bi + 1..];
      assert books[bi].chapters[0..] == books[bi].chapters;
    }
  }

  /** The verse total is the number of verses every corpus traversal visits. */
  lemma VerseTotalIsTraversalLength(books: seq<Book>)
    ensures VerseTotal(books) == |AllVerses(books)|
  {
    BooksFromCount(books, 0);
    assert books[0..] == books;
  }
}
