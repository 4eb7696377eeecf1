/** The loaded scripture corpus (`BibleData` and its books, chapters and
    verses), the result records handed to callers, the error messages the
    engine throws, and the book-by-chapter-by-verse traversal that the
    phrase scan, the index build and the statistics all follow. */
module Corpus {
  import opened Wrappers
  import opened Text

  datatype Verse = Verse(verse: int, text: string)

  datatype Chapter = Chapter(chapter: int, verses: seq<Verse>)

  datatype Book = Book(name: string, testament: string, chapters: seq<Chapter>)

  datatype BibleData = BibleData(version: string, books: seq<Book>)

  /** `ParsedVerse`: a verse copied out of the corpus with its book name and chapter number. */
  datatype ResolvedVerse = ResolvedVerse(bookName: string, chapter: int, verse: int, text: string)

  datatype SearchResult = SearchResult(reference: string, verses: seq<ResolvedVerse>, text: string, translationId: string)

  /** The messages of the errors the engine throws; `TypeError` stands for a
      property read on `undefined`, `Unavailable` for "Unable to load Bible data". */
  datatype Error =
    | InvalidFormat | BookNotFound | ChapterNotFound | VerseNotFound
    | EmptySearch | NoResults | TypeError | Unavailable

  /** The key `${bookName}-${chapter}-${verse}`. */
  function VerseKey(bookName: string, chapter: int, verse: int): string {
    bookName + "-" + IntToString(chapter) + "-" + IntToString(verse)
  }

  function Texts(vs: seq<ResolvedVerse>): (r: seq<string>)
    ensures |r| == |vs| && forall i :: 0 <= i < |vs| ==> r[i] == vs[i].text
  {
    seq(|vs|, i requires 0 <= i < |vs| => vs[i].text)
  }

  /** `verses.map(v => v.text).join(' ')`. */
  function JoinTexts(vs: seq<ResolvedVerse>): string {
    Join(Texts(vs), " ")
  }

  /** `{ bookIndex, chapterIndex, verseIndex }`: indices into the corpus arrays. */
  datatype Pos = Pos(bookIndex: nat, chapterIndex: nat, verseIndex: nat)

  predicate ValidPos(books: seq<Book>, p: Pos) {
    && p.bookIndex < |books|
    && p.chapterIndex < |books[p.bookIndex].chapters|
    && p.verseIndex < |books[p.bookIndex].chapters[p.chapterIndex].verses|
  }

  /** The verse at a position, denormalised as the search results carry it. */
  function VerseAt(books: seq<Book>, p: Pos): (v: ResolvedVerse)
    requires ValidPos(books, p)
  {
    var book := books[p.bookIndex];
    var chapter := book.chapters[p.chapterIndex];
    var verse := chapter.verses[p.verseIndex];
    ResolvedVerse(book.name, chapter.chapter, verse.verse, verse.text)
  }

  /** Corpus order: book, then chapter, then verse. */
  predicate PosLt(p: Pos, q: Pos) {
    || p.bookIndex < q.bookIndex
    || (p.bookIndex == q.bookIndex && p.chapterIndex < q.chapterIndex)
    || (p.bookIndex == q.bookIndex && p.chapterIndex == q.chapterIndex && p.verseIndex < q.verseIndex)
  }

  predicate PosLe(p: Pos, q: Pos) {
    p == q || PosLt(p, q)
  }

  /** A verse together with its position. */
  datatype Located = Located(pos: Pos, verse: ResolvedVerse)

  /** The verses of chapter `ci` of book `bi`, from verse index `vi` on. */
  function VersesFrom(books: seq<Book>, bi: nat, ci: nat, vi: nat): seq<Located>
    requires bi < |books| && ci < |books[bi].chapters|
    decreases |books[bi].chapters[ci].verses| - vi
  {
    if vi >= |books[bi].chapters[ci].verses| then []
    else [Located(Pos(bi, ci, vi), VerseAt(books, Pos(bi, ci, vi)))] + VersesFrom(books, bi, ci, vi + 1)
  }

  /** The verses of book `bi`, from chapter index `ci` on. */
  function ChaptersFrom(books: seq<Book>, bi: nat, ci: nat): seq<Located>
    requires bi < |books|
    decreases |books[bi].chapters| - ci
  {
    if ci >= |books[bi].chapters| then []
    else VersesFrom(books, bi, ci, 0) + ChaptersFrom(books, bi, ci + 1)
  }

  /** The verses of the corpus, from book index `bi` on. */
  function BooksFrom(books: seq<Book>, bi: nat): seq<Located>
    decreases |books| - bi
  {
    if bi >= |books| then []
    else ChaptersFrom(books, bi, 0) + BooksFrom(books, bi + 1)
  }

  /** Every verse of the corpus in traversal order (`books.forEach` / `chapters.forEach` / `verses.forEach`). */
  function AllVerses(books: seq<Book>): seq<Located> {
    BooksFrom(books, 0)
  }

  /** Every entry carries a position of the corpus and the verse found there. */
  predicate Sound(books: seq<Book>, es: seq<Located>) {
    forall i :: 0 <= i < |es| ==> ValidPos(books, es[i].pos) && es[i].verse == VerseAt(books, es[i].pos)
  }

  /** Positions strictly increase along the sequence. */
  predicate Ordered(es: seq<Located>) {
    forall i, j :: 0 <= i < j < |es| ==> PosLt(es[i].pos, es[j].pos)
  }

  lemma OrderedConcat(a: seq<Located>, b: seq<Located>)
    requires Ordered(a) && Ordered(b)
    requires forall i, j :: 0 <= i < |a| && 0 <= j < |b| ==> PosLt(a[i].pos, b[j].pos)
    ensures Ordered(a + b)
  {
    forall i, j | 0 <= i < j < |a + b| ensures PosLt((a + b)[i].pos, (a + b)[j].pos) {
      if j < |a| {
      } else if i >= |a| {
        assert (a + b)[i] == b[i - |a|] && (a + b)[j] == b[j - |a|];
      } else {
        assert (a + b)[j] == b[j - |a|];
      }
    }
  }

  lemma {:induction false} VersesFromFacts(books: seq<Book>, bi: nat, ci: nat, vi: nat)
    requires bi < |books| && ci < |books[bi].chapters|
    ensures var es := VersesFrom(books, bi, ci, vi);
      && Sound(books, es) && Ordered(es)
      && (forall i :: 0 <= i < |es| ==> es[i].pos.bookIndex == bi && es[i].pos.chapterIndex == ci && es[i].pos.verseIndex >= vi)
      && |es| == if vi >= |books[bi].chapters[ci].verses| then 0 else |books[bi].chapters[ci].verses| - vi
    decreases |books[bi].chapters[ci].verses| - vi
  {
    if vi < |books[bi].chapters[ci].verses| {
      VersesFromFacts(books, bi, ci, vi + 1);
      var head := [Located(Pos(bi, ci, vi), VerseAt(books, Pos(bi, ci, vi)))];
      OrderedConcat(head, VersesFrom(books, bi, ci, vi + 1));
    }
  }

  lemma {:induction false} ChaptersFromFacts(books: seq<Book>, bi: nat, ci: nat)
    requires bi < |books|
    ensures var es := ChaptersFrom(books, bi, ci);
      && Sound(books, es) && Ordered(es)
      && (forall i :: 0 <= i < |es| ==> es[i].pos.bookIndex == bi && es[i].pos.chapterIndex >= ci)
    decreases |books[bi].chapters| - ci
  {
    if ci < |books[bi].chapters| {
      VersesFromFacts(books, bi, ci, 0);
      ChaptersFromFacts(books, bi, ci + 1);
      OrderedConcat(VersesFrom(books, bi, ci, 0), ChaptersFrom(books, bi, ci + 1));
    }
  }

  lemma {:induction false} BooksFromFacts(books: seq<Book>, bi: nat)
    ensures var es := BooksFrom(books, bi);
      && Sound(books, es) && Ordered(es)
      && (forall i :: 0 <= i < |es| ==> es[i].pos.bookIndex >= bi)
    decreases |books| - bi
  {
    if bi < |books| {
      ChaptersFromFacts(books, bi, 0);
      BooksFromFacts(books, bi + 1);
      OrderedConcat(ChaptersFrom(books, bi, 0), BooksFrom(books, bi + 1));
    }
  }

  /** The traversal visits only verses of the corpus, each with its own position, in strictly increasing corpus order. */
  lemma AllVersesSoundOrdered(books: seq<Book>)
    ensures Sound(books, AllVerses(books)) && Ordered(AllVerses(books))
  {
    BooksFromFacts(books, 0);
  }

  lemma {:induction false} VersesFromComplete(books: seq<Book>, bi: nat, ci: nat, vi: nat, p: Pos)
    requires bi < |books| && ci < |books[bi].chapters|
    requires ValidPos(books, p) && p.bookIndex == bi && p.chapterIndex == ci && p.verseIndex >= vi
    ensures Located(p, VerseAt(books, p)) in VersesFrom(books, bi, ci, vi)
    decreases |books[bi].chapters[ci].verses| - vi
  {
    if p.verseIndex > vi {
      VersesFromComplete(books, bi, ci, vi + 1, p);
    }
  }

  lemma {:induction false} ChaptersFromComplete(books: seq<Book>, bi: nat, ci: nat, p: Pos)
    requires bi < |books|
    requires ValidPos(books, p) && p.bookIndex == bi && p.chapterIndex >= ci
    ensures Located(p, VerseAt(books, p)) in ChaptersFrom(books, bi, ci)
    decreases |books[bi].chapters| - ci
  {
    if p.chapterIndex == ci {
      VersesFromComplete(books, bi, ci, 0, p);
    } else {
      ChaptersFromComplete(books, bi, ci + 1, p);
    }
  }

  lemma {:induction false} BooksFromComplete(books: seq<Book>, bi: nat, p: Pos)
    requires ValidPos(books, p) && p.bookIndex >= bi
    ensures Located(p, VerseAt(books, p)) in BooksFrom(books, bi)
    decreases |books| - bi
  {
    if p.bookIndex == bi {
      ChaptersFromComplete(books, bi, 0, p);
    } else {
      BooksFromComplete(books, bi + 1, p);
    }
  }

  /** Every verse of the corpus is visited. */
  lemma AllVersesComplete(books: seq<Book>, p: Pos)
    requires ValidPos(books, p)
    ensures Located(p, VerseAt(books, p)) in AllVerses(books)
  {
    BooksFromComplete(books, 0, p);
  }
}
