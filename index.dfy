/** `buildSearchIndex`: the token index (token to positions, in corpus order)
    and the prefix index (prefix of 3 to 8 characters to the tokens that
    start with it). The index is defined as a fold over the corpus traversal
    (`IndexOf`); the build methods follow the source's nested loops and are
    proved to compute that fold. */
module SearchIndex {
  import opened Text
  import opened Corpus

  // ---------------------------------------------------------------- tokens

  /** `.replace(/[^\w\s]/g, ' ')` on one character. */
  function CleanChar(c: char): char {
    if IsWordChar(c) || IsSpace(c) then c else ' '
  }

  function Clean(s: string): (r: string)
    ensures |r| == |s| && forall i :: 0 <= i < |s| ==> r[i] == CleanChar(s[i])
  {
    seq(|s|, i requires 0 <= i < |s| => CleanChar(s[i]))
  }

  /** Number of leading non-whitespace characters. */
  function WordRun(s: string): (n: nat)
    ensures n <= |s|
    ensures forall i :: 0 <= i < n ==> !IsSpace(s[i])
    ensures n < |s| ==> IsSpace(s[n])
  {
    if s == [] || IsSpace(s[0]) then 0 else 1 + WordRun(s[1..])
  }

  /** The non-empty pieces of `.split(/\s+/)`: the maximal runs of non-whitespace. */
  function Words(s: string): seq<string>
    decreases |s|
  {
    var w := SpaceRun(s);
    if w == |s| then []
    else
      var r := s[w..];
      var n := WordRun(r);
      [r[..n]] + Words(r[n..])
  }

  predicate NoSpaces(w: string) {
    forall k :: 0 <= k < |w| ==> !IsSpace(w[k])
  }

  /** Each piece is non-empty and free of whitespace. */
  lemma {:induction false} WordsShape(s: string)
    ensures forall i :: 0 <= i < |Words(s)| ==> Words(s)[i] != [] && NoSpaces(Words(s)[i])
    decreases |s|
  {
    var w := SpaceRun(s);
    if w < |s| {
      var r := s[w..];
      var n := WordRun(r);
      var rest := Words(r[n..]);
      WordsShape(r[n..]);
      var ws := Words(s);
      assert ws == [r[..n]] + rest;
      assert r[0] == s[w];
      forall i | 0 <= i < |ws| ensures ws[i] != [] && NoSpaces(ws[i]) {
        if i == 0 {
          assert ws[0] == r[..n];
        } else {
          assert ws[i] == rest[i - 1];
        }
      }
    }
  }

  lemma ContainsInSuffix(s: string, k: nat, t: string)
    requires k <= |s| && Contains(s[k..], t)
    ensures Contains(s, t)
  {
    assert s[k..] == s[k..|s|];
    ContainsInSlice(s, k, |s|, t);
  }

  predicate AllOccur(s: string, ws: seq<string>) {
    forall i :: 0 <= i < |ws| ==> Contains(s, ws[i])
  }

  lemma AllOccurSuffix(s: string, k: nat, ws: seq<string>)
    requires k <= |s| && AllOccur(s[k..], ws)
    ensures AllOccur(s, ws)
  {
    forall i | 0 <= i < |ws| ensures Contains(s, ws[i]) {
      ContainsInSuffix(s, k, ws[i]);
    }
  }

  lemma AllOccurCons(s: string, h: string, ws: seq<string>)
    requires Contains(s, h) && AllOccur(s, ws)
    ensures AllOccur(s, [h] + ws)
  {
    forall i | 0 <= i < |[h] + ws| ensures Contains(s, ([h] + ws)[i]) {
      if i > 0 {
        assert ([h] + ws)[i] == ws[i - 1];
      }
    }
  }

  /** Each piece occurs in the string. */
  lemma {:induction false} WordsOccur(s: string)
    ensures AllOccur(s, Words(s))
    decreases |s|
  {
    var w := SpaceRun(s);
    if w < |s| {
      var r := s[w..];
      var n := WordRun(r);
      var rest := Words(r[n..]);
      WordsOccur(r[n..]);
      assert Words(s) == [r[..n]] + rest;
      PieceOccurs(s, w, n);
      AllOccurSuffix(s, w + n, rest);
      AllOccurCons(s, r[..n], rest);
    }
  }

  /** The piece of length `n` after offset `w` occurs in `s`, and what follows it is a suffix of `s`. */
  lemma PieceOccurs(s: string, w: nat, n: nat)
    requires w + n <= |s|
    ensures Contains(s, s[w..][..n]) && s[w..][n..] == s[w + n..]
  {
    assert s[w..w + n] == s[w..][..n];
    assert OccursAt(s, s[w..][..n], w);
  }

  /** `.filter(word => word.length > 2)`. */
  function LongWords(ws: seq<string>): (r: seq<string>)
    ensures forall t :: t in r <==> t in ws && |t| > 2
  {
    if ws == [] then []
    else (if |ws[0]| > 2 then [ws[0]] else []) + LongWords(ws[1..])
  }

  /** The tokens of a verse text, in order, repeats kept. */
  function Tokenize(text: string): seq<string> {
    LongWords(Words(Clean(Lower(text))))
  }

  /** A whitespace-free piece of the cleaned text is made of word characters
      and occurs at the same place in the text before cleaning. */
  lemma CleanPieceFacts(low: string, t: string, i: nat)
    requires NoSpaces(t) && OccursAt(Clean(low), t, i)
    ensures forall k :: 0 <= k < |t| ==> IsWordChar(t[k]) && low[i + k] == t[k]
    ensures OccursAt(low, t, i)
  {
    var c := Clean(low);
    forall k | 0 <= k < |t| ensures IsWordChar(t[k]) && low[i + k] == t[k] {
      assert c[i..i + |t|][k] == c[i + k];
    }
    assert low[i..i + |t|] == t;
  }

  lemma LowerNoUpper(text: string)
    ensures forall k :: 0 <= k < |Lower(text)| ==> !('A' <= Lower(text)[k] <= 'Z')
  {
  }

  /** A token is at least three word characters, none an upper-case letter,
      and it occurs in the lower-cased verse text. */
  lemma TokenFacts(text: string, t: string)
    requires t in Tokenize(text)
    ensures |t| >= 3
    ensures forall k :: 0 <= k < |t| ==> IsWordChar(t[k]) && !('A' <= t[k] <= 'Z')
    ensures Contains(Lower(text), t)
  {
    var low := Lower(text);
    var c := Clean(low);
    var ws := Words(c);
    assert t in ws && |t| > 2;
    WordsShape(c);
    WordsOccur(c);
    var j :| 0 <= j < |ws| && ws[j] == t;
    assert NoSpaces(t) && Contains(c, t);
    var i :| 0 <= i <= |c| - |t| && OccursAt(c, t, i);
    CleanPieceFacts(low, t, i);
    LowerNoUpper(text);
    forall k | 0 <= k < |t| ensures !('A' <= t[k] <= 'Z') {
      assert t[k] == low[i + k];
    }
  }

  // ---------------------------------------------------------------- the index

  /** The two structures `buildSearchIndex` fills: `index` (its keys in
      insertion order, which `for (const word in index)` follows, and the
      position lists) and `partialIndex`. */
  datatype Index = Index(keys: seq<string>, postings: map<string, seq<Pos>>, prefixes: map<string, set<string>>)

  const EmptyIndex := Index([], map[], map[])

  function Min(a: int, b: int): int {
    if a <= b then a else b
  }

  /** `index[word] || []`. */
  function PostingsOf(ix: Index, w: string): seq<Pos> {
    if w in ix.postings then ix.postings[w] else []
  }

  /** `k` is one of the prefixes `word.substring(0, j)` for `i <= j <= min(|word|, 8)`. */
  predicate IsPrefixKey(word: string, k: string, i: int) {
    i <= |k| <= Min(|word|, 8) && k == word[..|k|]
  }

  /** The prefix loop `for (let i = 3; i <= Math.min(word.length, 8); i++)`, from `i` on. */
  function PrefixesFrom(pm: map<string, set<string>>, word: string, i: nat): map<string, set<string>>
    decreases 9 - i
  {
    if i > Min(|word|, 8) then pm
    else
      var p := word[..i];
      PrefixesFrom(pm[p := (if p in pm then pm[p] else {}) + {word}], word, i + 1)
  }

  /** The prefix loop adds the word under exactly its prefixes of `i` to 8 characters. */
  lemma {:induction false} PrefixesFromFacts(pm: map<string, set<string>>, word: string, i: nat)
    ensures var r := PrefixesFrom(pm, word, i);
      && (forall k :: k in r <==> k in pm || IsPrefixKey(word, k, i))
      && (forall k :: k in r ==>
            r[k] == (if k in pm then pm[k] else {}) + (if IsPrefixKey(word, k, i) then {word} else {}))
    decreases 9 - i
  {
    if i <= Min(|word|, 8) {
      var p := word[..i];
      PrefixesFromFacts(pm[p := (if p in pm then pm[p] else {}) + {word}], word, i + 1);
      assert forall k :: IsPrefixKey(word, k, i) <==> k == p || IsPrefixKey(word, k, i + 1);
    }
  }

  /** One `words.forEach` step: create the entry if absent, append the
      position, record the word under each of its prefixes. */
  function AddWord(ix: Index, word: string, p: Pos): Index {
    Index(
      if word in ix.postings then ix.keys else ix.keys + [word],
      ix.postings[word := PostingsOf(ix, word) + [p]],
      PrefixesFrom(ix.prefixes, word, 3))
  }

  /** All words of one verse. */
  function IndexWords(ix: Index, ws: seq<string>, p: Pos): Index
    decreases |ws|
  {
    if ws == [] then ix else IndexWords(AddWord(ix, ws[0], p), ws[1..], p)
  }

  /** All verses of a traversal, in order. */
  function IndexVerses(ix: Index, es: seq<Located>): Index
    decreases |es|
  {
    if es == [] then ix else IndexVerses(IndexWords(ix, Tokenize(es[0].verse.text), es[0].pos), es[1..])
  }

  /** The index `buildSearchIndex` builds for a corpus. */
  function IndexOf(books: seq<Book>): Index {
    IndexVerses(EmptyIndex, AllVerses(books))
  }

  lemma {:induction false} IndexVersesAppend(ix: Index, a: seq<Located>, b: seq<Located>)
    ensures IndexVerses(ix, a + b) == IndexVerses(IndexVerses(ix, a), b)
    decreases |a|
  {
    if a != [] {
      assert (a + b)[0] == a[0] && (a + b)[1..] == a[1..] + b;
      IndexVersesAppend(IndexWords(ix, Tokenize(a[0].verse.text), a[0].pos), a[1..], b);
    } else {
      assert a + b == b;
    }
  }

  // ---------------------------------------------------------------- the build loops

  /** The prefix loop of one word. */
  method AddPrefixes(pm: map<string, set<string>>, word: string) returns (r: map<string, set<string>>)
    ensures r == PrefixesFrom(pm, word, 3)
  {
    r := pm;
    var i := 3;
    while i <= Min(|word|, 8)
      invariant 3 <= i <= 9
      invariant PrefixesFrom(r, word, i) == PrefixesFrom(pm, word, 3)
      decreases 9 - i
    {
      var prefix := word[..i];
      ghost var before := r;
      if prefix !in r {
        r := r[prefix := {}];
      }
      r := r[prefix := r[prefix] + {word}];
      assert r == before[prefix := (if prefix in before then before[prefix] else {}) + {word}];
      i := i + 1;
    }
  }

  /** The body of the `words.forEach` callback for one word. */
  method AddWordStep(ix: Index, word: string, p: Pos) returns (r: Index)
    ensures r == AddWord(ix, word, p)
  {
    var keys := ix.keys;
    var postings := ix.postings;
    if word !in postings {
      keys := keys + [word];
      postings := postings[word := []];
    }
    postings := postings[word := postings[word] + [p]];
    assert postings == ix.postings[word := PostingsOf(ix, word) + [p]];
    var prefixes := AddPrefixes(ix.prefixes, word);
    r := Index(keys, postings, prefixes);
  }

  /** The `words.forEach` loop of one verse. */
  method IndexVerse(ix: Index, words: seq<string>, p: Pos) returns (r: Index)
    ensures r == IndexWords(ix, words, p)
  {
    r := ix;
    var k := 0;
    while k < |words|
      invariant 0 <= k <= |words|
      invariant IndexWords(r, words[k..], p) == IndexWords(ix, words, p)
    {
      assert words[k..][1..] == words[k + 1..];
      r := AddWordStep(r, words[k], p);
      k := k + 1;
    }
  }

  /** `chapter.verses.forEach((verse, verseIndex) => ...)`. */
  method IndexChapter(books: seq<Book>, bi: nat, ci: nat, ix: Index) returns (r: Index)
    requires bi < |books| && ci < |books[bi].chapters|
    ensures r == IndexVerses(ix, VersesFrom(books, bi, ci, 0))
  {
    r := ix;
    var vi := 0;
    var verses := books[bi].chapters[ci].verses;
    while vi < |verses|
      invariant 0 <= vi <= |verses|
      invariant IndexVerses(r, VersesFrom(books, bi, ci, vi)) == IndexVerses(ix, VersesFrom(books, bi, ci, 0))
    {
      var words := Tokenize(verses[vi].text);
      r := IndexVerse(r, words, Pos(bi, ci, vi));
      vi := vi + 1;
    }
  }

  /** `book.chapters.forEach((chapter, chapterIndex) => ...)`. */
  method IndexBook(books: seq<Book>, bi: nat, ix: Index) returns (r: Index)
    requires bi < |books|
    ensures r == IndexVerses(ix, ChaptersFrom(books, bi, 0))
  {
    r := ix;
    var ci := 0;
    while ci < |books[bi].chapters|
      invariant 0 <= ci <= |books[bi].chapters|
      invariant IndexVerses(r, ChaptersFrom(books, bi, ci)) == IndexVerses(ix, ChaptersFrom(books, bi, 0))
    {
      IndexVersesAppend(r, VersesFrom(books, bi, ci, 0), ChaptersFrom(books, bi, ci + 1));
      r := IndexChapter(books, bi, ci, r);
      ci := ci + 1;
    }
  }

  /** `buildSearchIndex` on loaded data, without its memo (which the engine holds). */
  method BuildSearchIndex(books: seq<Book>) returns (r: Index)
    ensures r == IndexOf(books)
  {
    r := EmptyIndex;
    var bi := 0;
    while bi < |books|
      invariant 0 <= bi <= |books|
      invariant IndexVerses(r, BooksFrom(books, bi)) == IndexOf(books)
    {
      IndexVersesAppend(r, ChaptersFrom(books, bi, 0), BooksFrom(books, bi + 1));
      r := IndexBook(books, bi, r);
      bi := bi + 1;
    }
  }

  // ---------------------------------------------------------------- postings

  function Count(ws: seq<string>, w: string): nat {
    if ws == [] then 0 else (if ws[0] == w then 1 else 0) + Count(ws[1..], w)
  }

  function Repeat(p: Pos, n: nat): seq<Pos> {
    if n == 0 then [] else [p] + Repeat(p, n - 1)
  }

  /** Each position of `es`, repeated `weight` of its verse times, in order. */
  function ExpandBy(es: seq<Located>, weight: Located -> nat): seq<Pos> {
    if es == [] then [] else Repeat(es[0].pos, weight(es[0])) + ExpandBy(es[1..], weight)
  }

  /** Reference definition of a position list: each verse of the traversal,
      once per occurrence of the token among the verse's tokens. */
  function Occurrences(es: seq<Located>, w: string): seq<Pos> {
    ExpandBy(es, (e: Located) => Count(Tokenize(e.verse.text), w))
  }

  lemma OccurrencesCons(es: seq<Located>, w: string)
    requires es != []
    ensures Occurrences(es, w) == Repeat(es[0].pos, Count(Tokenize(es[0].verse.text), w)) + Occurrences(es[1..], w)
  {
  }

  lemma {:induction false} IndexWordsPostings(ix: Index, ws: seq<string>, p: Pos, w: string)
    ensures PostingsOf(IndexWords(ix, ws, p), w) == PostingsOf(ix, w) + Repeat(p, Count(ws, w))
    decreases |ws|
  {
    if ws != [] {
      IndexWordsPostings(AddWord(ix, ws[0], p), ws[1..], p, w);
      if ws[0] == w {
        assert Repeat(p, Count(ws, w)) == [p] + Repeat(p, Count(ws[1..], w));
      }
    }
  }

  lemma {:induction false} IndexVersesPostings(ix: Index, es: seq<Located>, w: string)
    ensures PostingsOf(IndexVerses(ix, es), w) == PostingsOf(ix, w) + Occurrences(es, w)
    decreases |es|
  {
    if es != [] {
      var ws := Tokenize(es[0].verse.text);
      var next := IndexWords(ix, ws, es[0].pos);
      assert IndexVerses(ix, es) == IndexVerses(next, es[1..]);
      IndexWordsPostings(ix, ws, es[0].pos, w);
      IndexVersesPostings(next, es[1..], w);
      OccurrencesCons(es, w);
      Regroup(PostingsOf(ix, w), Repeat(es[0].pos, Count(ws, w)), Occurrences(es[1..], w),
        PostingsOf(IndexVerses(next, es[1..]), w), Occurrences(es, w));
    }
  }

  /** The regrouping step of `IndexVersesPostings`. */
  lemma Regroup(before: seq<Pos>, run: seq<Pos>, rest: seq<Pos>, after: seq<Pos>, total: seq<Pos>)
    requires after == (before + run) + rest && total == run + rest
    ensures after == before + total
  {
  }

  /** The token index's position list for `w` is exactly the reference list. */
  lemma PostingsAreOccurrences(books: seq<Book>, w: string)
    ensures PostingsOf(IndexOf(books), w) == Occurrences(AllVerses(books), w)
  {
    IndexVersesPostings(EmptyIndex, AllVerses(books), w);
  }

  lemma {:induction false} CountPositive(ws: seq<string>, w: string)
    ensures Count(ws, w) > 0 <==> w in ws
    decreases |ws|
  {
    if ws != [] {
      CountPositive(ws[1..], w);
      assert ws == [ws[0]] + ws[1..];
    }
  }

  lemma {:induction false} RepeatFacts(p: Pos, n: nat)
    ensures |Repeat(p, n)| == n && forall i :: 0 <= i < n ==> Repeat(p, n)[i] == p
  {
    if n > 0 {
      RepeatFacts(p, n - 1);
    }
  }

  lemma {:induction false} ExpandSound(es: seq<Located>, weight: Located -> nat, q: Pos)
    requires q in ExpandBy(es, weight)
    ensures exists i :: 0 <= i < |es| && es[i].pos == q && weight(es[i]) > 0
    decreases |es|
  {
    RepeatFacts(es[0].pos, weight(es[0]));
    if q !in Repeat(es[0].pos, weight(es[0])) {
      ExpandSound(es[1..], weight, q);
      var i :| 0 <= i < |es[1..]| && es[1..][i].pos == q && weight(es[1..][i]) > 0;
      assert es[i + 1] == es[1..][i];
    }
  }

  lemma {:induction false} ExpandComplete(es: seq<Located>, weight: Located -> nat, i: nat)
    requires i < |es| && weight(es[i]) > 0
    ensures es[i].pos in ExpandBy(es, weight)
    decreases |es|
  {
    RepeatFacts(es[0].pos, weight(es[0]));
    if i == 0 {
      assert Repeat(es[0].pos, weight(es[0]))[0] == es[0].pos;
    } else {
      assert es[1..][i - 1] == es[i];
      ExpandComplete(es[1..], weight, i - 1);
    }
  }

  /** Non-decreasing in corpus order. */
  predicate NonDecreasing(ps: seq<Pos>) {
    forall i, j :: 0 <= i < j < |ps| ==> PosLe(ps[i], ps[j])
  }

  lemma OrderedTail(es: seq<Located>)
    requires es != [] && Ordered(es)
    ensures Ordered(es[1..])
  {
    forall i, j | 0 <= i < j < |es[1..]| ensures PosLt(es[1..][i].pos, es[1..][j].pos) {
      assert es[1..][i] == es[i + 1] && es[1..][j] == es[j + 1];
    }
  }

  /** A run of one position before a list of later positions stays non-decreasing. */
  lemma RepeatBefore(p: Pos, n: nat, tail: seq<Pos>)
    requires NonDecreasing(tail) && forall j :: 0 <= j < |tail| ==> PosLt(p, tail[j])
    ensures NonDecreasing(Repeat(p, n) + tail)
  {
    var head := Repeat(p, n);
    RepeatFacts(p, n);
    var all := head + tail;
    forall i, j | 0 <= i < j < |all| ensures PosLe(all[i], all[j]) {
      if j < |head| {
      } else if i >= |head| {
        assert all[i] == tail[i - |head|] && all[j] == tail[j - |head|];
      } else {
        assert all[i] == p && all[j] == tail[j - |head|];
      }
    }
  }

  lemma {:induction false} ExpandOrdered(es: seq<Located>, weight: Located -> nat)
    requires Ordered(es)
    ensures NonDecreasing(ExpandBy(es, weight))
    decreases |es|
  {
    if es != [] {
      var tail := ExpandBy(es[1..], weight);
      OrderedTail(es);
      ExpandOrdered(es[1..], weight);
      forall j | 0 <= j < |tail| ensures PosLt(es[0].pos, tail[j]) {
        ExpandSound(es[1..], weight, tail[j]);
        var i :| 0 <= i < |es[1..]| && es[1..][i].pos == tail[j] && weight(es[1..][i]) > 0;
        assert es[1..][i] == es[i + 1];
      }
      RepeatBefore(es[0].pos, weight(es[0]), tail);
    }
  }

  /** Every position listed for `w` is a verse of `es` having `w` as a token. */
  lemma OccurrencesSound(es: seq<Located>, w: string, q: Pos)
    requires q in Occurrences(es, w)
    ensures exists i :: 0 <= i < |es| && es[i].pos == q && w in Tokenize(es[i].verse.text)
  {
    var weight := (e: Located) => Count(Tokenize(e.verse.text), w);
    ExpandSound(es, weight, q);
    var i :| 0 <= i < |es| && es[i].pos == q && weight(es[i]) > 0;
    CountPositive(Tokenize(es[i].verse.text), w);
  }

  /** Every verse of `es` having `w` as a token is listed for `w`. */
  lemma OccurrencesComplete(es: seq<Located>, w: string, i: nat)
    requires i < |es| && w in Tokenize(es[i].verse.text)
    ensures es[i].pos in Occurrences(es, w)
  {
    var weight := (e: Located) => Count(Tokenize(e.verse.text), w);
    CountPositive(Tokenize(es[i].verse.text), w);
    ExpandComplete(es, weight, i);
  }

  /** Along an ordered traversal, the list for `w` is in corpus order. */
  lemma OccurrencesOrdered(es: seq<Located>, w: string)
    requires Ordered(es)
    ensures NonDecreasing(Occurrences(es, w))
  {
    ExpandOrdered(es, (e: Located) => Count(Tokenize(e.verse.text), w));
  }

  /** Every position under a token is a verse of the corpus whose tokens
      include it, and so whose lower-cased text contains it. */
  lemma IndexSound(books: seq<Book>, w: string, q: Pos)
    requires w in IndexOf(books).postings && q in IndexOf(books).postings[w]
    ensures ValidPos(books, q) && w in Tokenize(VerseAt(books, q).text)
    ensures Contains(Lower(VerseAt(books, q).text), w)
  {
    PostingsAreOccurrences(books, w);
    OccurrencesSound(AllVerses(books), w, q);
    AllVersesSoundOrdered(books);
    TokenFacts(VerseAt(books, q).text, w);
  }

  /** Every token of every verse is indexed with the verse's position. */
  lemma IndexComplete(books: seq<Book>, q: Pos, w: string)
    requires ValidPos(books, q) && w in Tokenize(VerseAt(books, q).text)
    ensures w in IndexOf(books).postings && q in IndexOf(books).postings[w]
  {
    AllVersesComplete(books, q);
    var es := AllVerses(books);
    var i :| 0 <= i < |es| && es[i] == Located(q, VerseAt(books, q));
    OccurrencesComplete(es, w, i);
    PostingsAreOccurrences(books, w);
  }

  /** Position lists follow corpus order. */
  lemma IndexOrdered(books: seq<Book>, w: string)
    requires w in IndexOf(books).postings
    ensures NonDecreasing(IndexOf(books).postings[w])
  {
    PostingsAreOccurrences(books, w);
    AllVersesSoundOrdered(books);
    OccurrencesOrdered(AllVerses(books), w);
  }

  // ---------------------------------------------------------------- keys and prefixes

  /** The key list is the key set of the token index, without repeats; every
      key is at least three characters long; every prefix key has 3 to 8
      characters and lists only indexed tokens that start with it; and every
      indexed token is listed under each of its prefixes of 3 to 8 characters. */
  ghost predicate KeysOk(ix: Index) {
    && (forall i, j :: 0 <= i < j < |ix.keys| ==> ix.keys[i] != ix.keys[j])
    && (forall k :: k in ix.postings <==> k in ix.keys)
    && (forall k :: k in ix.postings ==> |k| >= 3 && ix.postings[k] != [])
  }

  ghost predicate PrefixesSound(ix: Index) {
    forall k :: k in ix.prefixes ==>
      (3 <= |k| <= 8 && forall w :: w in ix.prefixes[k] ==> w in ix.postings && IsPrefixKey(w, k, 3))
  }

  ghost predicate PrefixesComplete(ix: Index) {
    forall w, k :: w in ix.postings && IsPrefixKey(w, k, 3) ==> k in ix.prefixes && w in ix.prefixes[k]
  }

  ghost predicate WellFormed(ix: Index) {
    KeysOk(ix) && PrefixesSound(ix) && PrefixesComplete(ix)
  }

  lemma AddWordKeys(ix: Index, word: string, p: Pos)
    requires KeysOk(ix) && |word| >= 3
    ensures KeysOk(AddWord(ix, word, p))
  {
    var r := AddWord(ix, word, p);
    if word !in ix.postings {
      forall i, j | 0 <= i < j < |r.keys| ensures r.keys[i] != r.keys[j] {
        if j == |ix.keys| {
          assert r.keys[i] == ix.keys[i];
        }
      }
    }
  }

  lemma AddWordPrefixesSound(ix: Index, word: string, p: Pos)
    requires PrefixesSound(ix)
    ensures PrefixesSound(AddWord(ix, word, p))
  {
    var r := AddWord(ix, word, p);
    PrefixesFromFacts(ix.prefixes, word, 3);
    forall k | k in r.prefixes
      ensures 3 <= |k| <= 8 && forall w :: w in r.prefixes[k] ==> w in r.postings && IsPrefixKey(w, k, 3)
    {
      assert r.prefixes[k] == (if k in ix.prefixes then ix.prefixes[k] else {}) + (if IsPrefixKey(word, k, 3) then {word} else {});
    }
  }

  lemma AddWordPrefixesComplete(ix: Index, word: string, p: Pos)
    requires PrefixesComplete(ix)
    ensures PrefixesComplete(AddWord(ix, word, p))
  {
    var r := AddWord(ix, word, p);
    PrefixesFromFacts(ix.prefixes, word, 3);
    forall w, k | w in r.postings && IsPrefixKey(w, k, 3) ensures k in r.prefixes && w in r.prefixes[k] {
      assert r.prefixes[k] == (if k in ix.prefixes then ix.prefixes[k] else {}) + (if IsPrefixKey(word, k, 3) then {word} else {});
    }
  }

  lemma AddWordWellFormed(ix: Index, word: string, p: Pos)
    requires WellFormed(ix) && |word| >= 3
    ensures WellFormed(AddWord(ix, word, p))
  {
    AddWordKeys(ix, word, p);
    AddWordPrefixesSound(ix, word, p);
    AddWordPrefixesComplete(ix, word, p);
  }

  lemma {:induction false} IndexWordsWellFormed(ix: Index, ws: seq<string>, p: Pos)
    requires WellFormed(ix) && forall i :: 0 <= i < |ws| ==> |ws[i]| >= 3
    ensures WellFormed(IndexWords(ix, ws, p))
    decreases |ws|
  {
    if ws != [] {
      AddWordWellFormed(ix, ws[0], p);
      IndexWordsWellFormed(AddWord(ix, ws[0], p), ws[1..], p);
    }
  }

  lemma {:induction false} IndexVersesWellFormed(ix: Index, es: seq<Located>)
    requires WellFormed(ix)
    ensures WellFormed(IndexVerses(ix, es))
    decreases |es|
  {
    if es != [] {
      var ws := Tokenize(es[0].verse.text);
      forall i | 0 <= i < |ws| ensures |ws[i]| >= 3 {
        TokenFacts(es[0].verse.text, ws[i]);
      }
      IndexWordsWellFormed(ix, ws, es[0].pos);
      IndexVersesWellFormed(IndexWords(ix, ws, es[0].pos), es[1..]);
    }
  }

  lemma IndexWellFormed(books: seq<Book>)
    ensures WellFormed(IndexOf(books))
  {
    IndexVersesWellFormed(EmptyIndex, AllVerses(books));
  }
}
