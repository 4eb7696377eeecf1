/** `searchVerses`: a keyword with a space in it is looked for as a phrase in
    every verse; a single word is looked up in the search index, widened to
    the index words that start with it or (for four letters or more) contain
    it. At most `ResultCap` distinct verses are collected, and the first
    `DisplayCap` of them are returned. */
module Search {
  import opened Wrappers
  import opened Text
  import opened Corpus
  import opened SearchIndex

  /** The scans stop once this many verses are collected. */
  const ResultCap := 100
  /** How many of the collected verses are returned. */
  const DisplayCap := 50
  /** The word expansion stops once this many index words are selected. */
  const WordCap := 20

  /** `keyword.toLowerCase().trim()`. */
  function Normalized(keyword: string): string {
    Trim(Lower(keyword))
  }

  // ---------------------------------------------------------------- phrase mode

  /** `results` and `uniqueVerses` of the phrase scan. */
  datatype PhraseScan = PhraseScan(results: seq<ResolvedVerse>, seen: set<string>)

  const NoPhraseHits := PhraseScan([], {})

  function KeyOf(v: ResolvedVerse): string {
    VerseKey(v.bookName, v.chapter, v.verse)
  }

  /** `verse.text.toLowerCase().includes(normalizedKeyword)`. */
  predicate PhraseHit(v: ResolvedVerse, kw: string) {
    Contains(Lower(v.text), kw)
  }

  /** One verse of the scan: a matching verse whose key is new is kept. */
  function PhraseStep(st: PhraseScan, v: ResolvedVerse, kw: string): PhraseScan {
    if PhraseHit(v, kw) && KeyOf(v) !in st.seen then PhraseScan(st.results + [v], st.seen + {KeyOf(v)})
    else st
  }

  /** The scan over `es`, which stops once `ResultCap` verses are kept. */
  function PhraseFrom(st: PhraseScan, es: seq<Located>, kw: string): PhraseScan
    decreases |es|
  {
    if es == [] || |st.results| >= ResultCap then st
    else PhraseFrom(PhraseStep(st, es[0].verse, kw), es[1..], kw)
  }

  /** The same scan without the cap. */
  function PhraseAll(st: PhraseScan, es: seq<Located>, kw: string): PhraseScan
    decreases |es|
  {
    if es == [] then st
    else PhraseAll(PhraseStep(st, es[0].verse, kw), es[1..], kw)
  }

  /** The verses the phrase scan collects over the whole corpus. */
  function PhraseResults(books: seq<Book>, kw: string): seq<ResolvedVerse> {
    PhraseFrom(NoPhraseHits, AllVerses(books), kw).results
  }

  lemma {:induction false} PhraseFromAppend(st: PhraseScan, a: seq<Located>, b: seq<Located>, kw: string)
    ensures PhraseFrom(st, a + b, kw) == PhraseFrom(PhraseFrom(st, a, kw), b, kw)
    decreases |a|
  {
    if a == [] {
      assert a + b == b;
    } else if |st.results| < ResultCap {
      assert (a + b)[1..] == a[1..] + b;
      PhraseFromAppend(PhraseStep(st, a[0].verse, kw), a[1..], b, kw);
    }
  }

  /** `seen` holds exactly the keys `ks`, and no key occurs twice in `ks`:
      a `uniqueVerses` set beside the list it guards. */
  ghost predicate Tracks(ks: seq<string>, seen: set<string>) {
    Distinct(ks) && forall k :: k in seen <==> k in ks
  }

  /** Appending a key that is not yet seen, and recording it, keeps the two in step. */
  lemma TracksKeep(ks: seq<string>, seen: set<string>, k: string)
    requires Tracks(ks, seen) && k !in seen
    ensures Tracks(ks + [k], seen + {k})
  {
    var ks' := ks + [k];
    forall i, j | 0 <= i < j < |ks'| ensures ks'[i] != ks'[j] {
      if j == |ks| {
        assert ks'[i] == ks[i] && ks[i] in ks;
      } else {
        assert ks'[i] == ks[i] && ks'[j] == ks[j];
      }
    }
    assert forall x :: x in ks' <==> x in ks || x == k;
  }

  function Keys(vs: seq<ResolvedVerse>): (r: seq<string>)
    ensures |r| == |vs| && forall i :: 0 <= i < |vs| ==> r[i] == KeyOf(vs[i])
  {
    seq(|vs|, i requires 0 <= i < |vs| => KeyOf(vs[i]))
  }

  /** No two verses with the same key, and `seen` holds exactly their keys. */
  ghost predicate PhraseGood(st: PhraseScan) {
    Tracks(Keys(st.results), st.seen)
  }

  lemma PhraseStepGood(st: PhraseScan, v: ResolvedVerse, kw: string)
    requires PhraseGood(st)
    ensures PhraseGood(PhraseStep(st, v, kw))
    ensures st.results <= PhraseStep(st, v, kw).results
  {
    if PhraseHit(v, kw) && KeyOf(v) !in st.seen {
      assert Keys(st.results + [v]) == Keys(st.results) + [KeyOf(v)];
      TracksKeep(Keys(st.results), st.seen, KeyOf(v));
    }
  }

  /** The uncapped scan keeps the invariant and only appends. */
  lemma {:induction false} PhraseAllGood(st: PhraseScan, es: seq<Located>, kw: string)
    requires PhraseGood(st)
    ensures PhraseGood(PhraseAll(st, es, kw)) && st.results <= PhraseAll(st, es, kw).results
    decreases |es|
  {
    if es != [] {
      PhraseStepGood(st, es[0].verse, kw);
      PhraseAllGood(PhraseStep(st, es[0].verse, kw), es[1..], kw);
    }
  }

  /** The uncapped scan keeps only matching verses drawn from `es`. */
  lemma {:induction false} PhraseAllSound(st: PhraseScan, es: seq<Located>, kw: string)
    ensures forall v :: v in PhraseAll(st, es, kw).results ==>
      v in st.results || (PhraseHit(v, kw) && exists j :: 0 <= j < |es| && es[j].verse == v)
    decreases |es|
  {
    if es != [] {
      var st' := PhraseStep(st, es[0].verse, kw);
      PhraseAllSound(st', es[1..], kw);
      forall v | v in PhraseAll(st, es, kw).results
        ensures v in st.results || (PhraseHit(v, kw) && exists j :: 0 <= j < |es| && es[j].verse == v)
      {
        if v !in st.results && v in st'.results {
          assert es[0].verse == v;
        } else if v !in st'.results {
          var j :| 0 <= j < |es[1..]| && es[1..][j].verse == v;
          assert es[j + 1].verse == v;
        }
      }
    }
  }

  /** The uncapped scan records the key of every matching verse of `es`. */
  lemma {:induction false} PhraseAllComplete(st: PhraseScan, es: seq<Located>, kw: string)
    ensures forall k :: k in st.seen ==> k in PhraseAll(st, es, kw).seen
    ensures forall j :: 0 <= j < |es| && PhraseHit(es[j].verse, kw) ==> KeyOf(es[j].verse) in PhraseAll(st, es, kw).seen
    decreases |es|
  {
    if es != [] {
      var st' := PhraseStep(st, es[0].verse, kw);
      PhraseAllComplete(st', es[1..], kw);
      forall j | 0 <= j < |es| && PhraseHit(es[j].verse, kw) ensures KeyOf(es[j].verse) in PhraseAll(st, es, kw).seen {
        if j > 0 {
          assert es[1..][j - 1] == es[j];
        }
      }
    }
  }

  /** The first `n` elements of `s`, or all of them. */
  function Take<T>(s: seq<T>, n: nat): (r: seq<T>)
    ensures r <= s && |r| == Min(|s|, n)
  {
    if |s| <= n then s else s[..n]
  }

  /** The capped scan returns the first `ResultCap` verses of the uncapped one. */
  lemma {:induction false} PhraseFromTakes(st: PhraseScan, es: seq<Located>, kw: string)
    requires PhraseGood(st) && |st.results| <= ResultCap
    ensures PhraseFrom(st, es, kw).results == Take(PhraseAll(st, es, kw).results, ResultCap)
    decreases |es|
  {
    PhraseAllGood(st, es, kw);
    if es != [] && |st.results| < ResultCap {
      var st' := PhraseStep(st, es[0].verse, kw);
      PhraseStepGood(st, es[0].verse, kw);
      PhraseFromTakes(st', es[1..], kw);
    }
  }

  /** The capped scan over any verse list: the first `ResultCap` verses of
      the uncapped scan, no key twice. */
  lemma ScanDistinct(es: seq<Located>, kw: string)
    ensures var rs := PhraseFrom(NoPhraseHits, es, kw).results;
      && rs == Take(PhraseAll(NoPhraseHits, es, kw).results, ResultCap)
      && forall i, j :: 0 <= i < j < |rs| ==> KeyOf(rs[i]) != KeyOf(rs[j])
  {
    var all := PhraseAll(NoPhraseHits, es, kw);
    var rs := PhraseFrom(NoPhraseHits, es, kw).results;
    PhraseFromTakes(NoPhraseHits, es, kw);
    PhraseAllGood(NoPhraseHits, es, kw);
    var ks := Keys(all.results);
    forall i, j | 0 <= i < j < |rs| ensures KeyOf(rs[i]) != KeyOf(rs[j]) {
      assert rs[i] == all.results[i] && rs[j] == all.results[j];
      assert ks[i] != ks[j];
    }
  }

  /** Every verse the capped scan keeps matches and comes from the list. */
  lemma ScanSound(es: seq<Located>, kw: string)
    ensures var rs := PhraseFrom(NoPhraseHits, es, kw).results;
      forall i :: 0 <= i < |rs| ==> PhraseHit(rs[i], kw) && exists j :: 0 <= j < |es| && es[j].verse == rs[i]
  {
    var all := PhraseAll(NoPhraseHits, es, kw);
    var rs := PhraseFrom(NoPhraseHits, es, kw).results;
    PhraseFromTakes(NoPhraseHits, es, kw);
    PhraseAllSound(NoPhraseHits, es, kw);
    forall i | 0 <= i < |rs| ensures PhraseHit(rs[i], kw) && exists j :: 0 <= j < |es| && es[j].verse == rs[i] {
      assert rs[i] == all.results[i];
      assert rs[i] in all.results;
    }
  }

  /** Below the cap, the key of every matching verse of the list is among the kept verses'. */
  lemma ScanComplete(es: seq<Located>, kw: string, j: nat)
    requires j < |es| && PhraseHit(es[j].verse, kw)
    requires |PhraseFrom(NoPhraseHits, es, kw).results| < ResultCap
    ensures var rs := PhraseFrom(NoPhraseHits, es, kw).results;
      exists i :: 0 <= i < |rs| && KeyOf(rs[i]) == KeyOf(es[j].verse)
  {
    var all := PhraseAll(NoPhraseHits, es, kw);
    var rs := PhraseFrom(NoPhraseHits, es, kw).results;
    PhraseFromTakes(NoPhraseHits, es, kw);
    PhraseAllGood(NoPhraseHits, es, kw);
    PhraseAllComplete(NoPhraseHits, es, kw);
    assert rs == all.results;
    var ks := Keys(all.results);
    assert KeyOf(es[j].verse) in ks;
    var i :| 0 <= i < |ks| && ks[i] == KeyOf(es[j].verse);
    assert KeyOf(rs[i]) == KeyOf(es[j].verse);
  }

  /** What the phrase scan promises: at most `ResultCap` verses, no key twice,
      each a verse of the corpus whose lowercased text contains the phrase,
      the first `ResultCap` of the uncapped scan, and, when fewer than
      `ResultCap` were kept, every matching verse of the corpus represented. */
  lemma PhraseResultsFacts(books: seq<Book>, kw: string)
    ensures var rs := PhraseResults(books, kw);
      && rs == Take(PhraseAll(NoPhraseHits, AllVerses(books), kw).results, ResultCap)
      && |rs| <= ResultCap
      && (forall i, j :: 0 <= i < j < |rs| ==> KeyOf(rs[i]) != KeyOf(rs[j]))
      && (forall i :: 0 <= i < |rs| ==> PhraseHit(rs[i], kw) && exists p :: ValidPos(books, p) && VerseAt(books, p) == rs[i])
      && (|rs| < ResultCap ==> forall p :: ValidPos(books, p) && PhraseHit(VerseAt(books, p), kw) ==>
            exists i :: 0 <= i < |rs| && KeyOf(rs[i]) == KeyOf(VerseAt(books, p)))
  {
    var es := AllVerses(books);
    var rs := PhraseResults(books, kw);
    ScanDistinct(es, kw);
    ScanSound(es, kw);
    AllVersesSoundOrdered(books);
    forall i | 0 <= i < |rs| ensures exists p :: ValidPos(books, p) && VerseAt(books, p) == rs[i] {
      var j :| 0 <= j < |es| && es[j].verse == rs[i];
      assert ValidPos(books, es[j].pos) && VerseAt(books, es[j].pos) == rs[i];
    }
    if |rs| < ResultCap {
      forall p | ValidPos(books, p) && PhraseHit(VerseAt(books, p), kw)
        ensures exists i :: 0 <= i < |rs| && KeyOf(rs[i]) == KeyOf(VerseAt(books, p))
      {
        AllVersesComplete(books, p);
        var j :| 0 <= j < |es| && es[j] == Located(p, VerseAt(books, p));
        ScanComplete(es, kw, j);
      }
    }
  }

  /** `for (const verse of chapter.verses)` of the phrase scan, with its `break`. */
  method PhraseChapter(books: seq<Book>, bi: nat, ci: nat, kw: string, st: PhraseScan) returns (r: PhraseScan)
    requires bi < |books| && ci < |books[bi].chapters| && |st.results| < ResultCap
    ensures r == PhraseFrom(st, VersesFrom(books, bi, ci, 0), kw)
  {
    r := st;
    var book := books[bi];
    var chapter := book.chapters[ci];
    var vi := 0;
    while vi < |chapter.verses|
      invariant 0 <= vi <= |chapter.verses| && |r.results| < ResultCap
      invariant PhraseFrom(r, VersesFrom(books, bi, ci, vi), kw) == PhraseFrom(st, VersesFrom(books, bi, ci, 0), kw)
    {
      var verse := chapter.verses[vi];
      if Contains(Lower(verse.text), kw) {
        var key := VerseKey(book.name, chapter.chapter, verse.verse);
        if key !in r.seen {
          r := PhraseScan(r.results + [ResolvedVerse(book.name, chapter.chapter, verse.verse, verse.text)], r.seen + {key});
          if |r.results| >= ResultCap {
            break;
          }
        }
      }
      vi := vi + 1;
    }
  }

  /** `for (const chapter of book.chapters)` of the phrase scan. */
  method PhraseBook(books: seq<Book>, bi: nat, kw: string, st: PhraseScan) returns (r: PhraseScan)
    requires bi < |books| && |st.results| < ResultCap
    ensures r == PhraseFrom(st, ChaptersFrom(books, bi, 0), kw)
  {
    r := st;
    var ci := 0;
    while ci < |books[bi].chapters|
      invariant 0 <= ci <= |books[bi].chapters| && |r.results| < ResultCap
      invariant PhraseFrom(r, ChaptersFrom(books, bi, ci), kw) == PhraseFrom(st, ChaptersFrom(books, bi, 0), kw)
    {
      PhraseFromAppend(r, VersesFrom(books, bi, ci, 0), ChaptersFrom(books, bi, ci + 1), kw);
      r := PhraseChapter(books, bi, ci, kw, r);
      if |r.results| >= ResultCap {
        break;
      }
      ci := ci + 1;
    }
  }

  /** `for (const book of bibleData.books)` of the phrase scan. */
  method PhraseScanCorpus(books: seq<Book>, kw: string) returns (results: seq<ResolvedVerse>)
    ensures results == PhraseResults(books, kw)
  {
    var r := NoPhraseHits;
    var bi := 0;
    while bi < |books|
      invariant 0 <= bi <= |books| && |r.results| < ResultCap
      invariant PhraseFrom(r, BooksFrom(books, bi), kw) == PhraseFrom(NoPhraseHits, AllVerses(books), kw)
    {
      PhraseFromAppend(r, ChaptersFrom(books, bi, 0), BooksFrom(books, bi + 1), kw);
      r := PhraseBook(books, bi, kw, r);
      if |r.results| >= ResultCap {
        break;
      }
      bi := bi + 1;
    }
    results := r.results;
  }

  // ---------------------------------------------------------------- word mode

  /** `word.startsWith(kw) || (kw.length >= 4 && word.includes(kw))`. */
  predicate Expands(word: string, kw: string) {
    StartsWith(word, kw) || (|kw| >= 4 && Contains(word, kw))
  }

  lemma ExpandsContains(word: string, kw: string)
    requires Expands(word, kw)
    ensures Contains(word, kw)
  {
    if StartsWith(word, kw) {
      StartsWithContains(word, kw);
    }
  }

  /** `matchingWords.add(word)` on a set that iterates in insertion order. */
  function Insert(ms: seq<string>, w: string): seq<string> {
    if w in ms then ms else ms + [w]
  }

  /** `for (const word in index)` over `keys`, with the `break` once `WordCap` words are selected. */
  function ExpandFrom(ms: seq<string>, keys: seq<string>, kw: string): seq<string>
    decreases |keys|
  {
    if keys == [] then ms
    else if Expands(keys[0], kw) then
      var ms' := Insert(ms, keys[0]);
      if |ms'| >= WordCap then ms' else ExpandFrom(ms', keys[1..], kw)
    else ExpandFrom(ms, keys[1..], kw)
  }

  /** `matchingWords`: the keyword when it is an index word, then the
      expansion, which runs when nothing is selected yet or the keyword has
      three characters or more. */
  function MatchingWords(ix: Index, kw: string): seq<string> {
    var exact := if kw in ix.postings then [kw] else [];
    if exact == [] || |kw| >= 3 then ExpandFrom(exact, ix.keys, kw) else exact
  }

  predicate Distinct<T(==)>(s: seq<T>) {
    forall i, j :: 0 <= i < j < |s| ==> s[i] != s[j]
  }

  lemma {:induction false} ExpandFromFacts(ms: seq<string>, keys: seq<string>, kw: string)
    requires Distinct(ms) && |ms| < WordCap
    ensures var r := ExpandFrom(ms, keys, kw);
      && ms <= r && Distinct(r) && |r| <= WordCap
      && (forall w :: w in r ==> w in ms || (w in keys && Expands(w, kw)))
      && (|r| < WordCap ==> forall k :: k in keys && Expands(k, kw) ==> k in r)
    decreases |keys|
  {
    if keys != [] {
      var rest := keys[1..];
      assert forall k :: k in keys <==> k == keys[0] || k in rest;
      if Expands(keys[0], kw) {
        var ms' := Insert(ms, keys[0]);
        if |ms'| < WordCap {
          ExpandFromFacts(ms', rest, kw);
          var r := ExpandFrom(ms', rest, kw);
          var i :| 0 <= i < |ms'| && ms'[i] == keys[0];
          assert r[i] == keys[0];
        }
      } else {
        ExpandFromFacts(ms, rest, kw);
      }
    }
  }

  /** The selected words: at most `WordCap`, none twice, each an index word
      that expands the keyword, the keyword itself first when it is an index
      word, and, when fewer than `WordCap` were selected, every index word
      that expands the keyword. The expansion always runs, because every
      index word has at least three characters. */
  lemma MatchingWordsFacts(ix: Index, kw: string)
    requires KeysOk(ix)
    ensures var ms := MatchingWords(ix, kw);
      && ms == ExpandFrom(if kw in ix.postings then [kw] else [], ix.keys, kw)
      && |ms| <= WordCap && Distinct(ms)
      && (forall w :: w in ms ==> w in ix.postings && Expands(w, kw))
      && (kw in ix.postings ==> ms != [] && ms[0] == kw)
      && (|ms| < WordCap ==> forall w :: w in ix.postings && Expands(w, kw) ==> w in ms)
  {
    var exact := if kw in ix.postings then [kw] else [];
    ExpandFromFacts(exact, ix.keys, kw);
    if kw in ix.postings {
      assert StartsWith(kw, kw);
    }
  }

  /** The key `${pos.bookIndex}-${pos.chapterIndex}-${pos.verseIndex}`. */
  function PosKey(p: Pos): string {
    NatToString(p.bookIndex) + "-" + NatToString(p.chapterIndex) + "-" + NatToString(p.verseIndex)
  }

  /** A digit string followed by a dash splits in one way only. */
  lemma SplitAtDash(a: string, b: string, c: string, d: string)
    requires AllDigits(a) && AllDigits(c) && a + "-" + b == c + "-" + d
    ensures a == c && b == d
  {
    var s := a + "-" + b;
    assert s[|a|] == '-' && s[|c|] == '-';
    assert forall i :: 0 <= i < |a| ==> s[i] == a[i];
    assert forall i :: 0 <= i < |c| ==> s[i] == c[i];
    assert |a| == |c|;
    assert a == s[..|a|] && c == s[..|c|];
    assert b == s[|a| + 1..] && d == s[|c| + 1..];
  }

  /** Distinct positions have distinct keys. */
  lemma PosKeyInjective(p: Pos, q: Pos)
    requires PosKey(p) == PosKey(q)
    ensures p == q
  {
    var b1, c1, v1 := NatToString(p.bookIndex), NatToString(p.chapterIndex), NatToString(p.verseIndex);
    var b2, c2, v2 := NatToString(q.bookIndex), NatToString(q.chapterIndex), NatToString(q.verseIndex);
    assert PosKey(p) == b1 + "-" + (c1 + "-" + v1);
    assert PosKey(q) == b2 + "-" + (c2 + "-" + v2);
    SplitAtDash(b1, c1 + "-" + v1, b2, c2 + "-" + v2);
    SplitAtDash(c1, v1, c2, v2);
    NatToStringInjective(p.bookIndex, q.bookIndex);
    NatToStringInjective(p.chapterIndex, q.chapterIndex);
    NatToStringInjective(p.verseIndex, q.verseIndex);
  }

  /** `results`, as the positions they were read from, and `uniqueVerses` of the word collection. */
  datatype Collected = Collected(hits: seq<Pos>, seen: set<string>)

  const NoWordHits := Collected([], {})

  /** One position: kept when its key is new. */
  function CollectStep(st: Collected, p: Pos): Collected {
    if PosKey(p) in st.seen then st else Collected(st.hits + [p], st.seen + {PosKey(p)})
  }

  /** The collection over `ps`, which stops once `ResultCap` positions are kept. */
  function CollectFrom(st: Collected, ps: seq<Pos>): Collected
    decreases |ps|
  {
    if ps == [] || |st.hits| >= ResultCap then st
    else CollectFrom(CollectStep(st, ps[0]), ps[1..])
  }

  /** The same collection without the cap. */
  function CollectAll(st: Collected, ps: seq<Pos>): Collected
    decreases |ps|
  {
    if ps == [] then st
    else CollectAll(CollectStep(st, ps[0]), ps[1..])
  }

  /** The position lists of the words `ws`, one after another. */
  function PostingsFor(ix: Index, ws: seq<string>): seq<Pos> {
    if ws == [] then [] else PostingsOf(ix, ws[0]) + PostingsFor(ix, ws[1..])
  }

  /** The positions the word search collects. */
  function WordHits(ix: Index, kw: string): seq<Pos> {
    CollectFrom(NoWordHits, PostingsFor(ix, MatchingWords(ix, kw))).hits
  }

  lemma {:induction false} CollectFromAppend(st: Collected, a: seq<Pos>, b: seq<Pos>)
    ensures CollectFrom(st, a + b) == CollectFrom(CollectFrom(st, a), b)
    decreases |a|
  {
    if a == [] {
      assert a + b == b;
    } else if |st.hits| < ResultCap {
      assert (a + b)[1..] == a[1..] + b;
      CollectFromAppend(CollectStep(st, a[0]), a[1..], b);
    }
  }

  function PosKeys(ps: seq<Pos>): (r: seq<string>)
    ensures |r| == |ps| && forall i :: 0 <= i < |ps| ==> r[i] == PosKey(ps[i])
  {
    seq(|ps|, i requires 0 <= i < |ps| => PosKey(ps[i]))
  }

  /** No position twice, and `seen` holds exactly the keys of the kept positions. */
  ghost predicate CollectGood(st: Collected) {
    Distinct(st.hits) && Tracks(PosKeys(st.hits), st.seen)
  }

  /** Keeping a position whose key is new keeps the invariant. */
  lemma CollectKeepGood(st: Collected, p: Pos)
    requires CollectGood(st) && PosKey(p) !in st.seen
    ensures CollectGood(Collected(st.hits + [p], st.seen + {PosKey(p)}))
  {
    var ks := PosKeys(st.hits);
    assert PosKeys(st.hits + [p]) == ks + [PosKey(p)];
    TracksKeep(ks, st.seen, PosKey(p));
    var hs := st.hits + [p];
    forall i, j | 0 <= i < j < |hs| ensures hs[i] != hs[j] {
      if j == |st.hits| {
        assert hs[i] == st.hits[i] && ks[i] in ks;
      } else {
        assert hs[i] == st.hits[i] && hs[j] == st.hits[j];
      }
    }
  }

  lemma CollectStepGood(st: Collected, p: Pos)
    requires CollectGood(st)
    ensures CollectGood(CollectStep(st, p)) && st.hits <= CollectStep(st, p).hits
    ensures PosKey(p) in CollectStep(st, p).seen && st.seen <= CollectStep(st, p).seen
  {
    if PosKey(p) !in st.seen {
      CollectKeepGood(st, p);
    }
  }

  /** The uncapped collection keeps the invariant, only appends, and records every position of `ps`. */
  lemma {:induction false} CollectAllGood(st: Collected, ps: seq<Pos>)
    requires CollectGood(st)
    ensures var r := CollectAll(st, ps);
      && CollectGood(r) && st.hits <= r.hits && st.seen <= r.seen
      && forall j :: 0 <= j < |ps| ==> PosKey(ps[j]) in r.seen
    decreases |ps|
  {
    if ps != [] {
      CollectStepGood(st, ps[0]);
      CollectAllGood(CollectStep(st, ps[0]), ps[1..]);
      var r := CollectAll(st, ps);
      forall j | 0 <= j < |ps| ensures PosKey(ps[j]) in r.seen {
        if j > 0 {
          assert ps[1..][j - 1] == ps[j];
        }
      }
    }
  }

  /** The uncapped collection keeps only positions drawn from `ps`. */
  lemma {:induction false} CollectAllSound(st: Collected, ps: seq<Pos>)
    ensures forall q :: q in CollectAll(st, ps).hits ==> q in st.hits || q in ps
    decreases |ps|
  {
    if ps != [] {
      CollectAllSound(CollectStep(st, ps[0]), ps[1..]);
      assert forall q :: q in ps[1..] ==> q in ps;
    }
  }

  /** The capped collection returns the first `ResultCap` positions of the uncapped one. */
  lemma {:induction false} CollectFromTakes(st: Collected, ps: seq<Pos>)
    requires CollectGood(st) && |st.hits| <= ResultCap
    ensures CollectFrom(st, ps).hits == Take(CollectAll(st, ps).hits, ResultCap)
    decreases |ps|
  {
    CollectAllGood(st, ps);
    if ps != [] && |st.hits| < ResultCap {
      CollectStepGood(st, ps[0]);
      CollectFromTakes(CollectStep(st, ps[0]), ps[1..]);
    }
  }

  lemma {:induction false} PostingsForMembers(ix: Index, ws: seq<string>)
    ensures forall q :: q in PostingsFor(ix, ws) <==> exists w :: w in ws && q in PostingsOf(ix, w)
  {
    if ws != [] {
      PostingsForMembers(ix, ws[1..]);
      assert forall w :: w in ws <==> w == ws[0] || w in ws[1..];
    }
  }

  /** Every position of the index of a corpus is a position of that corpus. */
  lemma IndexPositionsValid(books: seq<Book>, ws: seq<string>)
    ensures forall q :: q in PostingsFor(IndexOf(books), ws) ==> ValidPos(books, q)
  {
    PostingsForMembers(IndexOf(books), ws);
    forall q | q in PostingsFor(IndexOf(books), ws) ensures ValidPos(books, q) {
      var w :| w in ws && q in PostingsOf(IndexOf(books), w);
      IndexSound(books, w, q);
    }
  }

  /** Some token of the verse at `p` expands the keyword. */
  predicate WordMatch(books: seq<Book>, p: Pos, kw: string)
    requires ValidPos(books, p)
  {
    exists t :: t in Tokenize(VerseAt(books, p).text) && Expands(t, kw)
  }

  /** A verse a word search selects contains the keyword in its lowercased text. */
  lemma WordMatchContains(books: seq<Book>, p: Pos, kw: string)
    requires ValidPos(books, p) && WordMatch(books, p, kw)
    ensures PhraseHit(VerseAt(books, p), kw)
  {
    var text := VerseAt(books, p).text;
    var t :| t in Tokenize(text) && Expands(t, kw);
    TokenFacts(text, t);
    ExpandsContains(t, kw);
    ContainsTrans(Lower(text), t, kw);
  }

  /** The collection over the position lists of `ws`: at most `ResultCap`
      positions, none twice, the first `ResultCap` of the uncapped
      collection, each from the list of one of the words. */
  lemma CollectWordsFacts(ix: Index, ws: seq<string>)
    ensures var ps := PostingsFor(ix, ws);
      var hs := CollectFrom(NoWordHits, ps).hits;
      && hs == Take(CollectAll(NoWordHits, ps).hits, ResultCap)
      && |hs| <= ResultCap && Distinct(hs)
      && forall i :: 0 <= i < |hs| ==> exists w :: w in ws && hs[i] in PostingsOf(ix, w)
  {
    var ps := PostingsFor(ix, ws);
    var all := CollectAll(NoWordHits, ps);
    var hs := CollectFrom(NoWordHits, ps).hits;
    PostingsForMembers(ix, ws);
    CollectFromTakes(NoWordHits, ps);
    CollectAllGood(NoWordHits, ps);
    CollectAllSound(NoWordHits, ps);
    forall i | 0 <= i < |hs| ensures exists w :: w in ws && hs[i] in PostingsOf(ix, w) {
      assert hs[i] == all.hits[i];
      assert hs[i] in all.hits;
    }
  }

  /** At most `ResultCap` positions, none twice, the first `ResultCap` of the
      uncapped collection, each a verse of the corpus with a token that
      expands the keyword. */
  lemma WordHitsSound(books: seq<Book>, kw: string)
    ensures var ix := IndexOf(books);
      var hs := WordHits(ix, kw);
      && hs == Take(CollectAll(NoWordHits, PostingsFor(ix, MatchingWords(ix, kw))).hits, ResultCap)
      && |hs| <= ResultCap && Distinct(hs)
      && forall i :: 0 <= i < |hs| ==> ValidPos(books, hs[i]) && WordMatch(books, hs[i], kw)
  {
    CollectWordsFacts(IndexOf(books), MatchingWords(IndexOf(books), kw));
    WordHitsValid(books, kw);
  }

  /** Each word hit is a verse of the corpus with a token that expands the keyword. */
  lemma WordHitsValid(books: seq<Book>, kw: string)
    ensures var hs := WordHits(IndexOf(books), kw);
      forall i :: 0 <= i < |hs| ==> ValidPos(books, hs[i]) && WordMatch(books, hs[i], kw)
  {
    var ix := IndexOf(books);
    var ms := MatchingWords(ix, kw);
    var hs := WordHits(ix, kw);
    CollectWordsFacts(ix, ms);
    forall i | 0 <= i < |hs| ensures ValidPos(books, hs[i]) && WordMatch(books, hs[i], kw) {
      var w :| w in ms && hs[i] in PostingsOf(ix, w);
      MatchingPostingValid(books, kw, w, hs[i]);
    }
  }

  /** A position listed under a word that expands the keyword is a verse of
      the corpus with a token that expands the keyword. */
  lemma MatchingPostingValid(books: seq<Book>, kw: string, w: string, q: Pos)
    requires w in MatchingWords(IndexOf(books), kw) && q in PostingsOf(IndexOf(books), w)
    ensures ValidPos(books, q) && WordMatch(books, q, kw)
  {
    var ix := IndexOf(books);
    IndexWellFormed(books);
    MatchingWordsFacts(ix, kw);
    IndexSound(books, w, q);
    assert w in Tokenize(VerseAt(books, q).text) && Expands(w, kw);
  }

  /** Below the cap, the collection keeps every position of the list. */
  lemma CollectComplete(ps: seq<Pos>, p: Pos)
    requires p in ps && |CollectFrom(NoWordHits, ps).hits| < ResultCap
    ensures p in CollectFrom(NoWordHits, ps).hits
  {
    var all := CollectAll(NoWordHits, ps);
    CollectFromTakes(NoWordHits, ps);
    CollectAllGood(NoWordHits, ps);
    assert CollectFrom(NoWordHits, ps).hits == all.hits;
    var j :| 0 <= j < |ps| && ps[j] == p;
    var ks := PosKeys(all.hits);
    assert PosKey(p) in ks;
    var i :| 0 <= i < |ks| && ks[i] == PosKey(p);
    PosKeyInjective(all.hits[i], p);
  }

  /** When neither cap was reached, every verse of the corpus with a token
      that expands the keyword is among the positions collected. */
  lemma WordHitsComplete(books: seq<Book>, kw: string, p: Pos)
    requires ValidPos(books, p) && WordMatch(books, p, kw)
    requires |WordHits(IndexOf(books), kw)| < ResultCap && |MatchingWords(IndexOf(books), kw)| < WordCap
    ensures p in WordHits(IndexOf(books), kw)
  {
    var ix := IndexOf(books);
    var ms := MatchingWords(ix, kw);
    var ps := PostingsFor(ix, ms);
    IndexWellFormed(books);
    MatchingWordsFacts(ix, kw);
    PostingsForMembers(ix, ms);
    var t :| t in Tokenize(VerseAt(books, p).text) && Expands(t, kw);
    IndexComplete(books, p, t);
    assert t in ms;
    assert p in ps;
    CollectComplete(ps, p);
  }

  /** The search results as `ParsedVerse` records. */
  function Resolve(books: seq<Book>, ps: seq<Pos>): seq<ResolvedVerse>
    requires forall i :: 0 <= i < |ps| ==> ValidPos(books, ps[i])
  {
    seq(|ps|, i requires 0 <= i < |ps| => VerseAt(books, ps[i]))
  }

  // ---------------------------------------------------------------- the result

  /** The verses a search collects, before the display limit. */
  function Found(books: seq<Book>, kw: string): seq<ResolvedVerse> {
    if ' ' in kw then PhraseResults(books, kw)
    else
      WordHitsValid(books, kw);
      Resolve(books, WordHits(IndexOf(books), kw))
  }

  /** `Search results for "${keyword}" (${n > 50 ? '50 of ' + n : n} verses)`. */
  function SearchLabel(keyword: string, n: nat): string {
    "Search results for \"" + keyword + "\" ("
      + (if n > DisplayCap then "50 of " + NatToString(n) else NatToString(n)) + " verses)"
  }

  /** `searchVerses` on loaded data, with the index of that data. */
  function SearchSpec(data: BibleData, keyword: string): (r: Result<SearchResult, Error>)
    ensures r.Err? ==> r.error == EmptySearch || r.error == NoResults
    ensures r == Err(EmptySearch) <==> Normalized(keyword) == []
  {
    var kw := Normalized(keyword);
    if kw == [] then Err(EmptySearch)
    else
      var found := Found(data.books, kw);
      if found == [] then Err(NoResults)
      else
        var shown := Take(found, DisplayCap);
        Ok(SearchResult(SearchLabel(keyword, |found|), shown, JoinTexts(shown), data.version))
  }

  /** A successful search shows between one and `DisplayCap` verses, the
      first of those collected, each a verse of the corpus whose lowercased
      text contains the normalised keyword; its label counts every verse
      collected, and says "50 of" exactly when some were not shown. */
  lemma SearchShowsMatches(data: BibleData, keyword: string)
    ensures var r := SearchSpec(data, keyword);
      var kw := Normalized(keyword);
      r.Ok? ==>
        && 1 <= |r.value.verses| <= DisplayCap
        && r.value.verses <= Found(data.books, kw)
        && |r.value.verses| == Min(|Found(data.books, kw)|, DisplayCap)
        && r.value.reference == SearchLabel(keyword, |Found(data.books, kw)|)
        && (|r.value.verses| < |Found(data.books, kw)| <==> |Found(data.books, kw)| > DisplayCap)
        && r.value.text == JoinTexts(r.value.verses)
        && r.value.translationId == data.version
        && forall v :: v in r.value.verses ==>
             PhraseHit(v, kw) && exists p :: ValidPos(data.books, p) && VerseAt(data.books, p) == v
  {
    var kw := Normalized(keyword);
    var r := SearchSpec(data, keyword);
    if r.Ok? {
      var found := Found(data.books, kw);
      forall v | v in r.value.verses
        ensures PhraseHit(v, kw) && exists p :: ValidPos(data.books, p) && VerseAt(data.books, p) == v
      {
        var i :| 0 <= i < |r.value.verses| && r.value.verses[i] == v;
        assert found[i] == v;
        if ' ' in kw {
          PhraseResultsFacts(data.books, kw);
        } else {
          var hs := WordHits(IndexOf(data.books), kw);
          WordHitsSound(data.books, kw);
          WordMatchContains(data.books, hs[i], kw);
        }
      }
    }
  }

  /** A non-empty keyword finds nothing exactly when no verse of the corpus
      contains the phrase (phrase mode) or no token of any verse expands the
      keyword (word mode). */
  lemma SearchNoResults(data: BibleData, keyword: string)
    requires Normalized(keyword) != []
    ensures var kw := Normalized(keyword);
      SearchSpec(data, keyword) == Err(NoResults) <==>
        if ' ' in kw then forall p :: ValidPos(data.books, p) ==> !PhraseHit(VerseAt(data.books, p), kw)
        else forall p :: ValidPos(data.books, p) ==> !WordMatch(data.books, p, kw)
  {
    var kw := Normalized(keyword);
    assert SearchSpec(data, keyword) == Err(NoResults) <==> Found(data.books, kw) == [];
    if ' ' in kw {
      PhraseNone(data.books, kw);
    } else {
      WordNone(data.books, kw);
    }
  }

  /** Phrase mode finds nothing exactly when no verse contains the phrase. */
  lemma PhraseNone(books: seq<Book>, kw: string)
    ensures PhraseResults(books, kw) == [] <==> forall p :: ValidPos(books, p) ==> !PhraseHit(VerseAt(books, p), kw)
  {
    PhraseResultsFacts(books, kw);
    var rs := PhraseResults(books, kw);
    if rs != [] {
      var v := rs[0];
      var p :| ValidPos(books, p) && VerseAt(books, p) == v;
      assert PhraseHit(VerseAt(books, p), kw);
    }
  }

  /** Word mode finds nothing exactly when no token of any verse expands the keyword. */
  lemma WordNone(books: seq<Book>, kw: string)
    ensures WordHits(IndexOf(books), kw) == [] <==> forall p :: ValidPos(books, p) ==> !WordMatch(books, p, kw)
  {
    WordHitsValid(books, kw);
    var hs := WordHits(IndexOf(books), kw);
    if hs != [] {
      assert WordMatch(books, hs[0], kw);
    } else {
      forall p | ValidPos(books, p) ensures !WordMatch(books, p, kw) {
        if WordMatch(books, p, kw) {
          WordHitsNonEmpty(books, kw, p);
        }
      }
    }
  }

  lemma CollectFirst(ps: seq<Pos>)
    requires ps != []
    ensures CollectFrom(NoWordHits, ps).hits != []
  {
    var st := CollectStep(NoWordHits, ps[0]);
    CollectFromTakes(NoWordHits, ps);
    CollectStepGood(NoWordHits, ps[0]);
    CollectAllGood(st, ps[1..]);
    assert CollectAll(NoWordHits, ps) == CollectAll(st, ps[1..]);
  }

  /** An index word that expands the keyword leaves some position to collect. */
  lemma MatchingPostingsNonEmpty(ix: Index, kw: string, t: string)
    requires KeysOk(ix) && t in ix.postings && Expands(t, kw)
    ensures PostingsFor(ix, MatchingWords(ix, kw)) != []
  {
    var ms := MatchingWords(ix, kw);
    MatchingWordsFacts(ix, kw);
    assert ms != [];
    assert ms[0] in ix.postings;
  }

  /** A verse with a token that expands the keyword leaves the word search non-empty. */
  lemma WordHitsNonEmpty(books: seq<Book>, kw: string, p: Pos)
    requires ValidPos(books, p) && WordMatch(books, p, kw)
    ensures WordHits(IndexOf(books), kw) != []
  {
    var ix := IndexOf(books);
    IndexWellFormed(books);
    var t :| t in Tokenize(VerseAt(books, p).text) && Expands(t, kw);
    IndexComplete(books, p, t);
    MatchingPostingsNonEmpty(ix, kw, t);
    CollectFirst(PostingsFor(ix, MatchingWords(ix, kw)));
  }

  // ---------------------------------------------------------------- the loops

  /** The `for (const word in index)` expansion loop, with its `break`. */
  method ExpandKeys(ix: Index, kw: string) returns (ms: seq<string>)
    ensures ms == MatchingWords(ix, kw)
  {
    ms := if kw in ix.postings then [kw] else [];
    if ms == [] || |kw| >= 3 {
      ghost var start := ms;
      var i := 0;
      while i < |ix.keys|
        invariant 0 <= i <= |ix.keys|
        invariant ExpandFrom(ms, ix.keys[i..], kw) == ExpandFrom(start, ix.keys, kw)
      {
        var word := ix.keys[i];
        assert ix.keys[i..][1..] == ix.keys[i + 1..];
        if Expands(word, kw) {
          if word !in ms {
            ms := ms + [word];
          }
          if |ms| >= WordCap {
            break;
          }
        }
        i := i + 1;
      }
    }
  }

  /** `for (const pos of positions)` for one matching word, with its `break`. */
  method CollectWord(ps: seq<Pos>, st: Collected) returns (r: Collected)
    requires |st.hits| < ResultCap
    ensures r == CollectFrom(st, ps)
  {
    r := st;
    var j := 0;
    while j < |ps|
      invariant 0 <= j <= |ps| && |r.hits| < ResultCap
      invariant CollectFrom(r, ps[j..]) == CollectFrom(st, ps)
    {
      var pos := ps[j];
      assert ps[j..][1..] == ps[j + 1..];
      var key := PosKey(pos);
      if key !in r.seen {
        r := Collected(r.hits + [pos], r.seen + {key});
        if |r.hits| >= ResultCap {
          break;
        }
      }
      j := j + 1;
    }
  }

  /** `for (const word of matchingWords)`, with its `break`. */
  method CollectWords(ix: Index, ws: seq<string>) returns (hits: seq<Pos>)
    ensures hits == CollectFrom(NoWordHits, PostingsFor(ix, ws)).hits
  {
    var r := NoWordHits;
    var i := 0;
    assert ws[0..] == ws;
    while i < |ws|
      invariant 0 <= i <= |ws| && |r.hits| < ResultCap
      invariant CollectFrom(r, PostingsFor(ix, ws[i..])) == CollectFrom(NoWordHits, PostingsFor(ix, ws))
    {
      assert ws[i..][1..] == ws[i + 1..];
      CollectFromAppend(r, PostingsOf(ix, ws[i]), PostingsFor(ix, ws[i + 1..]));
      var positions := if ws[i] in ix.postings then ix.postings[ws[i]] else [];
      r := CollectWord(positions, r);
      if |r.hits| >= ResultCap {
        break;
      }
      i := i + 1;
    }
    hits := r.hits;
  }

  /** `searchVerses` on loaded data; `memo` is the search index when one was
      already built from that data, and word mode builds it otherwise. */
  method SearchVerses(data: BibleData, memo: Option<Index>, keyword: string) returns (r: Result<SearchResult, Error>)
    requires memo.Some? ==> memo.value == IndexOf(data.books)
    ensures r == SearchSpec(data, keyword)
  {
    var kw := Trim(Lower(keyword));
    if kw == [] {
      return Err(EmptySearch);
    }
    var results: seq<ResolvedVerse>;
    if ' ' in kw {
      results := PhraseScanCorpus(data.books, kw);
    } else {
      var ix: Index;
      if memo.Some? {
        ix := memo.value;
      } else {
        ix := BuildSearchIndex(data.books);
      }
      var words := ExpandKeys(ix, kw);
      var hits := CollectWords(ix, words);
      WordHitsSound(data.books, kw);
      results := Resolve(data.books, hits);
    }
    if results == [] {
      return Err(NoResults);
    }
    var shown := Take(results, DisplayCap);
    r := Ok(SearchResult(SearchLabel(keyword, |results|), shown, JoinTexts(shown), data.version));
  }
}
