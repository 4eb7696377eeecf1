/** `parseReference`: the pattern
      ^([\w\s]+?)\s+(\d+)(?::(\d+)(?:-(\d+))?)?$
    applied to the trimmed input, written out by hand. The part after the
    book name is deterministic (`Tail`); the lazy book group is the shortest
    prefix after which that part matches (`LazySplit`). */
module Reference {
  import opened Wrappers
  import opened Text

  /** The parsed, unresolved reference. */
  datatype Locator = Locator(book: string, chapter: nat, verseStart: Option<nat>, verseEnd: Option<nat>)

  /** The captures `(\d+)`, `(\d+)` and `(\d+)` of `\s+(\d+)(?::(\d+)(?:-(\d+))?)?$`. */
  datatype Tail = Tail(chapter: string, verse: Option<string>, toVerse: Option<string>)

  predicate DigitString(s: string) {
    s != [] && AllDigits(s)
  }

  predicate WellFormedTail(t: Tail) {
    && DigitString(t.chapter)
    && (t.verse.Some? ==> DigitString(t.verse.value))
    && (t.toVerse.Some? ==> t.verse.Some? && DigitString(t.toVerse.value))
  }

  /** The text that `(?:-(\d+))?` matches. */
  function RangeText(toVerse: Option<string>): string {
    match toVerse { case None => "" case Some(w) => "-" + w }
  }

  /** The text that `(?::(\d+)(?:-(\d+))?)?` matches. */
  function VerseText(verse: Option<string>, toVerse: Option<string>): string {
    match verse { case None => "" case Some(v) => ":" + v + RangeText(toVerse) }
  }

  /** The text that `(\d+)(?::(\d+)(?:-(\d+))?)?` matches with the given captures. */
  function RenderTail(t: Tail): string {
    t.chapter + VerseText(t.verse, t.toVerse)
  }

  /** `(\d+)$`: the whole string is a run of digits. */
  predicate WholeDigits(s: string) {
    s != [] && DigitRun(s) == |s|
  }

  /** Matches `(?:-(\d+))?$` against the whole of `s`. */
  function ParseRange(s: string): (r: Option<Option<string>>)
    ensures r.Some? ==> s == RangeText(r.value) && (r.value.Some? ==> DigitString(r.value.value))
  {
    if s == [] then Some(None)
    else if s[0] == '-' && WholeDigits(s[1..]) then
      assert s == "-" + s[1..];
      Some(Some(s[1..]))
    else None
  }

  /** Matches `(?::(\d+)(?:-(\d+))?)?$` against the whole of `s`; the digit
      run is taken whole, since a shorter one leaves a digit that neither `-`
      nor the end of input can match. */
  function ParseVerse(s: string): (r: Option<(Option<string>, Option<string>)>)
    ensures r.Some? ==> s == VerseText(r.value.0, r.value.1)
    ensures r.Some? ==> WellFormedTail(Tail("0", r.value.0, r.value.1))
  {
    if s == [] then Some((None, None))
    else if s[0] != ':' then None
    else
      var x := s[1..];
      var d := DigitRun(x);
      if d == 0 then None
      else match ParseRange(x[d..]) {
        case None => None
        case Some(range) =>
          assert x == x[..d] + x[d..];
          assert s == ":" + x;
          Some((Some(x[..d]), range))
      }
  }

  /** Matches `\s+(\d+)(?::(\d+)(?:-(\d+))?)?$` against the whole of `s`. */
  function ParseTail(s: string): (r: Option<Tail>)
    ensures r.Some? ==> WellFormedTail(r.value) && SpaceRun(s) > 0 && s == s[..SpaceRun(s)] + RenderTail(r.value)
  {
    var w := SpaceRun(s);
    if w == 0 then None
    else
      var x := s[w..];
      var d := DigitRun(x);
      if d == 0 then None
      else match ParseVerse(x[d..]) {
        case None => None
        case Some(verse) =>
          assert x == x[..d] + x[d..];
          assert s == s[..w] + x;
          Some(Tail(x[..d], verse.0, verse.1))
      }
  }

  lemma {:induction false} SpaceRunAfterSpaces(a: string, b: string)
    requires AllSpaces(a) && (b == [] || !IsSpace(b[0]))
    ensures SpaceRun(a + b) == |a|
  {
    if a != [] {
      assert (a + b)[1..] == a[1..] + b;
      SpaceRunAfterSpaces(a[1..], b);
    }
  }

  lemma {:induction false} SpaceRunConcat(a: string, b: string)
    requires SpaceRun(a) < |a|
    ensures SpaceRun(a + b) == SpaceRun(a)
  {
    if IsSpace(a[0]) {
      assert (a + b)[1..] == a[1..] + b;
      SpaceRunConcat(a[1..], b);
    }
  }

  lemma {:induction false} DigitRunAfterDigits(a: string, b: string)
    requires AllDigits(a) && (b == [] || !IsDigit(b[0]))
    ensures DigitRun(a + b) == |a|
  {
    if a != [] {
      assert (a + b)[1..] == a[1..] + b;
      DigitRunAfterDigits(a[1..], b);
    }
  }

  lemma {:induction false} DigitRunConcat(a: string, b: string)
    requires DigitRun(a) < |a|
    ensures DigitRun(a + b) == DigitRun(a)
  {
    if IsDigit(a[0]) {
      assert (a + b)[1..] == a[1..] + b;
      DigitRunConcat(a[1..], b);
    }
  }

  lemma ParseRangeComplete(toVerse: Option<string>)
    requires toVerse.Some? ==> DigitString(toVerse.value)
    ensures ParseRange(RangeText(toVerse)) == Some(toVerse)
  {
    if toVerse.Some? {
      var w := toVerse.value;
      assert RangeText(toVerse)[1..] == w;
      DigitRunAfterDigits(w, []);
      assert w + [] == w;
    }
  }

  lemma ParseVerseComplete(verse: Option<string>, toVerse: Option<string>)
    requires WellFormedTail(Tail("0", verse, toVerse))
    ensures ParseVerse(VerseText(verse, toVerse)) == Some((verse, toVerse))
  {
    if verse.Some? {
      var v := verse.value;
      var rt := RangeText(toVerse);
      var s := VerseText(verse, toVerse);
      assert s == ":" + (v + rt);
      var x := s[1..];
      assert x == v + rt;
      assert rt == [] || rt[0] == '-';
      DigitRunAfterDigits(v, rt);
      assert x[..|v|] == v && x[|v|..] == rt;
      ParseRangeComplete(toVerse);
      assert ParseRange(x[|v|..]) == Some(toVerse);
    }
  }

  /** The converse of `ParseTail`'s postcondition: whitespace followed by the
      text of any well-formed tail is matched, with exactly those captures. */
  lemma ParseTailComplete(ws: string, t: Tail)
    requires ws != [] && AllSpaces(ws) && WellFormedTail(t)
    ensures ParseTail(ws + RenderTail(t)) == Some(t)
  {
    var s := ws + RenderTail(t);
    var rest := VerseText(t.verse, t.toVerse);
    SpaceRunAfterSpaces(ws, RenderTail(t));
    var x := s[|ws|..];
    assert x == t.chapter + rest;
    DigitRunAfterDigits(t.chapter, rest);
    assert x[..|t.chapter|] == t.chapter && x[|t.chapter|..] == rest;
    ParseVerseComplete(t.verse, t.toVerse);
  }

  /** A character of the class `[\w\s]`. */
  predicate BookChar(c: char) {
    IsWordChar(c) || IsSpace(c)
  }

  predicate BookChars(s: string) {
    forall i :: 0 <= i < |s| ==> BookChar(s[i])
  }

  /** The whole pattern matches `t` with the book group `([\w\s]+?)` covering `t[..k]`. */
  predicate SplitsAt(t: string, k: int) {
    1 <= k <= |t| && BookChars(t[..k]) && ParseTail(t[k..]).Some?
  }

  /** `k` is where the lazy group stops: the shortest book group that lets the rest match. */
  predicate FirstSplit(t: string, k: int) {
    SplitsAt(t, k) && forall j :: 1 <= j < k ==> !SplitsAt(t, j)
  }

  /** The lazy quantifier: try book groups of length `k`, `k + 1`, ... in turn. */
  function LazySplit(t: string, k: nat): (r: Option<nat>)
    requires 1 <= k <= |t| + 1 && BookChars(t[..k - 1])
    ensures r.Some? ==> k <= r.value && SplitsAt(t, r.value) && forall j :: k <= j < r.value ==> !SplitsAt(t, j)
    ensures r.None? ==> forall j :: k <= j ==> !SplitsAt(t, j)
    decreases |t| + 1 - k
  {
    if k > |t| then None
    else if !BookChar(t[k - 1]) then
      assert forall j :: k <= j <= |t| ==> t[..j][k - 1] == t[k - 1];
      None
    else
      assert t[..k] == t[..k - 1] + [t[k - 1]];
      if ParseTail(t[k..]).Some? then Some(k) else LazySplit(t, k + 1)
  }

  /** The locator built from the captures of a match whose book group is `t[..k]`:
      the book trimmed, `parseInt` of each number, and `verseEnd` defaulting to `verseStart`. */
  function LocatorAt(t: string, k: int): Locator
    requires SplitsAt(t, k)
  {
    var tail := ParseTail(t[k..]).value;
    var start := match tail.verse { case None => None case Some(v) => Some(DigitsValue(v)) };
    var end := match tail.toVerse { case None => start case Some(w) => Some(DigitsValue(w)) };
    Locator(Trim(t[..k]), DigitsValue(tail.chapter), start, end)
  }

  /** `parseReference`: `null` exactly when the pattern matches the trimmed input
      nowhere; otherwise the captures of the match the lazy book group selects. */
  function ParseReference(reference: string): (r: Option<Locator>)
    ensures r.None? <==> forall k :: !SplitsAt(Trim(reference), k)
    ensures forall k :: FirstSplit(Trim(reference), k) ==> r == Some(LocatorAt(Trim(reference), k))
    ensures r.Some? ==> (r.value.verseEnd.Some? ==> r.value.verseStart.Some?)
  {
    var t := Trim(reference);
    match LazySplit(t, 1) {
      case None => None
      case Some(k) => Some(LocatorAt(t, k))
    }
  }

  /** The reference text of a locator, in the shape the lookup labels use:
      `Book C`, `Book C:V` or `Book C:V-W`. */
  function ReferenceText(loc: Locator): string {
    loc.book + " " + RenderTail(TailOf(loc))
  }

  function TailOf(loc: Locator): Tail {
    var verse := match loc.verseStart { case None => None case Some(v) => Some(NatToString(v)) };
    var toVerse :=
      if loc.verseStart.Some? && loc.verseEnd.Some? && loc.verseEnd != loc.verseStart
      then Some(NatToString(loc.verseEnd.value)) else None;
    Tail(NatToString(loc.chapter), verse, toVerse)
  }

  /** A book name the pattern accepts as written: `[\w\s]` characters, not
      starting or ending with whitespace. */
  predicate PlainBookName(b: string) {
    b != [] && BookChars(b) && !IsSpace(b[0]) && !IsSpace(b[|b| - 1])
  }

  /** `(?::(\d+)(?:-(\d+))?)?$` fails on text that starts with a `[\w\s]` character. */
  lemma VerseRejectsBookChar(y: string)
    requires y != [] && BookChar(y[0])
    ensures ParseVerse(y).None?
  {
  }

  /** A digit run inside `[\w\s]` text that whitespace follows ends before
      a `[\w\s]` character. */
  lemma BookCharAfterDigits(v: string, tail: string)
    requires BookChars(v) && tail != [] && IsSpace(tail[0])
    ensures var x := v + tail; DigitRun(x) < |x| && BookChar(x[DigitRun(x)])
  {
    var x := v + tail;
    if DigitRun(v) < |v| {
      DigitRunConcat(v, tail);
      assert x[DigitRun(v)] == v[DigitRun(v)];
    } else {
      assert AllDigits(v);
      DigitRunAfterDigits(v, tail);
      assert x[|v|] == tail[0];
    }
  }

  /** The tail pattern does not match text that starts inside a book name:
      the characters after the first whitespace and digits are `[\w\s]`,
      which neither `:` nor the end of input accepts. */
  lemma NoTailInBook(u: string, tail: string)
    requires u != [] && BookChars(u) && !IsSpace(u[|u| - 1])
    requires tail != [] && IsSpace(tail[0])
    ensures ParseTail(u + tail).None?
  {
    var s := u + tail;
    assert SpaceRun(u) < |u|;
    SpaceRunConcat(u, tail);
    var w := SpaceRun(u);
    if w > 0 {
      var v := u[w..];
      var x := s[w..];
      assert x == v + tail;
      assert BookChars(v) by {
        forall i | 0 <= i < |v| ensures BookChar(v[i]) {
          assert v[i] == u[w + i];
        }
      }
      BookCharAfterDigits(v, tail);
      var d := DigitRun(x);
      if d > 0 {
        assert x[d..][0] == x[d];
        VerseRejectsBookChar(x[d..]);
      }
    }
  }

  /** No book group shorter than the whole book name lets the rest match:
      what follows it starts inside the name, and the name holds no `:`. */
  lemma NoEarlierSplit(b: string, rest: string, j: nat)
    requires PlainBookName(b) && 1 <= j < |b|
    ensures ParseTail((b + " " + rest)[j..]).None?
  {
    var u := b[j..];
    assert (b + " " + rest)[j..] == u + (" " + rest);
    assert u[|u| - 1] == b[|b| - 1];
    assert BookChars(u) by {
      forall i | 0 <= i < |u| ensures BookChar(u[i]) {
        assert u[i] == b[j + i];
      }
    }
    NoTailInBook(u, " " + rest);
  }

  lemma LastOfConcat(a: string, b: string)
    requires b != []
    ensures (a + b)[|a + b| - 1] == b[|b| - 1]
  {
  }

  /** The text of a well-formed tail ends in a digit. */
  lemma RenderTailLast(t: Tail)
    requires WellFormedTail(t)
    ensures var r := RenderTail(t); r != [] && IsDigit(r[|r| - 1])
  {
    var vt := VerseText(t.verse, t.toVerse);
    if vt == [] {
      assert RenderTail(t) == t.chapter + [];
    } else {
      var v := t.verse.value;
      var rt := RangeText(t.toVerse);
      if rt == [] {
        assert vt == ":" + v + [];
        LastOfConcat(":", v);
      } else {
        assert rt == "-" + t.toVerse.value;
        LastOfConcat("-", t.toVerse.value);
        LastOfConcat(":" + v, rt);
      }
      LastOfConcat(t.chapter, vt);
    }
  }

  lemma TailOfFacts(loc: Locator)
    ensures WellFormedTail(TailOf(loc))
    ensures var r := RenderTail(TailOf(loc)); r != [] && IsDigit(r[|r| - 1])
  {
    RenderTailLast(TailOf(loc));
  }

  lemma FirstSplitAfterBook(loc: Locator)
    requires PlainBookName(loc.book)
    ensures FirstSplit(ReferenceText(loc), |loc.book|)
    ensures ParseTail(ReferenceText(loc)[|loc.book|..]) == Some(TailOf(loc))
  {
    var b := loc.book;
    var rendered := RenderTail(TailOf(loc));
    var text := ReferenceText(loc);
    TailOfFacts(loc);
    assert text[..|b|] == b;
    assert text[|b|..] == " " + rendered;
    ParseTailComplete(" ", TailOf(loc));
    forall j | 1 <= j < |b| ensures !SplitsAt(text, j) {
      NoEarlierSplit(b, rendered, j);
    }
  }

  /** The captures of the match at the end of the book name are the locator's fields. */
  lemma LocatorAtBook(loc: Locator)
    requires PlainBookName(loc.book)
    requires loc.verseEnd.Some? <==> loc.verseStart.Some?
    ensures SplitsAt(ReferenceText(loc), |loc.book|)
    ensures LocatorAt(ReferenceText(loc), |loc.book|) == loc
  {
    var b := loc.book;
    var text := ReferenceText(loc);
    FirstSplitAfterBook(loc);
    assert text[..|b|] == b;
    TrimOfTrimmed(b);
    var tl := TailOf(loc);
    assert DigitsValue(tl.chapter) == loc.chapter;
  }

  /** Round trip: a reference written out from a locator parses back to that
      locator (`verseEnd` is written only when it differs from `verseStart`). */
  lemma ParseReferenceText(loc: Locator)
    requires PlainBookName(loc.book)
    requires loc.verseEnd.Some? <==> loc.verseStart.Some?
    ensures ParseReference(ReferenceText(loc)) == Some(loc)
  {
    var b := loc.book;
    var rendered := RenderTail(TailOf(loc));
    var text := ReferenceText(loc);
    TailOfFacts(loc);
    assert text == b + (" " + rendered);
    LastOfConcat(b + " ", rendered);
    assert text[0] == b[0];
    TrimOfTrimmed(text);
    FirstSplitAfterBook(loc);
    LocatorAtBook(loc);
  }
}
