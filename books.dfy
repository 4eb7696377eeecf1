/** `findBook`: resolve a typed book name against the corpus, trying an exact
    case-insensitive match, then a prefix, then a substring, then the table
    of common abbreviations. Books are identified by their index. */
module Books {
  import opened Wrappers
  import opened Text
  import opened Corpus

  /** `bookName.toLowerCase().trim()`. */
  function Normalize(bookName: string): string {
    Trim(Lower(bookName))
  }

  /** The three `books.find` passes, weakest last. */
  datatype Tier = Exact | Prefix | Infix

  predicate Matches(tier: Tier, bookName: string, n: string) {
    var name := Lower(bookName);
    match tier {
      case Exact => name == n
      case Prefix => StartsWith(name, n)
      case Infix => Contains(name, n)
    }
  }

  /** Each pass accepts everything the pass before it accepts. */
  lemma TiersNest(bookName: string, n: string)
    ensures Matches(Exact, bookName, n) ==> Matches(Prefix, bookName, n)
    ensures Matches(Prefix, bookName, n) ==> Matches(Infix, bookName, n)
  {
    if Matches(Prefix, bookName, n) {
      StartsWithContains(Lower(bookName), n);
    }
  }

  /** Book `i` is the one `books.find` returns for this pass. */
  predicate IsFirst(books: seq<Book>, tier: Tier, n: string, i: int) {
    0 <= i < |books| && Matches(tier, books[i].name, n)
    && forall j :: 0 <= j < i ==> !Matches(tier, books[j].name, n)
  }

  predicate NoneMatch(books: seq<Book>, tier: Tier, n: string) {
    forall j :: 0 <= j < |books| ==> !Matches(tier, books[j].name, n)
  }

  /** `books.find(b => ...)` from index `i` on, as an index. */
  function FirstMatch(books: seq<Book>, tier: Tier, n: string, i: nat): (r: Option<nat>)
    requires i <= |books|
    ensures r.Some? ==> i <= r.value < |books| && Matches(tier, books[r.value].name, n)
    ensures r.Some? ==> forall j :: i <= j < r.value ==> !Matches(tier, books[j].name, n)
    ensures r.None? ==> forall j :: i <= j < |books| ==> !Matches(tier, books[j].name, n)
    decreases |books| - i
  {
    if i == |books| then None
    else if Matches(tier, books[i].name, n) then Some(i)
    else FirstMatch(books, tier, n, i + 1)
  }

  lemma FirstMatchIsFirst(books: seq<Book>, tier: Tier, n: string)
    ensures forall i :: IsFirst(books, tier, n, i) ==> FirstMatch(books, tier, n, 0) == Some(i)
    ensures FirstMatch(books, tier, n, 0).None? <==> NoneMatch(books, tier, n)
  {
  }

  /** The abbreviation table, in its declaration order (the order
      `Object.entries` yields): a full name to look for inside book names,
      and the abbreviations that select it. */
  const Abbreviations: seq<(string, seq<string>)> := [
    ("genesis", ["gen", "ge", "gn"]),
    ("exodus", ["exo", "ex", "exod"]),
    ("leviticus", ["lev", "le", "lv"]),
    ("numbers", ["num", "nu", "nm", "nb"]),
    ("deuteronomy", ["deut", "deu", "dt"]),
    ("joshua", ["josh", "jos", "jsh"]),
    ("judges", ["judg", "jdg", "jg", "jdgs"]),
    ("ruth", ["rut", "rth", "ru"]),
    ("samuel", ["sam", "sa", "sm"]),
    ("kings", ["kin", "ki", "kgs"]),
    ("chronicles", ["chr", "ch", "chron"]),
    ("ezra", ["ezr", "ez"]),
    ("nehemiah", ["neh", "ne"]),
    ("esther", ["est", "es", "esth"]),
    ("job", ["jb"]),
    ("psalms", ["psa", "ps", "psalm", "pslm", "psm"]),
    ("proverbs", ["prov", "pro", "prv", "pr"]),
    ("ecclesiastes", ["eccl", "ecc", "ec", "qoh"]),
    ("song", ["song", "sos", "so", "canticle", "canticles"]),
    ("isaiah", ["isa", "is"]),
    ("jeremiah", ["jer", "je", "jr"]),
    ("lamentations", ["lam", "la"]),
    ("ezekiel", ["ezek", "eze", "ezk"]),
    ("daniel", ["dan", "da", "dn"]),
    ("hosea", ["hos", "ho"]),
    ("joel", ["joe", "jl"]),
    ("amos", ["amo", "am"]),
    ("obadiah", ["obad", "oba", "ob"]),
    ("jonah", ["jon", "jnh"]),
    ("micah", ["mic", "mc"]),
    ("nahum", ["nah", "na"]),
    ("habakkuk", ["hab", "hb"]),
    ("zephaniah", ["zeph", "zep", "zp"]),
    ("haggai", ["hag", "hg"]),
    ("zechariah", ["zech", "zec", "zc"]),
    ("malachi", ["mal", "ml"]),
    ("matthew", ["matt", "mat", "mt"]),
    ("mark", ["mar", "mrk", "mk", "mr"]),
    ("luke", ["luk", "lk"]),
    ("john", ["jn", "joh", "jhn"]),
    ("acts", ["act", "ac"]),
    ("romans", ["rom", "ro", "rm"]),
    ("corinthians", ["cor", "co"]),
    ("galatians", ["gal", "ga"]),
    ("ephesians", ["eph", "ep"]),
    ("philippians", ["phil", "php", "pp"]),
    ("colossians", ["col", "co"]),
    ("thessalonians", ["thess", "thes", "th"]),
    ("timothy", ["tim", "ti", "tm"]),
    ("titus", ["tit", "ti"]),
    ("philemon", ["philem", "phm", "pm"]),
    ("hebrews", ["heb", "he"]),
    ("james", ["jas", "ja", "jm"]),
    ("peter", ["pet", "pe", "pt"]),
    ("jude", ["jud", "jd"]),
    ("revelation", ["rev", "re", "rv", "apocalypse"])
  ]

  /** `abbrevs.some(abbr => normalizedName === abbr || normalizedName.startsWith(abbr))`. */
  predicate AbbrevHit(n: string, abbrs: seq<string>) {
    exists a | a in abbrs :: n == a || StartsWith(n, a)
  }

  /** Table entry `e` selects a book: the name hits one of its abbreviations
      and some book name contains the entry's full name. */
  predicate EntryHits(books: seq<Book>, n: string, table: seq<(string, seq<string>)>, e: int)
    requires 0 <= e < |table|
  {
    AbbrevHit(n, table[e].1) && !NoneMatch(books, Infix, table[e].0)
  }

  /** Entry `e` is the first entry from `k` on that selects a book. */
  predicate FirstHitFrom(books: seq<Book>, n: string, table: seq<(string, seq<string>)>, k: int, e: int) {
    0 <= k <= e < |table| && EntryHits(books, n, table, e)
    && forall f :: k <= f < e ==> !EntryHits(books, n, table, f)
  }

  /** The abbreviation pass over `table`, from entry `k` on. */
  function AbbreviationMatch(books: seq<Book>, n: string, table: seq<(string, seq<string>)>, k: nat): (r: Option<nat>)
    requires k <= |table|
    ensures r.Some? ==> r.value < |books|
    decreases |table| - k
  {
    if k == |table| then None
    else if AbbrevHit(n, table[k].1) && FirstMatch(books, Infix, table[k].0, 0).Some? then
      FirstMatch(books, Infix, table[k].0, 0)
    else
      AbbreviationMatch(books, n, table, k + 1)
  }

  /** The abbreviation pass finds a book exactly when some entry selects one,
      and then it is the book of the first such entry. */
  lemma {:induction false} AbbreviationMatchFacts(books: seq<Book>, n: string, table: seq<(string, seq<string>)>, k: nat)
    requires k <= |table|
    ensures AbbreviationMatch(books, n, table, k).Some? <==> exists e :: k <= e < |table| && EntryHits(books, n, table, e)
    ensures forall e :: FirstHitFrom(books, n, table, k, e) ==>
      AbbreviationMatch(books, n, table, k) == FirstMatch(books, Infix, table[e].0, 0)
    decreases |table| - k
  {
    if k < |table| {
      FirstMatchIsFirst(books, Infix, table[k].0);
      AbbreviationMatchFacts(books, n, table, k + 1);
      if EntryHits(books, n, table, k) {
        assert forall e :: FirstHitFrom(books, n, table, k, e) ==> e == k;
      } else {
        assert forall e :: FirstHitFrom(books, n, table, k, e) ==> FirstHitFrom(books, n, table, k + 1, e);
      }
    }
  }

  /** The book `findBook` resolves a name to: the first exact match, else the
      first prefix match, else the first substring match, else the first book
      containing the full name of the first abbreviation entry that selects one. */
  function BookMatch(books: seq<Book>, bookName: string): (r: Option<nat>)
    ensures r.Some? ==> r.value < |books|
    ensures var n := Normalize(bookName);
      forall i :: IsFirst(books, Exact, n, i) ==> r == Some(i)
    ensures var n := Normalize(bookName);
      NoneMatch(books, Exact, n) ==> forall i :: IsFirst(books, Prefix, n, i) ==> r == Some(i)
    ensures var n := Normalize(bookName);
      NoneMatch(books, Prefix, n) ==> forall i :: IsFirst(books, Infix, n, i) ==> r == Some(i)
    ensures var n := Normalize(bookName);
      NoneMatch(books, Infix, n) ==> r == AbbreviationMatch(books, n, Abbreviations, 0)
  {
    var n := Normalize(bookName);
    FirstMatchIsFirst(books, Exact, n);
    FirstMatchIsFirst(books, Prefix, n);
    FirstMatchIsFirst(books, Infix, n);
    forall j | 0 <= j < |books| {
      TiersNest(books[j].name, n);
    }
    var exact := FirstMatch(books, Exact, n, 0);
    var prefix := FirstMatch(books, Prefix, n, 0);
    var infix := FirstMatch(books, Infix, n, 0);
    if exact.Some? then exact
    else if prefix.Some? then prefix
    else if infix.Some? then infix
    else AbbreviationMatch(books, n, Abbreviations, 0)
  }

  /** A name that is no book's substring and selects no abbreviation entry
      resolves to nothing, and only such a name does. */
  lemma BookMatchNone(books: seq<Book>, bookName: string)
    ensures var n := Normalize(bookName);
      BookMatch(books, bookName).None? <==>
        NoneMatch(books, Infix, n) && forall e :: 0 <= e < |Abbreviations| ==> !EntryHits(books, n, Abbreviations, e)
  {
    var n := Normalize(bookName);
    if NoneMatch(books, Infix, n) {
      AbbreviationMatchFacts(books, n, Abbreviations, 0);
    } else {
      FirstMatchIsFirst(books, Infix, n);
      BookMatchByInfix(books, bookName);
    }
  }

  /** Once some book contains the name, a book is found. */
  lemma BookMatchByInfix(books: seq<Book>, bookName: string)
    requires FirstMatch(books, Infix, Normalize(bookName), 0).Some?
    ensures BookMatch(books, bookName).Some?
  {
  }

  /** The `for (const [fullName, abbrevs] of Object.entries(abbreviations))`
      loop of `findBook`, with its early `break`. */
  method ScanAbbreviations(books: seq<Book>, n: string, table: seq<(string, seq<string>)>) returns (r: Option<nat>)
    ensures r == AbbreviationMatch(books, n, table, 0)
  {
    r := None;
    var e := 0;
    while e < |table|
      invariant 0 <= e <= |table|
      invariant r.None?
      invariant AbbreviationMatch(books, n, table, e) == AbbreviationMatch(books, n, table, 0)
    {
      var (fullName, abbrevs) := table[e];
      if AbbrevHit(n, abbrevs) {
        r := FirstMatch(books, Infix, fullName, 0);
        if r.Some? {
          break;
        }
      }
      e := e + 1;
    }
  }

  /** `findBook`: the three `find` passes, then the abbreviation loop. */
  method FindBook(books: seq<Book>, bookName: string) returns (r: Option<nat>)
    ensures r == BookMatch(books, bookName)
  {
    var n := Normalize(bookName);
    r := FirstMatch(books, Exact, n, 0);
    if r.None? {
      r := FirstMatch(books, Prefix, n, 0);
    }
    if r.None? {
      r := FirstMatch(books, Infix, n, 0);
    }
    if r.None? {
      r := ScanAbbreviations(books, n, Abbreviations);
    }
  }
}
