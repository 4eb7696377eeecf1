/** The favorites store: an IndexedDB object store keyed by id (the primary
    store), a `localStorage` list (the backup, which is also the fallback when
    the database cannot be opened), and the listings read from either. */
module Favorites {
  import opened Wrappers
  import opened Text
  import opened Corpus

  /** The verse passed to `addFavorite`: a `FavoriteVerse` without `id` and `dateAdded`. */
  datatype VerseInput = VerseInput(bookName: string, chapter: int, verse: int, text: string, reference: string)

  /** `FavoriteVerse`; `dateAdded` is the time stamp that `new Date(dateAdded).getTime()` reads back. */
  datatype Favorite = Favorite(id: string, bookName: string, chapter: int, verse: int, text: string, reference: string, dateAdded: int)

  /** `${bookName}-${chapter}-${verse}`, the key every operation computes. */
  function FavoriteId(bookName: string, chapter: int, verse: int): string {
    VerseKey(bookName, chapter, verse)
  }

  /** `{ ...verse, id, dateAdded: new Date().toISOString() }` at time `now`. */
  function MakeFavorite(v: VerseInput, now: int): (f: Favorite)
    ensures f.id == FavoriteId(v.bookName, v.chapter, v.verse) && f.dateAdded == now
    ensures f.bookName == v.bookName && f.chapter == v.chapter && f.verse == v.verse
    ensures f.text == v.text && f.reference == v.reference
  {
    Favorite(FavoriteId(v.bookName, v.chapter, v.verse), v.bookName, v.chapter, v.verse, v.text, v.reference, now)
  }

  // ---------------------------------------------------------------- the primary store

  /** The order IndexedDB keeps string keys in: code unit by code unit. */
  predicate IdLess(a: string, b: string) {
    if a == [] then b != []
    else if b == [] then false
    else if a[0] != b[0] then a[0] < b[0]
    else IdLess(a[1..], b[1..])
  }

  lemma {:induction false} IdLessIrreflexive(a: string)
    ensures !IdLess(a, a)
  {
    if a != [] {
      IdLessIrreflexive(a[1..]);
    }
  }

  lemma {:induction false} IdLessTransitive(a: string, b: string, c: string)
    requires IdLess(a, b) && IdLess(b, c)
    ensures IdLess(a, c)
  {
    if a != [] && b != [] && c != [] && a[0] == b[0] && b[0] == c[0] {
      IdLessTransitive(a[1..], b[1..], c[1..]);
    }
  }

  lemma {:induction false} IdLessTotal(a: string, b: string)
    ensures a == b || IdLess(a, b) || IdLess(b, a)
  {
    if a != [] && b != [] && a[0] == b[0] {
      IdLessTotal(a[1..], b[1..]);
      if a[1..] == b[1..] {
        assert a == [a[0]] + a[1..] && b == [b[0]] + b[1..];
      }
    }
  }

  /** The records of an object store, in strictly increasing key order. */
  ghost predicate KeyOrdered(t: seq<Favorite>) {
    forall i, j :: 0 <= i < j < |t| ==> IdLess(t[i].id, t[j].id)
  }

  /** `store.put(f)`: the record with `f`'s id is replaced, or `f` is inserted in key order. */
  function Put(t: seq<Favorite>, f: Favorite): seq<Favorite> {
    if t == [] then [f]
    else if t[0].id == f.id then [f] + t[1..]
    else if IdLess(f.id, t[0].id) then [f] + t
    else [t[0]] + Put(t[1..], f)
  }

  /** The records whose id is not `id`, in their order: `store.delete(id)` on the
      object store and `favorites.filter(f => f.id !== id)` on the backup. */
  function Delete(t: seq<Favorite>, id: string): seq<Favorite> {
    if t == [] then []
    else if t[0].id == id then Delete(t[1..], id)
    else [t[0]] + Delete(t[1..], id)
  }

  /** The store as a map from key to record. */
  function AsMap(t: seq<Favorite>): map<string, Favorite> {
    if t == [] then map[] else AsMap(t[1..])[t[0].id := t[0]]
  }

  /** `store.get(id)` finds a record. */
  predicate Has(t: seq<Favorite>, id: string) {
    exists i :: 0 <= i < |t| && t[i].id == id
  }

  lemma {:induction false} AsMapKeys(t: seq<Favorite>)
    ensures forall id :: id in AsMap(t) <==> Has(t, id)
    ensures forall id :: id in AsMap(t) ==> AsMap(t)[id].id == id
  {
    if t != [] {
      AsMapKeys(t[1..]);
      forall id | Has(t, id) ensures id in AsMap(t) {
        var i :| 0 <= i < |t| && t[i].id == id;
        if i > 0 {
          assert t[1..][i - 1].id == id;
        }
      }
      forall id | id in AsMap(t) ensures Has(t, id) {
        if id != t[0].id {
          assert id in AsMap(t[1..]);
          var i :| 0 <= i < |t[1..]| && t[1..][i].id == id;
          assert t[i + 1].id == id;
        }
      }
    }
  }

  /** A put keeps the store in key order, makes `f` the record of its key and
      leaves every other key as it was. */
  lemma PutFacts(t: seq<Favorite>, f: Favorite)
    requires KeyOrdered(t)
    ensures KeyOrdered(Put(t, f))
    ensures AsMap(Put(t, f)) == AsMap(t)[f.id := f]
    ensures forall g :: g in Put(t, f) ==> g == f || g in t
  {
    PutMembers(t, f);
    PutOrdered(t, f);
    PutMap(t, f);
  }

  lemma {:induction false} PutMembers(t: seq<Favorite>, f: Favorite)
    ensures forall g :: g in Put(t, f) ==> g == f || g in t
  {
    if t != [] && t[0].id != f.id && !IdLess(f.id, t[0].id) {
      PutMembers(t[1..], f);
      assert t == [t[0]] + t[1..];
    }
  }

  lemma {:induction false} PutMap(t: seq<Favorite>, f: Favorite)
    ensures AsMap(Put(t, f)) == AsMap(t)[f.id := f]
  {
    if t == [] {
    } else if t[0].id == f.id {
      assert ([f] + t[1..])[1..] == t[1..];
      assert AsMap(t[1..])[t[0].id := t[0]][f.id := f] == AsMap(t[1..])[f.id := f];
    } else if IdLess(f.id, t[0].id) {
      assert ([f] + t)[1..] == t;
    } else {
      PutMap(t[1..], f);
      var rest := Put(t[1..], f);
      assert Put(t, f) == [t[0]] + rest;
      assert ([t[0]] + rest)[1..] == rest;
      assert AsMap(t[1..])[f.id := f][t[0].id := t[0]] == AsMap(t[1..])[t[0].id := t[0]][f.id := f];
    }
  }

  lemma {:induction false} PutOrdered(t: seq<Favorite>, f: Favorite)
    requires KeyOrdered(t)
    ensures KeyOrdered(Put(t, f))
  {
    if t == [] {
    } else if t[0].id == f.id {
      assert KeyOrdered(t[1..]);
      forall j | 0 <= j < |t[1..]| ensures IdLess(f.id, t[1..][j].id) {
        assert t[1..][j] == t[j + 1];
      }
      KeyOrderedCons(f, t[1..]);
    } else if IdLess(f.id, t[0].id) {
      forall j | 0 <= j < |t| ensures IdLess(f.id, t[j].id) {
        if j > 0 {
          IdLessTransitive(f.id, t[0].id, t[j].id);
        }
      }
      KeyOrderedCons(f, t);
    } else {
      IdLessTotal(f.id, t[0].id);
      assert KeyOrdered(t[1..]);
      PutOrdered(t[1..], f);
      PutMembers(t[1..], f);
      var rest := Put(t[1..], f);
      forall j | 0 <= j < |rest| ensures IdLess(t[0].id, rest[j].id) {
        assert rest[j] in rest;
      }
      KeyOrderedCons(t[0], rest);
    }
  }

  lemma KeyOrderedCons(f: Favorite, t: seq<Favorite>)
    requires KeyOrdered(t) && forall j :: 0 <= j < |t| ==> IdLess(f.id, t[j].id)
    ensures KeyOrdered([f] + t)
  {
    forall i, j | 0 <= i < j < |[f] + t| ensures IdLess(([f] + t)[i].id, ([f] + t)[j].id) {
      if i > 0 {
        assert ([f] + t)[i] == t[i - 1];
      }
      assert ([f] + t)[j] == t[j - 1];
    }
  }

  lemma KeyOrderedConsHead(t: seq<Favorite>)
    requires KeyOrdered(t) && t != []
    ensures forall j :: 1 <= j < |t| ==> t[0].id != t[j].id
  {
    forall j | 1 <= j < |t| ensures t[0].id != t[j].id {
      IdLessIrreflexive(t[0].id);
    }
  }

  /** A key below every key of an ordered store is not in it. */
  lemma KeyOrderedAbsent(t: seq<Favorite>, id: string)
    requires forall j :: 0 <= j < |t| ==> IdLess(id, t[j].id)
    ensures id !in AsMap(t)
  {
    AsMapKeys(t);
    forall j | 0 <= j < |t| ensures t[j].id != id {
      IdLessIrreflexive(id);
    }
  }

  lemma {:induction false} DeleteMembers(t: seq<Favorite>, id: string)
    ensures forall g :: g in Delete(t, id) <==> g in t && g.id != id
  {
    if t != [] {
      DeleteMembers(t[1..], id);
      assert t == [t[0]] + t[1..];
    }
  }

  lemma {:induction false} DeleteOrdered(t: seq<Favorite>, id: string)
    requires KeyOrdered(t)
    ensures KeyOrdered(Delete(t, id))
  {
    if t != [] {
      assert KeyOrdered(t[1..]);
      DeleteOrdered(t[1..], id);
      var rest := Delete(t[1..], id);
      if t[0].id != id {
        DeleteMembers(t[1..], id);
        forall j | 0 <= j < |rest| ensures IdLess(t[0].id, rest[j].id) {
          assert rest[j] in rest;
          var k :| 0 <= k < |t[1..]| && t[1..][k] == rest[j];
          assert t[k + 1] == rest[j];
        }
        KeyOrderedCons(t[0], rest);
      }
    }
  }

  lemma {:induction false} DeleteMap(t: seq<Favorite>, id: string)
    requires KeyOrdered(t)
    ensures AsMap(Delete(t, id)) == AsMap(t) - {id}
  {
    if t != [] {
      var rest := t[1..];
      assert KeyOrdered(rest);
      DeleteMap(rest, id);
      if t[0].id == id {
        KeyOrderedConsHead(t);
        AsMapKeys(rest);
        assert !Has(rest, id);
        assert AsMap(rest) - {id} == AsMap(rest);
        assert AsMap(t) - {id} == AsMap(rest) - {id};
      } else {
        assert Delete(t, id) == [t[0]] + Delete(rest, id);
        assert AsMap(Delete(t, id)) == (AsMap(rest) - {id})[t[0].id := t[0]];
        assert (AsMap(rest) - {id})[t[0].id := t[0]] == AsMap(rest)[t[0].id := t[0]] - {id};
      }
    }
  }

  // ---------------------------------------------------------------- sorting

  /** The two comparators handed to `Array.prototype.sort`: newest `dateAdded`
      first, and ascending chapter, then verse. */
  datatype Order = NewestFirst | ByChapterVerse

  /** The comparator is negative: `a` goes before `b`. */
  predicate Before(o: Order, a: Favorite, b: Favorite) {
    match o
    case NewestFirst => a.dateAdded > b.dateAdded
    case ByChapterVerse => a.chapter < b.chapter || (a.chapter == b.chapter && a.verse < b.verse)
  }

  /** The comparator is zero. */
  predicate Tie(o: Order, a: Favorite, b: Favorite) {
    match o
    case NewestFirst => a.dateAdded == b.dateAdded
    case ByChapterVerse => a.chapter == b.chapter && a.verse == b.verse
  }

  ghost predicate Sorted(o: Order, s: seq<Favorite>) {
    forall i, j :: 0 <= i < j < |s| ==> !Before(o, s[j], s[i])
  }

  /** Places `x` after every element of `t` it does not go before. */
  function Insert(o: Order, t: seq<Favorite>, x: Favorite): seq<Favorite> {
    if t == [] then [x]
    else if Before(o, x, t[|t| - 1]) then Insert(o, t[..|t| - 1], x) + [t[|t| - 1]]
    else t + [x]
  }

  /** The stable sort `Array.prototype.sort` performs with comparator `o`. */
  function SortBy(o: Order, s: seq<Favorite>): seq<Favorite> {
    if s == [] then [] else Insert(o, SortBy(o, s[..|s| - 1]), s[|s| - 1])
  }

  /** The elements of `s` that tie with `y`, in their order. */
  function TiesOf(o: Order, s: seq<Favorite>, y: Favorite): seq<Favorite> {
    if s == [] then [] else TiesOf(o, s[..|s| - 1], y) + (if Tie(o, s[|s| - 1], y) then [s[|s| - 1]] else [])
  }

  lemma {:induction false} InsertMultiset(o: Order, t: seq<Favorite>, x: Favorite)
    ensures multiset(Insert(o, t, x)) == multiset(t) + multiset{x}
  {
    if t != [] && Before(o, x, t[|t| - 1]) {
      InsertMultiset(o, t[..|t| - 1], x);
      assert t == t[..|t| - 1] + [t[|t| - 1]];
    }
  }

  lemma BeforeAsymmetric(o: Order, a: Favorite, b: Favorite)
    requires Before(o, a, b)
    ensures !Before(o, b, a)
  {
  }

  lemma NotBeforeTransitive(o: Order, a: Favorite, b: Favorite, c: Favorite)
    requires !Before(o, a, b) && !Before(o, b, c)
    ensures !Before(o, a, c)
  {
  }

  /** An element that goes before none of a sorted list may follow it. */
  lemma SortedSnoc(o: Order, r: seq<Favorite>, z: Favorite)
    requires Sorted(o, r) && forall i :: 0 <= i < |r| ==> !Before(o, z, r[i])
    ensures Sorted(o, r + [z])
  {
    var rz := r + [z];
    forall i, j | 0 <= i < j < |rz| ensures !Before(o, rz[j], rz[i]) {
      assert rz[i] == r[i];
      if j < |r| {
        assert rz[j] == r[j];
      }
    }
  }

  lemma SortedInit(o: Order, t: seq<Favorite>)
    requires t != [] && Sorted(o, t)
    ensures Sorted(o, t[..|t| - 1])
  {
  }

  lemma {:induction false} InsertSorted(o: Order, t: seq<Favorite>, x: Favorite)
    requires Sorted(o, t)
    ensures Sorted(o, Insert(o, t, x))
  {
    if t != [] {
      var init, last := t[..|t| - 1], t[|t| - 1];
      if Before(o, x, last) {
        SortedInit(o, t);
        InsertSorted(o, init, x);
        InsertMultiset(o, init, x);
        var r := Insert(o, init, x);
        forall i | 0 <= i < |r| ensures !Before(o, last, r[i]) {
          assert r[i] in multiset(r);
          if r[i] == x {
            BeforeAsymmetric(o, x, last);
          } else {
            assert r[i] in multiset(init);
            var k :| 0 <= k < |init| && init[k] == r[i];
            assert t[k] == r[i];
          }
        }
        SortedSnoc(o, r, last);
      } else {
        forall i | 0 <= i < |t| ensures !Before(o, x, t[i]) {
          if i < |t| - 1 {
            NotBeforeTransitive(o, x, last, t[i]);
          }
        }
        SortedSnoc(o, t, x);
      }
    }
  }

  lemma TiesOfSnoc(o: Order, s: seq<Favorite>, x: Favorite, y: Favorite)
    ensures TiesOf(o, s + [x], y) == TiesOf(o, s, y) + TiesOf(o, [x], y)
  {
    assert (s + [x])[..|s|] == s;
    assert [x][..0] == [];
  }

  /** Two elements that do not tie with each other never both tie with `y`. */
  lemma TiesOfSwap(o: Order, x: Favorite, z: Favorite, y: Favorite)
    requires Before(o, x, z)
    ensures TiesOf(o, [x], y) + TiesOf(o, [z], y) == TiesOf(o, [z], y) + TiesOf(o, [x], y)
  {
    TiesOfSnoc(o, [], x, y);
    TiesOfSnoc(o, [], z, y);
  }

  lemma SwapLast<T>(a: seq<T>, x: seq<T>, l: seq<T>)
    requires x + l == l + x
    ensures (a + x) + l == (a + l) + x
  {
    calc {
      (a + x) + l;
      a + (x + l);
      a + (l + x);
      (a + l) + x;
    }
  }

  lemma {:induction false} InsertTies(o: Order, t: seq<Favorite>, x: Favorite, y: Favorite)
    ensures TiesOf(o, Insert(o, t, x), y) == TiesOf(o, t, y) + TiesOf(o, [x], y)
  {
    if t == [] {
      TiesOfSnoc(o, [], x, y);
    } else if Before(o, x, t[|t| - 1]) {
      var init, last := t[..|t| - 1], t[|t| - 1];
      var r := Insert(o, init, x);
      assert Insert(o, t, x) == r + [last];
      assert t == init + [last];
      InsertTies(o, init, x, y);
      TiesOfSnoc(o, r, last, y);
      TiesOfSnoc(o, init, last, y);
      TiesOfSwap(o, x, last, y);
      SwapLast(TiesOf(o, init, y), TiesOf(o, [x], y), TiesOf(o, [last], y));
    } else {
      TiesOfSnoc(o, t, x, y);
    }
  }

  lemma {:induction false} SortBySortsOut(o: Order, s: seq<Favorite>)
    ensures Sorted(o, SortBy(o, s))
  {
    if s != [] {
      SortBySortsOut(o, s[..|s| - 1]);
      InsertSorted(o, SortBy(o, s[..|s| - 1]), s[|s| - 1]);
    }
  }

  lemma {:induction false} SortByMultiset(o: Order, s: seq<Favorite>)
    ensures multiset(SortBy(o, s)) == multiset(s)
  {
    if s != [] {
      var init, last := s[..|s| - 1], s[|s| - 1];
      SortByMultiset(o, init);
      InsertMultiset(o, SortBy(o, init), last);
      assert s == init + [last];
    }
  }

  lemma {:induction false} SortByTies(o: Order, s: seq<Favorite>, y: Favorite)
    ensures TiesOf(o, SortBy(o, s), y) == TiesOf(o, s, y)
  {
    if s != [] {
      var init, last := s[..|s| - 1], s[|s| - 1];
      SortByTies(o, init, y);
      InsertTies(o, SortBy(o, init), last, y);
      assert s == init + [last];
      TiesOfSnoc(o, init, last, y);
    }
  }

  /** The sort orders its input by the comparator, keeps every element, and keeps
      the input order of elements that tie: the guarantee of a stable sort. */
  lemma SortByFacts(o: Order, s: seq<Favorite>)
    ensures Sorted(o, SortBy(o, s))
    ensures multiset(SortBy(o, s)) == multiset(s)
    ensures forall y :: TiesOf(o, SortBy(o, s), y) == TiesOf(o, s, y)
  {
    SortBySortsOut(o, s);
    SortByMultiset(o, s);
    forall y ensures TiesOf(o, SortBy(o, s), y) == TiesOf(o, s, y) {
      SortByTies(o, s, y);
    }
  }

  /** Sorting an already sorted list leaves it as it is. */
  lemma {:induction false} SortBySorted(o: Order, s: seq<Favorite>)
    requires Sorted(o, s)
    ensures SortBy(o, s) == s
  {
    if s != [] {
      var init := s[..|s| - 1];
      assert Sorted(o, init);
      SortBySorted(o, init);
      assert s == init + [s[|s| - 1]];
    }
  }

  // ---------------------------------------------------------------- listings

  /** `getAllFavorites` on the database: `getAll` yields the records in key order,
      then they are sorted newest first. */
  function Listing(t: seq<Favorite>): seq<Favorite> {
    SortBy(NewestFirst, t)
  }

  /** The `favorites_backup` entry: `None` when it is missing or does not parse as a list. */
  type Backup = Option<seq<Favorite>>

  /** `getFavoritesFromLocalStorage`: the stored list sorted newest first, or `[]`. */
  function ReadBackup(b: Backup): seq<Favorite> {
    match b
    case None => []
    case Some(l) => SortBy(NewestFirst, l)
  }

  /** How many records carry `id`. */
  function CountId(s: seq<Favorite>, id: string): nat {
    if s == [] then 0 else CountId(s[..|s| - 1], id) + (if s[|s| - 1].id == id then 1 else 0)
  }

  /** A store in key order holds at most one record per key. */
  lemma {:induction false} KeyOrderedCount(t: seq<Favorite>, id: string)
    requires KeyOrdered(t)
    ensures CountId(t, id) == (if Has(t, id) then 1 else 0)
  {
    if t != [] {
      var init := t[..|t| - 1];
      assert KeyOrdered(init);
      KeyOrderedCount(init, id);
      if t[|t| - 1].id == id {
        forall i | 0 <= i < |init| ensures init[i].id != id {
          IdLessIrreflexive(id);
        }
      }
      assert Has(init, id) ==> Has(t, id) by {
        if Has(init, id) {
          var i :| 0 <= i < |init| && init[i].id == id;
          assert t[i].id == id;
        }
      }
      assert Has(t, id) && t[|t| - 1].id != id ==> Has(init, id) by {
        if Has(t, id) && t[|t| - 1].id != id {
          var i :| 0 <= i < |t| && t[i].id == id;
          assert init[i].id == id;
        }
      }
    }
  }

  /** Sorting and counting see the same records. */
  lemma CountIdMultiset(a: seq<Favorite>, b: seq<Favorite>, id: string)
    requires multiset(a) == multiset(b)
    ensures CountId(a, id) == CountId(b, id)
    ensures Has(a, id) <==> Has(b, id)
  {
    CountIdPermute(a, b, id);
    HasCount(a, id);
    HasCount(b, id);
  }

  lemma {:induction false} CountIdPermute(a: seq<Favorite>, b: seq<Favorite>, id: string)
    requires multiset(a) == multiset(b)
    ensures CountId(a, id) == CountId(b, id)
    decreases |a|
  {
    if a != [] {
      var init, last := a[..|a| - 1], a[|a| - 1];
      assert last in multiset(b);
      var k :| 0 <= k < |b| && b[k] == last;
      var b' := b[..k] + b[k + 1..];
      assert b == b[..k] + [last] + b[k + 1..];
      assert a == init + [last];
      assert multiset(b') == multiset(b) - multiset{last};
      assert multiset(init) == multiset(a) - multiset{last};
      CountIdPermute(init, b', id);
      CountIdSplit(b[..k], last, b[k + 1..], id);
    }
  }

  /** An id is present exactly when it is counted. */
  lemma {:induction false} HasCount(s: seq<Favorite>, id: string)
    ensures Has(s, id) <==> CountId(s, id) > 0
    decreases |s|
  {
    if s != [] {
      var init := s[..|s| - 1];
      HasCount(init, id);
      HasSplit(init, s[|s| - 1], id);
      assert s == init + [s[|s| - 1]];
    }
  }

  lemma {:induction false} CountIdAppend(a: seq<Favorite>, b: seq<Favorite>, id: string)
    ensures CountId(a + b, id) == CountId(a, id) + CountId(b, id)
    decreases |b|
  {
    if b != [] {
      CountIdAppend(a, b[..|b| - 1], id);
      assert (a + b)[..|a + b| - 1] == a + b[..|b| - 1];
    } else {
      assert a + b == a;
    }
  }

  lemma CountIdSplit(p: seq<Favorite>, x: Favorite, q: seq<Favorite>, id: string)
    ensures CountId(p + [x] + q, id) == CountId(p + q, id) + CountId([x], id)
  {
    CountIdAppend(p + [x], q, id);
    CountIdAppend(p, [x], id);
    CountIdAppend(p, q, id);
  }

  lemma HasSplit(p: seq<Favorite>, x: Favorite, id: string)
    ensures Has(p + [x], id) <==> Has(p, id) || x.id == id
  {
    if Has(p, id) {
      var i :| 0 <= i < |p| && p[i].id == id;
      assert (p + [x])[i].id == id;
    }
    if Has(p + [x], id) {
      var i :| 0 <= i < |p + [x]| && (p + [x])[i].id == id;
      if i < |p| {
        assert p[i].id == id;
      }
    }
    assert (p + [x])[|p|] == x;
  }

  lemma HasPermute(p: seq<Favorite>, x: Favorite, q: seq<Favorite>, id: string)
    ensures Has(p + [x] + q, id) <==> Has(p + q, id) || x.id == id
  {
    var s, u := p + [x] + q, p + q;
    if Has(s, id) {
      var i :| 0 <= i < |s| && s[i].id == id;
      if i < |p| {
        assert u[i].id == id;
      } else if i > |p| {
        assert u[i - 1].id == id;
      }
    }
    if Has(u, id) {
      var i :| 0 <= i < |u| && u[i].id == id;
      if i < |p| {
        assert s[i].id == id;
      } else {
        assert s[i + 1].id == id;
      }
    }
    assert s[|p|] == x;
  }

  /** `addFavoriteToLocalStorage`: the stored list, read back, with `f` pushed at the end. */
  function BackupAdd(b: Backup, f: Favorite): Backup {
    Some(ReadBackup(b) + [f])
  }

  /** `removeFavoriteFromLocalStorage`: the stored list, read back, without `id`. */
  function BackupRemove(b: Backup, id: string): Backup {
    Some(Delete(ReadBackup(b), id))
  }

  /** The `backupToLocalStorage` snapshot taken after a database write. */
  function Snapshot(t: seq<Favorite>): Backup {
    Some(Listing(t))
  }

  /** A put makes the id a favorite with exactly one record, and leaves every other id as it was. */
  lemma PutFound(t: seq<Favorite>, f: Favorite)
    requires KeyOrdered(t)
    ensures Has(Put(t, f), f.id) && CountId(Put(t, f), f.id) == 1
    ensures forall id :: id != f.id ==> (Has(Put(t, f), id) <==> Has(t, id))
  {
    PutFacts(t, f);
    AsMapKeys(t);
    AsMapKeys(Put(t, f));
    KeyOrderedCount(Put(t, f), f.id);
  }

  /** A delete removes the id and leaves every other id as it was. */
  lemma DeleteGone(t: seq<Favorite>, id: string)
    requires KeyOrdered(t)
    ensures !Has(Delete(t, id), id)
    ensures forall other :: other != id ==> (Has(Delete(t, id), other) <==> Has(t, other))
  {
    DeleteMap(t, id);
    AsMapKeys(t);
    AsMapKeys(Delete(t, id));
  }

  /** Storing a favorite in the fallback does not look for an existing entry:
      its id gains one more entry and no other id changes. */
  lemma BackupAddFacts(b: Backup, f: Favorite)
    ensures Has(ReadBackup(BackupAdd(b, f)), f.id)
    ensures CountId(ReadBackup(BackupAdd(b, f)), f.id) == CountId(ReadBackup(b), f.id) + 1
    ensures forall id :: id != f.id ==> CountId(ReadBackup(BackupAdd(b, f)), id) == CountId(ReadBackup(b), id)
  {
    var l := ReadBackup(b) + [f];
    SortByFacts(NewestFirst, l);
    CountIdMultiset(SortBy(NewestFirst, l), l, f.id);
    HasSplit(ReadBackup(b), f, f.id);
    forall id | id != f.id
      ensures CountId(ReadBackup(BackupAdd(b, f)), id) == CountId(ReadBackup(b), id)
    {
      CountIdMultiset(SortBy(NewestFirst, l), l, id);
      assert l[..|l| - 1] == ReadBackup(b);
    }
    assert l[..|l| - 1] == ReadBackup(b);
  }

  /** Removing from the fallback drops every entry with the id and keeps all the others. */
  lemma BackupRemoveFacts(b: Backup, id: string)
    ensures !Has(ReadBackup(BackupRemove(b, id)), id)
    ensures forall g :: g in ReadBackup(BackupRemove(b, id)) <==> g in ReadBackup(b) && g.id != id
    ensures CountId(ReadBackup(BackupRemove(b, id)), id) == 0
    ensures forall other :: other != id ==> CountId(ReadBackup(BackupRemove(b, id)), other) == CountId(ReadBackup(b), other)
  {
    var l := Delete(ReadBackup(b), id);
    var r := ReadBackup(BackupRemove(b, id));
    DeleteMembers(ReadBackup(b), id);
    SortByFacts(NewestFirst, l);
    assert forall g :: g in r <==> g in multiset(l);
    forall i | 0 <= i < |r| ensures r[i].id != id {
      assert r[i] in r;
    }
    forall other ensures CountId(r, other) == if other == id then 0 else CountId(ReadBackup(b), other) {
      CountIdMultiset(r, l, other);
      DeleteCount(ReadBackup(b), id, other);
    }
  }

  /** The filter drops every entry with the id and keeps every entry of the others. */
  lemma {:induction false} DeleteCount(t: seq<Favorite>, id: string, other: string)
    ensures CountId(Delete(t, id), other) == if other == id then 0 else CountId(t, other)
    decreases |t|
  {
    if t != [] {
      var rest := Delete(t[1..], id);
      DeleteCount(t[1..], id, other);
      assert t == [t[0]] + t[1..];
      CountIdAppend([t[0]], t[1..], other);
      assert CountId([t[0]], other) == if t[0].id == other then 1 else 0 by {
        assert [t[0]][..0] == [];
      }
      if t[0].id != id {
        CountIdAppend([t[0]], rest, other);
      }
    }
  }

  /** The snapshot holds exactly the database's records, one per id, and the
      fallback read returns it as `getAllFavorites` did. */
  lemma SnapshotFacts(t: seq<Favorite>)
    requires KeyOrdered(t)
    ensures ReadBackup(Snapshot(t)) == Listing(t)
    ensures forall id :: Has(ReadBackup(Snapshot(t)), id) <==> Has(t, id)
    ensures forall id :: CountId(ReadBackup(Snapshot(t)), id) <= 1
  {
    SortByFacts(NewestFirst, t);
    SortBySorted(NewestFirst, Listing(t));
    forall id ensures (Has(Listing(t), id) <==> Has(t, id)) && CountId(Listing(t), id) <= 1 {
      CountIdMultiset(Listing(t), t, id);
      KeyOrderedCount(t, id);
    }
  }

  // ---------------------------------------------------------------- grouping by book

  /** One entry of the `Map` `getFavoritesByBook` returns. */
  datatype Group = Group(bookName: string, verses: seq<Favorite>)

  /** `grouped.has(name)`: the position of the group for `name`. */
  function Find(gs: seq<Group>, name: string): (r: Option<nat>)
    ensures r.Some? ==> r.value < |gs| && gs[r.value].bookName == name
    ensures r.None? ==> forall i :: 0 <= i < |gs| ==> gs[i].bookName != name
  {
    if gs == [] then None
    else if gs[0].bookName == name then Some(0)
    else match Find(gs[1..], name)
      case None => None
      case Some(i) => Some(i + 1)
  }

  /** One step of the `forEach`: push `f` onto its book's group, opening the group at the end if new. */
  function AddToGroups(gs: seq<Group>, f: Favorite): seq<Group> {
    match Find(gs, f.bookName)
    case Some(i) => gs[i := Group(gs[i].bookName, gs[i].verses + [f])]
    case None => gs + [Group(f.bookName, [f])]
  }

  /** The groups after the `forEach` over `favs`, in the order books first appear. */
  function Grouped(favs: seq<Favorite>): seq<Group> {
    if favs == [] then [] else AddToGroups(Grouped(favs[..|favs| - 1]), favs[|favs| - 1])
  }

  /** The favorites of one book, in their order. */
  function OfBook(favs: seq<Favorite>, name: string): seq<Favorite> {
    if favs == [] then []
    else OfBook(favs[..|favs| - 1], name) + (if favs[|favs| - 1].bookName == name then [favs[|favs| - 1]] else [])
  }

  /** The number of favorites over all groups. */
  function TotalSize(gs: seq<Group>): nat {
    if gs == [] then 0 else TotalSize(gs[..|gs| - 1]) + |gs[|gs| - 1].verses|
  }

  lemma {:induction false} TotalSizeUpdate(gs: seq<Group>, i: nat, g: Group)
    requires i < |gs|
    ensures TotalSize(gs[i := g]) + |gs[i].verses| == TotalSize(gs) + |g.verses|
  {
    var n := |gs| - 1;
    if i < n {
      TotalSizeUpdate(gs[..n], i, g);
      assert gs[i := g][..n] == gs[..n][i := g];
    } else {
      assert gs[i := g][..n] == gs[..n];
    }
  }

  /** The groups have distinct book names; each holds exactly its book's favorites
      in list order; every favorite's book has a group; no favorite is lost. */
  ghost predicate GroupsOf(gs: seq<Group>, favs: seq<Favorite>) {
    && (forall i, j :: 0 <= i < j < |gs| ==> gs[i].bookName != gs[j].bookName)
    && (forall i :: 0 <= i < |gs| ==> gs[i].verses == OfBook(favs, gs[i].bookName) && gs[i].verses != [])
    && (forall k :: 0 <= k < |favs| ==> Find(gs, favs[k].bookName).Some?)
    && TotalSize(gs) == |favs|
  }

  lemma {:induction false} GroupedCovers(favs: seq<Favorite>)
    ensures forall k :: 0 <= k < |favs| ==> Find(Grouped(favs), favs[k].bookName).Some?
  {
    if favs != [] {
      var init, f := favs[..|favs| - 1], favs[|favs| - 1];
      GroupedCovers(init);
      var gs := Grouped(init);
      var r := Grouped(favs);
      forall k | 0 <= k < |favs| ensures Find(r, favs[k].bookName).Some? {
        if k < |init| {
          assert init[k] == favs[k];
          var j := Find(gs, favs[k].bookName).value;
          if Find(gs, f.bookName).None? {
            assert r[j] == gs[j];
          }
          assert r[j].bookName == favs[k].bookName;
        } else if Find(gs, f.bookName).None? {
          assert r[|gs|].bookName == f.bookName;
        } else {
          var i := Find(gs, f.bookName).value;
          assert r[i].bookName == f.bookName;
        }
      }
    }
  }

  lemma {:induction false} GroupedSize(favs: seq<Favorite>)
    ensures TotalSize(Grouped(favs)) == |favs|
  {
    if favs != [] {
      var init, f := favs[..|favs| - 1], favs[|favs| - 1];
      GroupedSize(init);
      var gs := Grouped(init);
      var r := Grouped(favs);
      match Find(gs, f.bookName)
      case Some(i) =>
        TotalSizeUpdate(gs, i, Group(gs[i].bookName, gs[i].verses + [f]));
      case None =>
        assert r[..|r| - 1] == gs;
    }
  }

  lemma {:induction false} GroupedContents(favs: seq<Favorite>)
    ensures forall i, j :: 0 <= i < j < |Grouped(favs)| ==> Grouped(favs)[i].bookName != Grouped(favs)[j].bookName
    ensures forall i :: 0 <= i < |Grouped(favs)| ==>
      Grouped(favs)[i].verses == OfBook(favs, Grouped(favs)[i].bookName) && Grouped(favs)[i].verses != []
  {
    if favs != [] {
      var init, f := favs[..|favs| - 1], favs[|favs| - 1];
      GroupedContents(init);
      GroupedCovers(init);
      var gs := Grouped(init);
      match Find(gs, f.bookName)
      case Some(i) =>
      case None =>
        OfBookEmpty(init, f.bookName, gs);
    }
  }

  /** Book `a` first appears in the listing before every favorite of book `b`. */
  ghost predicate FirstBefore(favs: seq<Favorite>, a: string, b: string) {
    forall k :: 0 <= k < |favs| && favs[k].bookName == b ==> exists m :: 0 <= m < k && favs[m].bookName == a
  }

  /** A book with favorites has one in the listing. */
  lemma OfBookWitness(favs: seq<Favorite>, name: string)
    requires OfBook(favs, name) != []
    ensures exists m :: 0 <= m < |favs| && favs[m].bookName == name
  {
    var g := OfBook(favs, name)[0];
    OfBookFacts(favs, name);
    assert g in OfBook(favs, name);
    assert g in multiset(favs);
  }

  lemma FirstBeforeExtend(init: seq<Favorite>, f: Favorite, a: string, b: string)
    requires FirstBefore(init, a, b)
    requires exists m :: 0 <= m < |init| && init[m].bookName == a
    ensures FirstBefore(init + [f], a, b)
  {
    var favs := init + [f];
    forall k | 0 <= k < |favs| && favs[k].bookName == b ensures exists m :: 0 <= m < k && favs[m].bookName == a {
      if k < |init| {
        assert init[k].bookName == b;
        var m :| 0 <= m < k && init[m].bookName == a;
        assert favs[m] == init[m];
      } else {
        var m :| 0 <= m < |init| && init[m].bookName == a;
        assert favs[m] == init[m];
      }
    }
  }

  lemma FirstBeforeNewBook(init: seq<Favorite>, f: Favorite, a: string)
    requires forall k :: 0 <= k < |init| ==> init[k].bookName != f.bookName
    requires exists m :: 0 <= m < |init| && init[m].bookName == a
    ensures FirstBefore(init + [f], a, f.bookName)
  {
    var favs := init + [f];
    forall k | 0 <= k < |favs| && favs[k].bookName == f.bookName ensures exists m :: 0 <= m < k && favs[m].bookName == a {
      var m :| 0 <= m < |init| && init[m].bookName == a;
      assert favs[m] == init[m];
    }
  }

  /** The `Map` keeps its groups in the order in which their books first
      appear in the listing. */
  lemma {:induction false} GroupedOrder(favs: seq<Favorite>)
    ensures forall i, j :: 0 <= i < j < |Grouped(favs)| ==>
      FirstBefore(favs, Grouped(favs)[i].bookName, Grouped(favs)[j].bookName)
  {
    if favs != [] {
      var init, f := favs[..|favs| - 1], favs[|favs| - 1];
      assert favs == init + [f];
      GroupedOrder(init);
      GroupedContents(init);
      GroupedCovers(init);
      var gs0, gs := Grouped(init), Grouped(favs);
      forall i | 0 <= i < |gs0| ensures exists m :: 0 <= m < |init| && init[m].bookName == gs0[i].bookName {
        OfBookWitness(init, gs0[i].bookName);
      }
      match Find(gs0, f.bookName)
      case Some(x) =>
        forall i, j | 0 <= i < j < |gs| ensures FirstBefore(favs, gs[i].bookName, gs[j].bookName) {
          assert gs[i].bookName == gs0[i].bookName && gs[j].bookName == gs0[j].bookName;
          FirstBeforeExtend(init, f, gs0[i].bookName, gs0[j].bookName);
        }
      case None =>
        forall k | 0 <= k < |init| ensures init[k].bookName != f.bookName {
          assert Find(gs0, init[k].bookName).Some?;
        }
        forall i, j | 0 <= i < j < |gs| ensures FirstBefore(favs, gs[i].bookName, gs[j].bookName) {
          assert gs[i] == gs0[i];
          if j < |gs0| {
            assert gs[j] == gs0[j];
            FirstBeforeExtend(init, f, gs0[i].bookName, gs0[j].bookName);
          } else {
            assert gs[j].bookName == f.bookName;
            FirstBeforeNewBook(init, f, gs0[i].bookName);
          }
        }
    }
  }

  lemma GroupedFacts(favs: seq<Favorite>)
    ensures GroupsOf(Grouped(favs), favs)
  {
    GroupedCovers(favs);
    GroupedSize(favs);
    GroupedContents(favs);
  }

  /** A book without a group has no favorites. */
  lemma {:induction false} OfBookEmpty(favs: seq<Favorite>, name: string, gs: seq<Group>)
    requires forall k :: 0 <= k < |favs| ==> Find(gs, favs[k].bookName).Some?
    requires Find(gs, name).None?
    ensures OfBook(favs, name) == []
  {
    if favs != [] {
      var init := favs[..|favs| - 1];
      forall k | 0 <= k < |init| ensures Find(gs, init[k].bookName).Some? {
        assert init[k] == favs[k];
      }
      OfBookEmpty(init, name, gs);
    }
  }

  /** The favorites of one book are those of the list with that book name, each as often as in the list. */
  lemma {:induction false} OfBookFacts(favs: seq<Favorite>, name: string)
    ensures forall g :: g in OfBook(favs, name) ==> g.bookName == name
    ensures forall g: Favorite :: g.bookName == name ==> multiset(OfBook(favs, name))[g] == multiset(favs)[g]
  {
    if favs != [] {
      OfBookFacts(favs[..|favs| - 1], name);
      assert favs == favs[..|favs| - 1] + [favs[|favs| - 1]];
    }
  }

  /** `grouped.forEach(verses => verses.sort(...))`: each group by chapter, then verse. */
  function SortGroups(gs: seq<Group>): (r: seq<Group>)
    ensures |r| == |gs|
  {
    seq(|gs|, i requires 0 <= i < |gs| => Group(gs[i].bookName, SortBy(ByChapterVerse, gs[i].verses)))
  }

  /** The result of `getFavoritesByBook` on the listing `favs`. */
  function FavoritesByBook(favs: seq<Favorite>): seq<Group> {
    SortGroups(Grouped(favs))
  }

  lemma {:induction false} SortGroupsSize(gs: seq<Group>)
    ensures TotalSize(SortGroups(gs)) == TotalSize(gs)
  {
    if gs != [] {
      var n := |gs| - 1;
      SortGroupsSize(gs[..n]);
      assert SortGroups(gs)[..n] == SortGroups(gs[..n]);
      SortByFacts(ByChapterVerse, gs[n].verses);
      assert |SortBy(ByChapterVerse, gs[n].verses)| == |multiset(gs[n].verses)|;
    }
  }

  /** One group of the result: its book's favorites, each as often as in the
      listing `favs` and nothing else, ordered by chapter and verse with ties in
      listing order. */
  ghost predicate ShowsBook(favs: seq<Favorite>, g: Group) {
    && g.verses != [] && Sorted(ByChapterVerse, g.verses)
    && (forall f :: f in g.verses ==> f.bookName == g.bookName)
    && (forall f: Favorite :: f.bookName == g.bookName ==> multiset(g.verses)[f] == multiset(favs)[f])
    && (forall y :: TiesOf(ByChapterVerse, g.verses, y) == TiesOf(ByChapterVerse, OfBook(favs, g.bookName), y))
  }

  lemma SortedGroupFacts(favs: seq<Favorite>, name: string)
    requires OfBook(favs, name) != []
    ensures ShowsBook(favs, Group(name, SortBy(ByChapterVerse, OfBook(favs, name))))
  {
    var verses := OfBook(favs, name);
    var sorted := SortBy(ByChapterVerse, verses);
    SortByFacts(ByChapterVerse, verses);
    OfBookFacts(favs, name);
    assert |sorted| == |multiset(verses)|;
    forall g | g in sorted ensures g.bookName == name {
      assert g in multiset(verses);
    }
  }

  /** The groups of the listing name each of its books exactly once. */
  lemma ByBookNames(favs: seq<Favorite>)
    ensures var r := FavoritesByBook(favs);
      && (forall i, j :: 0 <= i < j < |r| ==> r[i].bookName != r[j].bookName)
      && (forall k :: 0 <= k < |favs| ==> exists i :: 0 <= i < |r| && r[i].bookName == favs[k].bookName)
  {
    var gs := Grouped(favs);
    var r := FavoritesByBook(favs);
    GroupedFacts(favs);
    forall i | 0 <= i < |r| ensures r[i].bookName == gs[i].bookName {
    }
    forall k | 0 <= k < |favs| ensures exists i :: 0 <= i < |r| && r[i].bookName == favs[k].bookName {
      var i := Find(gs, favs[k].bookName).value;
      assert r[i].bookName == favs[k].bookName;
    }
  }

  /** Each group of the listing shows its book's favorites, sorted. */
  lemma ByBookShows(favs: seq<Favorite>)
    ensures var r := FavoritesByBook(favs);
      forall i :: 0 <= i < |r| ==> ShowsBook(favs, r[i])
  {
    var gs := Grouped(favs);
    var r := FavoritesByBook(favs);
    GroupedFacts(favs);
    forall i | 0 <= i < |r| ensures ShowsBook(favs, r[i]) {
      assert r[i] == Group(gs[i].bookName, SortBy(ByChapterVerse, OfBook(favs, gs[i].bookName)));
      SortedGroupFacts(favs, gs[i].bookName);
    }
  }

  /** The listing's groups come in the order in which their books first appear. */
  lemma ByBookOrder(favs: seq<Favorite>)
    ensures var r := FavoritesByBook(favs);
      forall i, j :: 0 <= i < j < |r| ==> FirstBefore(favs, r[i].bookName, r[j].bookName)
  {
    var gs := Grouped(favs);
    GroupedOrder(favs);
    assert forall i :: 0 <= i < |gs| ==> FavoritesByBook(favs)[i].bookName == gs[i].bookName;
  }

  /** Every book of the listing has exactly one group, each showing that book's
      favorites, and the sizes add up to the listing's. */
  lemma ByBookFacts(favs: seq<Favorite>)
    ensures var r := FavoritesByBook(favs);
      && (forall i, j :: 0 <= i < j < |r| ==> r[i].bookName != r[j].bookName)
      && (forall k :: 0 <= k < |favs| ==> exists i :: 0 <= i < |r| && r[i].bookName == favs[k].bookName)
      && (forall i :: 0 <= i < |r| ==> ShowsBook(favs, r[i]))
      && TotalSize(r) == |favs|
  {
    ByBookNames(favs);
    ByBookShows(favs);
    GroupedFacts(favs);
    SortGroupsSize(Grouped(favs));
  }

  /** The `forEach` that fills the `Map` of groups. */
  method GroupByBook(favs: seq<Favorite>) returns (gs: seq<Group>)
    ensures gs == Grouped(favs)
  {
    gs := [];
    var i := 0;
    while i < |favs|
      invariant 0 <= i <= |favs|
      invariant gs == Grouped(favs[..i])
    {
      var f := favs[i];
      assert favs[..i + 1][..i] == favs[..i];
      ghost var before := gs;
      var at := Find(gs, f.bookName);
      if at.None? {
        gs := gs + [Group(f.bookName, [])];
        at := Some(|gs| - 1);
      }
      gs := gs[at.value := Group(f.bookName, gs[at.value].verses + [f])];
      assert [] + [f] == [f];
      assert gs == AddToGroups(before, f);
      i := i + 1;
    }
    assert favs[..i] == favs;
  }

  /** The `forEach` that sorts every group in place. */
  method SortEachGroup(groups: seq<Group>) returns (gs: seq<Group>)
    ensures gs == SortGroups(groups)
  {
    gs := groups;
    var i := 0;
    while i < |gs|
      invariant 0 <= i <= |gs| == |groups|
      invariant forall j :: 0 <= j < i ==> gs[j] == SortGroups(groups)[j]
      invariant forall j :: i <= j < |gs| ==> gs[j] == groups[j]
    {
      gs := gs[i := Group(gs[i].bookName, SortBy(ByChapterVerse, gs[i].verses))];
      i := i + 1;
    }
  }

  // ---------------------------------------------------------------- the store

  /** The IndexedDB request fired `onerror`: the returned promise rejects. */
  datatype Failure = RequestFailed

  /** The favorites of one browser profile. Each operation receives whether
      `indexedDB.open` succeeds (`openOk`, consulted only while no connection is
      held) and whether its own request succeeds (`requestOk`). */
  class FavoritesStore {
    /** `dbInstance !== null`. */
    var connected: bool
    /** The `favorites` object store, in key order. */
    var records: seq<Favorite>
    /** The `favorites_backup` entry of `localStorage`. */
    var backup: Backup

    ghost predicate Valid()
      reads this
    {
      KeyOrdered(records)
    }

    /** A page load: no connection yet, `stored` in the database and `saved` in `localStorage`. */
    constructor (stored: seq<Favorite>, saved: Backup)
      requires KeyOrdered(stored)
      ensures Valid() && !connected && records == stored && backup == saved
    {
      connected := false;
      records := stored;
      backup := saved;
    }

    /** `initDB`: reuses the connection, or opens one. */
    method InitDB(openOk: bool) returns (ok: bool)
      modifies this
      ensures ok == (old(connected) || openOk) && connected == ok
      ensures records == old(records) && backup == old(backup)
    {
      if !connected && openOk {
        connected := true;
      }
      ok := connected;
    }

    /** `addFavorite`. */
    method AddFavorite(v: VerseInput, now: int, openOk: bool, requestOk: bool) returns (r: Result<(), Failure>)
      requires Valid()
      modifies this
      ensures Valid() && connected == (old(connected) || openOk)
      ensures var f := MakeFavorite(v, now);
        if !connected then r.Ok? && records == old(records) && backup == BackupAdd(old(backup), f)
        else if !requestOk then r == Err(RequestFailed) && records == old(records) && backup == old(backup)
        else r.Ok? && records == Put(old(records), f) && backup == Snapshot(records)
    {
      var f := MakeFavorite(v, now);
      var ok := InitDB(openOk);
      if !ok {
        backup := BackupAdd(backup, f);
        return Ok(());
      }
      if !requestOk {
        return Err(RequestFailed);
      }
      PutFacts(records, f);
      records := Put(records, f);
      backup := Snapshot(records);
      r := Ok(());
    }

    /** `removeFavorite`. */
    method RemoveFavorite(id: string, openOk: bool, requestOk: bool) returns (r: Result<(), Failure>)
      requires Valid()
      modifies this
      ensures Valid() && connected == (old(connected) || openOk)
      ensures if !connected then r.Ok? && records == old(records) && backup == BackupRemove(old(backup), id)
        else if !requestOk then r == Err(RequestFailed) && records == old(records) && backup == old(backup)
        else r.Ok? && records == Delete(old(records), id) && backup == Snapshot(records)
    {
      var ok := InitDB(openOk);
      if !ok {
        backup := BackupRemove(backup, id);
        return Ok(());
      }
      if !requestOk {
        return Err(RequestFailed);
      }
      DeleteOrdered(records, id);
      records := Delete(records, id);
      backup := Snapshot(records);
      r := Ok(());
    }

    /** `getAllFavorites`. */
    method GetAllFavorites(openOk: bool, requestOk: bool) returns (r: Result<seq<Favorite>, Failure>)
      requires Valid()
      modifies this
      ensures Valid() && connected == (old(connected) || openOk)
      ensures records == old(records) && backup == old(backup)
      ensures if !connected then r == Ok(ReadBackup(backup))
        else if !requestOk then r == Err(RequestFailed)
        else r == Ok(Listing(records))
    {
      var ok := InitDB(openOk);
      if !ok {
        return Ok(ReadBackup(backup));
      }
      if !requestOk {
        return Err(RequestFailed);
      }
      r := Ok(Listing(records));
    }

    /** `isFavorite`. */
    method IsFavorite(bookName: string, chapter: int, verse: int, openOk: bool, requestOk: bool) returns (r: Result<bool, Failure>)
      requires Valid()
      modifies this
      ensures Valid() && connected == (old(connected) || openOk)
      ensures records == old(records) && backup == old(backup)
      ensures var id := FavoriteId(bookName, chapter, verse);
        if !connected then r == Ok(Has(ReadBackup(backup), id))
        else if !requestOk then r == Err(RequestFailed)
        else r == Ok(Has(records, id))
    {
      var id := FavoriteId(bookName, chapter, verse);
      var ok := InitDB(openOk);
      if !ok {
        return Ok(Has(ReadBackup(backup), id));
      }
      if !requestOk {
        return Err(RequestFailed);
      }
      r := Ok(Has(records, id));
    }

    /** `getFavoritesByBook`. */
    method GetFavoritesByBook(openOk: bool, requestOk: bool) returns (r: Result<seq<Group>, Failure>)
      requires Valid()
      modifies this
      ensures Valid() && connected == (old(connected) || openOk)
      ensures records == old(records) && backup == old(backup)
      ensures if !connected then r == Ok(FavoritesByBook(ReadBackup(backup)))
        else if !requestOk then r == Err(RequestFailed)
        else r == Ok(FavoritesByBook(Listing(records)))
    {
      var all := GetAllFavorites(openOk, requestOk);
      if all.Err? {
        return Err(all.error);
      }
      var grouped := GroupByBook(all.value);
      grouped := SortEachGroup(grouped);
      r := Ok(grouped);
    }
  }
}
