/** The re-sort after an add (src/App.tsx:157-161): a stable sort of the list
    by a string key under an abstract comparator `le`, standing for
    `localeCompare(a, b) <= 0`. Locale collation is not specified here; only
    the properties of a consistent comparator (a total preorder) are assumed,
    and only where a property needs them. Insertion sort is stable: entries
    the comparator ranks equal keep their relative order (SortByStable). */
module Sorting {
  import opened Seqs

  /** `le` is total and transitive: what a consistent comparator gives. */
  ghost predicate TotalPreorder(le: (string, string) -> bool)
  {
    && (forall a, b :: le(a, b) || le(b, a))
    && (forall a, b, c :: le(a, b) && le(b, c) ==> le(a, c))
  }

  /** Keys never decrease from left to right. */
  ghost predicate SortedBy<T>(s: seq<T>, key: T -> string, le: (string, string) -> bool)
  {
    forall i, j :: 0 <= i < j < |s| ==> le(key(s[i]), key(s[j]))
  }

  /** Inserts `x` after every element whose key is not above its own. */
  function Insert<T>(s: seq<T>, x: T, key: T -> string, le: (string, string) -> bool): (r: seq<T>)
    ensures |r| == |s| + 1
    ensures multiset(r) == multiset(s) + multiset{x}
  {
    if s == [] then [x]
    else if !le(key(s[0]), key(x)) then [x] + s
    else
      assert s == [s[0]] + s[1..];
      [s[0]] + Insert(s[1..], x, key, le)
  }

  /** `Array.prototype.sort` with the comparator on `key`: a stable sort,
      here as insertion sort. The result is a permutation of `s`. */
  function SortBy<T>(s: seq<T>, key: T -> string, le: (string, string) -> bool): (r: seq<T>)
    ensures |r| == |s|
    ensures multiset(r) == multiset(s)
  {
    if s == [] then []
    else
      assert s == s[..|s| - 1] + [s[|s| - 1]];
      Insert(SortBy(s[..|s| - 1], key, le), s[|s| - 1], key, le)
  }

  /** Inserting into a sorted sequence keeps it sorted. */
  lemma {:induction false} InsertSorted<T>(s: seq<T>, x: T, key: T -> string, le: (string, string) -> bool)
    requires TotalPreorder(le) && SortedBy(s, key, le)
    ensures SortedBy(Insert(s, x, key, le), key, le)
  {
    if s == [] {
    } else if !le(key(s[0]), key(x)) {
      assert le(key(x), key(s[0]));
    } else {
      var tail := Insert(s[1..], x, key, le);
      InsertSorted(s[1..], x, key, le);
      var r := [s[0]] + tail;
      forall j | 0 < j < |r|
        ensures le(key(s[0]), key(r[j]))
      {
        assert r[j] in multiset(tail);
        if r[j] != x {
          assert r[j] in s[1..];
        }
      }
    }
  }

  /** For a consistent comparator the sort result is sorted. */
  lemma {:induction false} SortBySorted<T>(s: seq<T>, key: T -> string, le: (string, string) -> bool)
    requires TotalPreorder(le)
    ensures SortedBy(SortBy(s, key, le), key, le)
  {
    if s != [] {
      SortBySorted(s[..|s| - 1], key, le);
      InsertSorted(SortBy(s[..|s| - 1], key, le), s[|s| - 1], key, le);
    }
  }

  /** The entries whose key is `w`. */
  function KeyIs<T>(key: T -> string, w: string): T -> bool
  {
    (y: T) => key(y) == w
  }

  /** The entries whose key the comparator ranks equal to `w`: `le` holds
      both ways, as when `localeCompare` returns 0. */
  function EquivTo<T>(key: T -> string, le: (string, string) -> bool, w: string): T -> bool
  {
    (y: T) => le(key(y), w) && le(w, key(y))
  }

  /** Any two entries passing `p` are ranked equal by the comparator. */
  ghost predicate RankedEqual<T(!new)>(p: T -> bool, key: T -> string, le: (string, string) -> bool)
  {
    forall y, z :: p(y) && p(z) ==> le(key(y), key(z))
  }

  /** Under a consistent comparator, inserting into a sorted sequence puts
      `x` after every entry ranked equal to it. */
  lemma {:induction false} InsertFilter<T(!new)>(s: seq<T>, x: T, key: T -> string, le: (string, string) -> bool, p: T -> bool)
    requires TotalPreorder(le) && SortedBy(s, key, le) && RankedEqual(p, key, le)
    ensures Filter(Insert(s, x, key, le), p) == Filter(s, p) + (if p(x) then [x] else [])
  {
    if s == [] || !le(key(s[0]), key(x)) {
      InsertFront(s, x, key, le, p);
    } else {
      InsertAfter(s, x, key, le);
      assert SortedBy(s[1..], key, le);
      InsertFilter(s[1..], x, key, le, p);
      FilterConsBoth(s[0], Insert(s[1..], x, key, le), s[1..], Insert(s, x, key, le), s,
        p, if p(x) then [x] else []);
    }
  }

  /** When `x` goes in front of a sorted sequence, possibly empty, no entry
      of the sequence is ranked equal to `x`, so the order among entries
      ranked equal is unaffected. */
  lemma InsertFront<T(!new)>(s: seq<T>, x: T, key: T -> string, le: (string, string) -> bool, p: T -> bool)
    requires TotalPreorder(le) && SortedBy(s, key, le) && RankedEqual(p, key, le)
    requires s == [] || !le(key(s[0]), key(x))
    ensures Filter(Insert(s, x, key, le), p) == Filter(s, p) + (if p(x) then [x] else [])
  {
    InsertBefore(s, x, key, le);
    if p(x) {
      NoneRankedEqual(s, x, key, le, p);
    }
    FilterFront(x, s, Insert(s, x, key, le), p);
  }

  /** Every entry of a sorted sequence whose head lies above `key(x)` lies
      above it too, so none is ranked equal to `x`. */
  lemma NoneRankedEqual<T(!new)>(s: seq<T>, x: T, key: T -> string, le: (string, string) -> bool, p: T -> bool)
    requires TotalPreorder(le) && SortedBy(s, key, le) && RankedEqual(p, key, le)
    requires s == [] || !le(key(s[0]), key(x))
    requires p(x)
    ensures Filter(s, p) == []
  {
  }

  /** The sort keeps the relative order of any entries the comparator ranks
      equal to one another. */
  lemma {:induction false} SortByStableFor<T(!new)>(s: seq<T>, key: T -> string, le: (string, string) -> bool, p: T -> bool)
    requires TotalPreorder(le) && RankedEqual(p, key, le)
    ensures Filter(SortBy(s, key, le), p) == Filter(s, p)
  {
    if s != [] {
      var init, x := s[..|s| - 1], s[|s| - 1];
      SortByStableFor(init, key, le, p);
      SortBySorted(init, key, le);
      InsertFilter(SortBy(init, key, le), x, key, le, p);
      SortByLast(s, key, le);
      FilterSnocBoth(init, x, s, SortBy(init, key, le), SortBy(s, key, le), p);
    }
  }

  /** The sort is stable, as `Array.prototype.sort` is: for every `w`, the
      entries whose key the comparator ranks equal to `w` come out in the
      order they went in. */
  lemma SortByStable<T(!new)>(s: seq<T>, key: T -> string, le: (string, string) -> bool, w: string)
    requires TotalPreorder(le)
    ensures Filter(SortBy(s, key, le), EquivTo(key, le, w)) == Filter(s, EquivTo(key, le, w))
  {
    SortByStableFor(s, key, le, EquivTo(key, le, w));
  }

  /** In particular, the entries with any one key keep their order. */
  lemma SortByKeepsKeyOrder<T(!new)>(s: seq<T>, key: T -> string, le: (string, string) -> bool, w: string)
    requires TotalPreorder(le)
    ensures Filter(SortBy(s, key, le), KeyIs(key, w)) == Filter(s, KeyIs(key, w))
  {
    assert le(w, w);
    SortByStableFor(s, key, le, KeyIs(key, w));
  }

  /** `Insert` puts `x` in front of a head above it, or alone into the empty
      sequence. */
  lemma InsertBefore<T>(s: seq<T>, x: T, key: T -> string, le: (string, string) -> bool)
    requires s == [] || !le(key(s[0]), key(x))
    ensures Insert(s, x, key, le) == [x] + s
  {
  }

  /** `Insert` puts `x` behind a head not above it. */
  lemma InsertAfter<T>(s: seq<T>, x: T, key: T -> string, le: (string, string) -> bool)
    requires s != [] && le(key(s[0]), key(x))
    ensures s == [s[0]] + s[1..]
    ensures Insert(s, x, key, le) == [s[0]] + Insert(s[1..], x, key, le)
  {
  }

  /** `SortBy` inserts the last element into the sorted rest. */
  lemma SortByLast<T>(s: seq<T>, key: T -> string, le: (string, string) -> bool)
    requires s != []
    ensures s == s[..|s| - 1] + [s[|s| - 1]]
    ensures SortBy(s, key, le) == Insert(SortBy(s[..|s| - 1], key, le), s[|s| - 1], key, le)
  {
    FrontLast(s);
  }
}
