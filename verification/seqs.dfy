/** Generic sequence helpers used throughout the model: an Option type for the
    JavaScript values that may be `null`/`undefined`, and the array methods the
    component relies on (`filter`, `find`, `slice`), each with a specification
    independent of how it is computed. */
module Seqs {

  /** `undefined`/`null` versus a present value. */
  datatype Option<T> = None | Some(value: T)

  function Min(a: int, b: int): int
  {
    if a <= b then a else b
  }

  /** `a` is obtained from `b` by deleting zero or more elements (greedy matching
      is complete for the subsequence relation). */
  ghost predicate IsSubseq<T>(a: seq<T>, b: seq<T>)
    decreases |b|
  {
    if a == [] then true
    else if b == [] then false
    else if a[0] == b[0] then IsSubseq(a[1..], b[1..])
    else IsSubseq(a, b[1..])
  }

  /** `Array.prototype.filter`: keeps exactly the elements satisfying `p`, with
      their multiplicities, in their original relative order. */
  function Filter<T(!new)>(s: seq<T>, p: T -> bool): (r: seq<T>)
    ensures forall x :: x in r ==> p(x)
    ensures forall x :: multiset(r)[x] == if p(x) then multiset(s)[x] else 0
    ensures IsSubseq(r, s)
  {
    if s == [] then []
    else
      assert s == [s[0]] + s[1..];
      var rest := Filter(s[1..], p);
      if p(s[0]) then [s[0]] + rest
      else
        assert rest != [] ==> rest[0] != s[0];
        rest
  }

  /** Filtering, one element at a time. */
  lemma FilterCons<T(!new)>(x: T, s: seq<T>, p: T -> bool)
    ensures Filter([x] + s, p) == (if p(x) then [x] else []) + Filter(s, p)
  {
    assert ([x] + s)[1..] == s;
  }

  /** Filtering a sequence with one more element at the end. */
  lemma {:induction false} FilterSnoc<T(!new)>(s: seq<T>, x: T, p: T -> bool)
    ensures Filter(s + [x], p) == Filter(s, p) + (if p(x) then [x] else [])
  {
    var e := if p(x) then [x] else [];
    if s == [] {
      assert s + [x] == [x] + [];
      FilterCons(x, [], p);
    } else {
      var t := s[1..];
      assert s + [x] == [s[0]] + (t + [x]) && s == [s[0]] + t;
      FilterSnoc(t, x, p);
      FilterConsBoth(s[0], t + [x], t, s + [x], s, p, e);
    }
  }

  /** If `sa` filters like `a`, and `sb` filters like `sa` followed by `x`,
      then `sb` filters like `a + [x]`. */
  lemma FilterSnocBoth<T(!new)>(a: seq<T>, x: T, ax: seq<T>, sa: seq<T>, sb: seq<T>, p: T -> bool)
    requires ax == a + [x]
    requires Filter(sa, p) == Filter(a, p)
    requires Filter(sb, p) == Filter(sa, p) + (if p(x) then [x] else [])
    ensures Filter(sb, p) == Filter(ax, p)
  {
    FilterSnoc(a, x, p);
  }

  /** If `x` passes the test only when no element of `s` does, moving `x`
      from the front of `s` to its end leaves the filter unchanged. */
  lemma FilterFront<T(!new)>(x: T, s: seq<T>, xs: seq<T>, p: T -> bool)
    requires xs == [x] + s
    requires p(x) ==> Filter(s, p) == []
    ensures Filter(xs, p) == Filter(s, p) + (if p(x) then [x] else [])
  {
    FilterCons(x, s, p);
    if p(x) {
      assert [x] + [] == [] + [x];
    } else {
      assert [] + Filter(s, p) == Filter(s, p) + [];
    }
  }

  /** Putting the same element in front of two sequences keeps an equation
      between their filters. */
  lemma FilterConsBoth<T(!new)>(y: T, a: seq<T>, b: seq<T>, ya: seq<T>, yb: seq<T>, p: T -> bool, e: seq<T>)
    requires ya == [y] + a && yb == [y] + b
    requires Filter(a, p) == Filter(b, p) + e
    ensures Filter(ya, p) == Filter(yb, p) + e
  {
    FilterCons(y, a, p);
    FilterCons(y, b, p);
    PrependBoth(if p(y) then [y] else [], Filter(a, p), Filter(b, p), e);
  }

  /** Prepending to both sides of `a == b + e`. */
  lemma PrependBoth<T>(h: seq<T>, a: seq<T>, b: seq<T>, e: seq<T>)
    requires a == b + e
    ensures h + a == (h + b) + e
  {
  }

  /** Filtering by a predicate and by its negation splits a sequence in two. */
  lemma FilterPartition<T(!new)>(s: seq<T>, p: T -> bool, q: T -> bool)
    requires forall x :: q(x) == !p(x)
    ensures multiset(Filter(s, p)) + multiset(Filter(s, q)) == multiset(s)
    ensures |Filter(s, p)| + |Filter(s, q)| == |s|
  {
    var a, b := Filter(s, p), Filter(s, q);
    assert forall x :: (multiset(a) + multiset(b))[x] == multiset(s)[x];
    assert multiset(a) + multiset(b) == multiset(s);
    assert |multiset(a) + multiset(b)| == |multiset(s)|;
  }

  /** Wraps every element in `Some`. */
  function MapSome<T>(s: seq<T>): (r: seq<Option<T>>)
    ensures |r| == |s|
    ensures forall i :: 0 <= i < |s| ==> r[i] == Some(s[i])
  {
    seq(|s|, i requires 0 <= i < |s| => Some(s[i]))
  }

  /** Drops the absent entries of `xs`, keeping the present values in order:
      the `.filter(v => v).map(v => v.value)` step of a settled batch. */
  function Somes<T(!new)>(xs: seq<Option<T>>): (r: seq<T>)
    ensures |r| <= |xs|
    ensures forall x :: multiset(r)[x] == multiset(xs)[Some(x)]
  {
    if xs == [] then []
    else
      assert xs == [xs[0]] + xs[1..];
      var rest := Somes(xs[1..]);
      match xs[0]
      case None => rest
      case Some(v) => [v] + rest
  }

  /** The present values keep their relative order. */
  lemma {:induction false} SomesInOrder<T(!new)>(xs: seq<Option<T>>)
    ensures IsSubseq(MapSome(Somes(xs)), xs)
  {
    if xs != [] {
      SomesInOrder(xs[1..]);
      var rest := Somes(xs[1..]);
      match xs[0]
      case None =>
        assert MapSome(rest) != [] ==> MapSome(rest)[0] != xs[0];
      case Some(v) =>
        assert MapSome([v] + rest)[1..] == MapSome(rest);
    }
  }

  /** The index `Array.prototype.find` stops at: the first element satisfying
      `p`, or `None` when there is none. */
  function FirstIndex<T>(s: seq<T>, p: T -> bool): (r: Option<nat>)
    ensures r.Some? ==> r.value < |s| && p(s[r.value])
    ensures r.Some? ==> forall j :: 0 <= j < r.value ==> !p(s[j])
    ensures r.None? <==> forall j :: 0 <= j < |s| ==> !p(s[j])
  {
    if s == [] then None
    else if p(s[0]) then Some(0)
    else
      match FirstIndex(s[1..], p)
      case None => None
      case Some(i) => Some(i + 1)
  }

  /** `Array.prototype.find`: the first element satisfying `p`. */
  function Find<T>(s: seq<T>, p: T -> bool): (r: Option<T>)
    ensures r.Some? ==> exists i :: 0 <= i < |s| && s[i] == r.value && p(s[i]) && forall j :: 0 <= j < i ==> !p(s[j])
    ensures r.None? <==> forall j :: 0 <= j < |s| ==> !p(s[j])
  {
    match FirstIndex(s, p)
    case None => None
    case Some(i) => Some(s[i])
  }

  /** A non-empty sequence is its front followed by its last element. */
  lemma FrontLast<T>(s: seq<T>)
    requires s != []
    ensures s[..|s| - 1] + [s[|s| - 1]] == s
  {
  }

  /** `s.find(p) || s.find(q)` where every element satisfying `p` satisfies
      `q`: the first element satisfying `p`, or failing that the first
      satisfying `q`. */
  lemma FindOrElse<T(!new)>(s: seq<T>, p: T -> bool, q: T -> bool, r: Option<T>)
    requires forall x :: p(x) ==> q(x)
    requires r == match Find(s, p) case Some(b) => Some(b) case None => Find(s, q)
    ensures r.Some? ==> r.value in s && q(r.value)
    ensures (exists i :: 0 <= i < |s| && p(s[i])) ==>
      exists i :: 0 <= i < |s| && r == Some(s[i]) && p(s[i]) && forall j :: 0 <= j < i ==> !p(s[j])
    ensures (forall i :: 0 <= i < |s| ==> !p(s[i])) && r.Some? ==>
      exists i :: 0 <= i < |s| && r == Some(s[i]) && forall j :: 0 <= j < i ==> !q(s[j])
    ensures r.None? <==> forall i :: 0 <= i < |s| ==> !q(s[i])
  {
  }

  /** `s.slice(0, n)`: the first `n` elements, or all of them when fewer. */
  function Take<T>(s: seq<T>, n: nat): (r: seq<T>)
    ensures |r| == Min(n, |s|)
    ensures forall i :: 0 <= i < |r| ==> r[i] == s[i]
    ensures multiset(r) <= multiset(s)
  {
    if n >= |s| then s
    else
      assert s == s[..n] + s[n..];
      s[..n]
  }
}
