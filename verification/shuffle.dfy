/** `shuffleArray` (src/App.tsx:51-64), the Fisher–Yates shuffle. The
    `Math.floor(Math.random() * currentIndex)` draws are an explicit oracle:
    draw number `k` is taken while `currentIndex == n - k`, so it lies in
    `[0, n - k)`. */
module Shuffle {

  /** `draws` is what `Math.floor(Math.random() * currentIndex)` can return
      over a shuffle of an `n`-element array: one draw per step, the `k`-th
      below `n - k`. */
  predicate ValidDraws(draws: seq<nat>, n: nat)
  {
    |draws| == n && forall k :: 0 <= k < n ==> draws[k] < n - k
  }

  /** The draws a shuffle of `n` elements makes, read off raw oracle values:
      draw `k` is the `k`-th value reduced below `n - k`, which ranges over
      exactly the values `Math.floor(Math.random() * currentIndex)` can take;
      a missing value reads as 0. Admissible draws pass unchanged. */
  function Admissible(raw: seq<nat>, n: nat): (d: seq<nat>)
    ensures ValidDraws(d, n)
    ensures ValidDraws(raw, n) ==> d == raw
  {
    var d: seq<nat> := seq(n, k requires 0 <= k < n => Below(if k < |raw| then raw[k] else 0, n - k));
    assert ValidDraws(raw, n) ==> forall k :: 0 <= k < n ==> d[k] == raw[k];
    d
  }

  /** `x` reduced below `m`: unchanged when already below. */
  function Below(x: nat, m: nat): (r: nat)
    requires m > 0
    ensures r < m && (x < m ==> r == x)
  {
    x % m
  }

  /** The destructuring swap `[a[i], a[j]] = [a[j], a[i]]`. */
  function Swap<T>(s: seq<T>, i: nat, j: nat): (r: seq<T>)
    requires i < |s| && j < |s|
    ensures |r| == |s| && r[i] == s[j] && r[j] == s[i]
    ensures forall k :: 0 <= k < |s| && k != i && k != j ==> r[k] == s[k]
    ensures multiset(r) == multiset(s)
  {
    var r := s[i := s[j]][j := s[i]];
    assert multiset(s[i := s[j]]) == multiset(s) - multiset{s[i]} + multiset{s[j]};
    r
  }

  /** The loop of `shuffleArray` from the point where `currentIndex == c`
      until it reaches 0; `a` has the original length throughout. */
  function ShuffleFrom<T>(a: seq<T>, draws: seq<nat>, c: nat): (r: seq<T>)
    requires c <= |a| && ValidDraws(draws, |a|)
    ensures |r| == |a| && multiset(r) == multiset(a)
    decreases c
  {
    if c == 0 then a
    else ShuffleFrom(Swap(a, c - 1, draws[|a| - c]), draws, c - 1)
  }

  /** The array `shuffleArray` returns: a permutation of its input. */
  function Shuffled<T>(s: seq<T>, draws: seq<nat>): (r: seq<T>)
    requires ValidDraws(draws, |s|)
    ensures |r| == |s| && multiset(r) == multiset(s)
  {
    ShuffleFrom(s, draws, |s|)
  }

  /** `shuffleArray` as the in-place swap loop of the source, run on a fresh
      array holding `s`. Every index it touches is in bounds, and it computes
      the permutation `Shuffled(s, draws)`. */
  method ShuffleArray<T>(s: seq<T>, draws: seq<nat>) returns (r: seq<T>)
    requires ValidDraws(draws, |s|)
    ensures r == Shuffled(s, draws)
    ensures |r| == |s| && multiset(r) == multiset(s)
  {
    var a := new T[|s|](i requires 0 <= i < |s| => s[i]);
    assert a[..] == s;
    var currentIndex := a.Length;
    var step := 0;
    while currentIndex != 0
      invariant 0 <= currentIndex <= a.Length && step == a.Length - currentIndex
      invariant ShuffleFrom(a[..], draws, currentIndex) == Shuffled(s, draws)
      invariant multiset(a[..]) == multiset(s)
    {
      var randomIndex := draws[step];
      ghost var before := a[..];
      currentIndex := currentIndex - 1;
      a[currentIndex], a[randomIndex] := a[randomIndex], a[currentIndex];
      step := step + 1;
      assert a[..] == Swap(before, currentIndex, randomIndex);
    }
    r := a[..];
  }

  /** `shuffleArray(s)` driven by raw oracle values: a permutation of `s`. */
  function ShuffleBy<T>(s: seq<T>, raw: seq<nat>): (r: seq<T>)
    ensures |r| == |s| && multiset(r) == multiset(s)
  {
    Shuffled(s, Admissible(raw, |s|))
  }
}
