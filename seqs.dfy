/**
 * The array operations the dashboard chains together (`filter`, `reduce`,
 * `new Set`, `sort`, `slice`), as functions on sequences. `reduce` is a left
 * fold, so the folds here recurse on the prefix.
 */
module Seqs {

  /** `s.filter(p)`: the elements satisfying `p`, in their original order. */
  function Filter<T(==)>(s: seq<T>, p: T -> bool): (r: seq<T>)
    ensures |r| <= |s|
    ensures forall x | x in r :: x in s && p(x)
    ensures forall x | x in s :: p(x) ==> x in r
  {
    if s == [] then []
    else Filter(s[..|s| - 1], p) + (if p(s[|s| - 1]) then [s[|s| - 1]] else [])
  }

  lemma FilterAppend<T>(a: seq<T>, b: seq<T>, p: T -> bool)
    ensures Filter(a + b, p) == Filter(a, p) + Filter(b, p)
    decreases |b|
  {
    if b != [] {
      assert (a + b)[..|a + b| - 1] == a + b[..|b| - 1];
      FilterAppend(a, b[..|b| - 1], p);
    } else {
      assert a + b == a;
    }
  }

  /** Filtering keeps everything when every element satisfies the predicate. */
  lemma {:induction false} FilterAll<T>(s: seq<T>, p: T -> bool)
    requires forall i :: 0 <= i < |s| ==> p(s[i])
    ensures Filter(s, p) == s
  {
    if s != [] {
      var init := s[..|s| - 1];
      assert forall i :: 0 <= i < |init| ==> p(init[i]) by {
        forall i | 0 <= i < |init| ensures p(init[i]) {
          assert init[i] == s[i];
        }
      }
      FilterAll(init, p);
      PrefixStep(s, |s| - 1);
    }
  }

  /** Filtering keeps nothing when no element satisfies the predicate. */
  lemma FilterNone<T>(s: seq<T>, p: T -> bool)
    requires forall i :: 0 <= i < |s| ==> !p(s[i])
    ensures Filter(s, p) == []
  {
    if s != [] {
      FilterNone(s[..|s| - 1], p);
    }
  }

  /** Predicates that agree everywhere filter alike. */
  lemma {:induction false} FilterExt<T>(s: seq<T>, p: T -> bool, q: T -> bool)
    requires forall x :: p(x) == q(x)
    ensures Filter(s, p) == Filter(s, q)
  {
    if s != [] {
      FilterExt(s[..|s| - 1], p, q);
    }
  }

  /** Predicates that agree on the elements of `s` filter `s` alike. */
  lemma {:induction false} FilterExtIn<T>(s: seq<T>, p: T -> bool, q: T -> bool)
    requires forall i :: 0 <= i < |s| ==> p(s[i]) == q(s[i])
    ensures Filter(s, p) == Filter(s, q)
  {
    if s != [] {
      var init := s[..|s| - 1];
      assert forall i :: 0 <= i < |init| ==> p(init[i]) == q(init[i]) by {
        forall i | 0 <= i < |init| ensures p(init[i]) == q(init[i]) {
          assert init[i] == s[i];
        }
      }
      FilterExtIn(init, p, q);
    }
  }

  /** Filtering by `p` and then by `q` is filtering once by their conjunction `r`. */
  lemma FilterFilter<T>(s: seq<T>, p: T -> bool, q: T -> bool, r: T -> bool)
    requires forall x :: r(x) == (p(x) && q(x))
    ensures Filter(Filter(s, p), q) == Filter(s, r)
  {
    if s != [] {
      var init, last := s[..|s| - 1], s[|s| - 1];
      FilterFilter(init, p, q, r);
      FilterAppend(Filter(init, p), if p(last) then [last] else [], q);
      assert Filter([last], q) == if q(last) then [last] else [] by {
        assert [last][..0] == [];
      }
      assert Filter([], q) == [];
    }
  }

  /** A predicate implied by a stronger one keeps at least as many elements. */
  lemma FilterMonotone<T>(s: seq<T>, p: T -> bool, q: T -> bool)
    requires forall x :: p(x) ==> q(x)
    ensures |Filter(s, p)| <= |Filter(s, q)|
  {
    if s != [] {
      FilterMonotone(s[..|s| - 1], p, q);
    }
  }

  /** `r` is `s` with some elements removed, the rest in order. */
  predicate IsSubseq<T(==)>(r: seq<T>, s: seq<T>)
    decreases |s|
  {
    if r == [] then true
    else if s == [] then false
    else if r[|r| - 1] == s[|s| - 1] then IsSubseq(r[..|r| - 1], s[..|s| - 1])
    else IsSubseq(r, s[..|s| - 1])
  }

  lemma FilterIsSubseq<T>(s: seq<T>, p: T -> bool)
    ensures IsSubseq(Filter(s, p), s)
  {
    if s != [] {
      FilterIsSubseq(s[..|s| - 1], p);
      var f := Filter(s[..|s| - 1], p);
      if p(s[|s| - 1]) {
        assert (f + [s[|s| - 1]])[..|f|] == f;
      } else {
        assert Filter(s, p) == f;
        SubseqDropLast(f, s);
      }
    }
  }

  lemma SubseqDropLast<T>(r: seq<T>, s: seq<T>)
    requires s != [] && IsSubseq(r, s[..|s| - 1])
    ensures IsSubseq(r, s)
    decreases |s|, 0
  {
    if r != [] && r[|r| - 1] == s[|s| - 1] {
      SubseqPrefix(r, s[..|s| - 1]);
    }
  }

  lemma SubseqPrefix<T>(r: seq<T>, s: seq<T>)
    requires r != [] && IsSubseq(r, s)
    ensures IsSubseq(r[..|r| - 1], s)
    decreases |s|, 1
  {
    if s != [] {
      if r[|r| - 1] == s[|s| - 1] {
        SubseqDropLast(r[..|r| - 1], s);
      } else {
        SubseqPrefix(r, s[..|s| - 1]);
        SubseqDropLast(r[..|r| - 1], s);
      }
    }
  }

  lemma Associative<T>(a: seq<T>, b: seq<T>, c: seq<T>)
    ensures a + b + c == a + (b + c)
  {
  }

  lemma SplitSlices<T>(s: seq<T>, i: nat)
    requires i <= |s|
    ensures s[..i] + s[i..] == s
  {
  }

  /** A non-empty sequence is its head followed by its tail, also in front of another. */
  lemma ConsSplit<T>(p: seq<T>, q: seq<T>)
    requires |p| > 0
    ensures p == [p[0]] + p[1..] && p + q == [p[0]] + (p[1..] + q)
  {
    assert p + q == [p[0]] + (p[1..] + q) by {
      assert (p + q)[1..] == p[1..] + q;
    }
  }

  lemma SplitAt<T>(s: seq<T>, i: nat)
    requires i < |s|
    ensures s[i..] == [s[i]] + s[i + 1..]
  {
  }

  /** A prefix grown by one element. */
  lemma PrefixStep<T>(s: seq<T>, i: nat)
    requires i < |s|
    ensures s[..i] + [s[i]] == s[..i + 1]
  {
  }

  /** `s.reduce((sum, x) => sum + f(x), 0)`. */
  function Sum<T>(s: seq<T>, f: T -> real): real {
    if s == [] then 0.0 else Sum(s[..|s| - 1], f) + f(s[|s| - 1])
  }

  lemma SumAppend<T>(a: seq<T>, b: seq<T>, f: T -> real)
    ensures Sum(a + b, f) == Sum(a, f) + Sum(b, f)
    decreases |b|
  {
    if b != [] {
      assert (a + b)[..|a + b| - 1] == a + b[..|b| - 1];
      SumAppend(a, b[..|b| - 1], f);
    } else {
      assert a + b == a;
    }
  }

  /** Extending a prefix by one element adds that element's value. */
  lemma SumPrefixStep<T>(s: seq<T>, f: T -> real, n: nat)
    requires 0 < n <= |s|
    ensures Sum(s[..n], f) == Sum(s[..n - 1], f) + f(s[n - 1])
  {
    assert s[..n][..n - 1] == s[..n - 1];
  }

  lemma SumNonNegative<T>(s: seq<T>, f: T -> real)
    requires forall i :: 0 <= i < |s| ==> f(s[i]) >= 0.0
    ensures Sum(s, f) >= 0.0
  {
    if s != [] {
      SumNonNegative(s[..|s| - 1], f);
    }
  }

  /** Summing `f` over the elements that satisfy `p` is summing `f` masked by `p`. */
  lemma SumFilter<T>(s: seq<T>, p: T -> bool, f: T -> real, g: T -> real)
    requires forall x :: g(x) == if p(x) then f(x) else 0.0
    ensures Sum(Filter(s, p), f) == Sum(s, g)
  {
    if s != [] {
      var init, last := s[..|s| - 1], s[|s| - 1];
      SumFilter(init, p, f, g);
      SumAppend(Filter(init, p), if p(last) then [last] else [], f);
      if p(last) {
        assert Sum([last], f) == f(last) by { assert [last][..0] == []; }
      }
    }
  }

  /** Sums of pointwise related functions. */
  lemma SumLinear<T>(s: seq<T>, f: T -> real, g: T -> real, h: T -> real)
    requires forall x :: h(x) == f(x) - g(x)
    ensures Sum(s, h) == Sum(s, f) - Sum(s, g)
  {
    if s != [] {
      SumLinear(s[..|s| - 1], f, g, h);
    }
  }

  predicate NoDups<T(==)>(s: seq<T>) {
    forall i, j :: 0 <= i < j < |s| ==> s[i] != s[j]
  }

  /** Without duplicates every element occurs at most once. */
  lemma {:induction false} NoDupsCount<T>(s: seq<T>, x: T)
    requires NoDups(s)
    ensures multiset(s)[x] <= 1
  {
    if s != [] {
      var init := s[..|s| - 1];
      assert s == init + [s[|s| - 1]];
      assert NoDups(init);
      NoDupsCount(init, x);
      if s[|s| - 1] == x {
        assert x !in init;
      }
    }
  }

  /** A permutation of a sequence without duplicates has none either. */
  lemma PermutationNoDups<T>(r: seq<T>, s: seq<T>)
    requires multiset(r) == multiset(s) && NoDups(s)
    ensures NoDups(r)
  {
    forall i, j | 0 <= i < j < |r| ensures r[i] != r[j] {
      if r[i] == r[j] {
        var x := r[i];
        assert r == r[..j] + [r[j]] + r[j + 1..];
        assert x in r[..j];
        assert multiset(r[..j])[x] >= 1;
        assert multiset(r)[x] >= 2;
        NoDupsCount(s, x);
      }
    }
  }

  /** `Array.from(new Set(s))`: each element once, in order of first occurrence. */
  function Distinct<T(==)>(s: seq<T>): (r: seq<T>)
    ensures forall x | x in r :: x in s
    ensures forall x | x in s :: x in r
    ensures NoDups(r)
    ensures |r| <= |s|
  {
    if s == [] then []
    else
      var d := Distinct(s[..|s| - 1]);
      if s[|s| - 1] in d then d else d + [s[|s| - 1]]
  }

  /** The first occurrence of `x` in `s`. */
  function IndexOf<T(==)>(s: seq<T>, x: T): (i: nat)
    requires x in s
    ensures i < |s| && s[i] == x
    ensures forall j :: 0 <= j < i ==> s[j] != x
  {
    if s[0] == x then 0 else 1 + IndexOf(s[1..], x)
  }

  /** Appending an element does not move the first position of one already there. */
  lemma {:induction false} IndexOfAppend<T>(s: seq<T>, y: T, x: T)
    requires x in s
    ensures IndexOf(s + [y], x) == IndexOf(s, x)
  {
    if s[0] != x {
      assert (s + [y])[1..] == s[1..] + [y];
      IndexOfAppend(s[1..], y, x);
    }
  }

  /** An element first seen at the end is found there. */
  lemma {:induction false} IndexOfNew<T>(s: seq<T>, y: T)
    requires y !in s
    ensures IndexOf(s + [y], y) == |s|
  {
    if s != [] {
      assert (s + [y])[1..] == s[1..] + [y];
      IndexOfNew(s[1..], y);
    }
  }

  /**
   * A `Set` iterates in insertion order, so the distinct elements come in the
   * order of their first occurrences.
   */
  lemma {:induction false} DistinctFirstOccurrence<T>(s: seq<T>)
    ensures forall i, j :: 0 <= i < j < |Distinct(s)| ==> IndexOf(s, Distinct(s)[i]) < IndexOf(s, Distinct(s)[j])
  {
    if s != [] {
      var init, y := s[..|s| - 1], s[|s| - 1];
      assert s == init + [y];
      DistinctFirstOccurrence(init);
      var d := Distinct(init);
      forall x | x in d ensures IndexOf(s, x) == IndexOf(init, x) {
        IndexOfAppend(init, y, x);
      }
      if y !in d {
        IndexOfNew(init, y);
        forall i | 0 <= i < |d| ensures IndexOf(s, d[i]) < |init| {
          assert d[i] in d;
        }
      }
    }
  }

  /** `s.slice(0, n)`. */
  function Take<T>(s: seq<T>, n: nat): (r: seq<T>)
    ensures |r| == if |s| < n then |s| else n
    ensures r == s[..|r|]
  {
    if |s| <= n then s else s[..n]
  }

  /** `s.slice(-n)` for n > 0, and the whole of `s` when it is no longer than `n`. */
  function TakeLast<T>(s: seq<T>, n: nat): (r: seq<T>)
    ensures |r| == if |s| < n then |s| else n
    ensures r == s[|s| - |r|..]
  {
    if |s| <= n then s else s[|s| - n..]
  }

  predicate SortedBy<T>(s: seq<T>, key: T -> real) {
    forall i, j :: 0 <= i < j < |s| ==> key(s[i]) <= key(s[j])
  }

  /** Puts `x` in front of the first element whose key is not smaller. */
  function Insert<T>(x: T, s: seq<T>, key: T -> real): (r: seq<T>)
    ensures multiset(r) == multiset(s) + multiset{x}
    ensures |r| == |s| + 1
  {
    if s == [] || key(x) <= key(s[0]) then [x] + s
    else
      assert s == [s[0]] + s[1..];
      [s[0]] + Insert(x, s[1..], key)
  }

  /** Inserting keeps a common lower bound of the keys. */
  lemma InsertLowerBound<T>(x: T, s: seq<T>, key: T -> real, lo: real)
    requires lo <= key(x)
    requires forall i :: 0 <= i < |s| ==> lo <= key(s[i])
    ensures forall i :: 0 <= i < |Insert(x, s, key)| ==> lo <= key(Insert(x, s, key)[i])
  {
    if s != [] && key(x) > key(s[0]) {
      InsertLowerBound(x, s[1..], key, lo);
    }
  }

  lemma InsertSorted<T>(x: T, s: seq<T>, key: T -> real)
    requires SortedBy(s, key)
    ensures SortedBy(Insert(x, s, key), key)
  {
    if s != [] && key(x) > key(s[0]) {
      InsertSorted(x, s[1..], key);
      InsertLowerBound(x, s[1..], key, key(s[0]));
    }
  }

  /**
   * `[...s].sort((a, b) => key(a) - key(b))`: a stable sort by ascending key
   * (modern engines sort stably, so equal keys keep their input order).
   */
  function SortBy<T>(s: seq<T>, key: T -> real): (r: seq<T>)
    ensures SortedBy(r, key)
    ensures multiset(r) == multiset(s)
    ensures |r| == |s|
  {
    if s == [] then []
    else
      assert s == [s[0]] + s[1..];
      InsertSorted(s[0], SortBy(s[1..], key), key);
      Insert(s[0], SortBy(s[1..], key), key)
  }

  function KeyIs<T>(key: T -> real, k: real): T -> bool {
    x => key(x) == k
  }

  lemma FilterSingleton<T>(x: T, p: T -> bool)
    ensures Filter([x], p) == if p(x) then [x] else []
  {
    assert [x][..0] == [];
  }

  /** Filtering an element followed by a sequence. */
  lemma FilterCons<T>(x: T, s: seq<T>, p: T -> bool)
    ensures Filter([x] + s, p) == (if p(x) then [x] else []) + Filter(s, p)
  {
    FilterAppend([x], s, p);
    FilterSingleton(x, p);
  }

  /** Inserting `x` puts it in front of every element with the same key. */
  lemma {:induction false} InsertFilter<T>(x: T, s: seq<T>, key: T -> real, k: real)
    ensures Filter(Insert(x, s, key), KeyIs(key, k)) == (if key(x) == k then [x] else []) + Filter(s, KeyIs(key, k))
  {
    var p := KeyIs(key, k);
    if s == [] || key(x) <= key(s[0]) {
      assert Insert(x, s, key) == [x] + s;
      FilterCons(x, s, p);
    } else {
      var rest := Insert(x, s[1..], key);
      assert Insert(x, s, key) == [s[0]] + rest;
      InsertFilter(x, s[1..], key, k);
      assert [s[0]] + s[1..] == s;
      FilterSwap(s[0], rest, s[1..], if key(x) == k then [x] else [], p);
    }
  }

  /** An element that fails the test may move past what is put in front of the rest. */
  lemma FilterSwap<T>(a: T, rest: seq<T>, tail: seq<T>, front: seq<T>, p: T -> bool)
    requires Filter(rest, p) == front + Filter(tail, p)
    requires front != [] ==> !p(a)
    ensures Filter([a] + rest, p) == front + Filter([a] + tail, p)
  {
    FilterCons(a, rest, p);
    FilterCons(a, tail, p);
    var ft := Filter(tail, p);
    if p(a) {
      assert front == [];
      assert Filter(rest, p) == ft;
      assert Filter([a] + rest, p) == [a] + ft;
    } else {
      assert Filter([a] + rest, p) == front + ft;
      assert Filter([a] + tail, p) == ft;
    }
  }

  /**
   * The sort is stable: the elements with any one key come out in the order
   * they had in `s`.
   */
  lemma {:induction false} SortByStable<T>(s: seq<T>, key: T -> real, k: real)
    ensures Filter(SortBy(s, key), KeyIs(key, k)) == Filter(s, KeyIs(key, k))
  {
    if s != [] {
      var p := KeyIs(key, k);
      var sorted := SortBy(s[1..], key);
      assert SortBy(s, key) == Insert(s[0], sorted, key);
      SortByStable(s[1..], key, k);
      InsertFilter(s[0], sorted, key, k);
      FilterCons(s[0], s[1..], p);
      assert [s[0]] + s[1..] == s;
    }
  }

  /** `r` and `s` hold, key by key, the same elements in the same order. */
  ghost predicate SameKeyOrder<T>(r: seq<T>, s: seq<T>, key: T -> real) {
    forall k :: Filter(r, KeyIs(key, k)) == Filter(s, KeyIs(key, k))
  }

  /** Sorting keeps the order within each key, so the result agrees with the input key by key. */
  lemma SortByKeyOrder<T>(s: seq<T>, key: T -> real)
    ensures SameKeyOrder(SortBy(s, key), s, key)
  {
    forall k ensures Filter(SortBy(s, key), KeyIs(key, k)) == Filter(s, KeyIs(key, k)) {
      SortByStable(s, key, k);
    }
  }

  /** Swapping two neighbours with different keys keeps the order within each key. */
  lemma SwapKeyOrder<T>(s: seq<T>, r: seq<T>, j: nat, key: T -> real)
    requires 0 < j < |s| && key(s[j - 1]) != key(s[j])
    requires r == s[..j - 1] + [s[j], s[j - 1]] + s[j + 1..]
    ensures SameKeyOrder(r, s, key)
  {
    var front, back := s[..j - 1], s[j + 1..];
    assert s == front + [s[j - 1], s[j]] + back;
    forall k ensures Filter(r, KeyIs(key, k)) == Filter(s, KeyIs(key, k)) {
      SwapFilter(front, s[j - 1], s[j], back, KeyIs(key, k));
    }
  }

  /** Two neighbours that do not both pass the test may change places. */
  lemma SwapFilter<T>(front: seq<T>, x: T, y: T, back: seq<T>, p: T -> bool)
    requires !(p(x) && p(y))
    ensures Filter(front + [y, x] + back, p) == Filter(front + [x, y] + back, p)
  {
    var a, b := Filter(front, p), Filter(back, p);
    FilterAppend(front + [y, x], back, p);
    FilterAppend(front, [y, x], p);
    FilterAppend(front + [x, y], back, p);
    FilterAppend(front, [x, y], p);
    PairSwap(x, y, p);
    var m := Filter([x, y], p);
    assert Filter(front + [y, x] + back, p) == a + m + b;
    assert Filter(front + [x, y] + back, p) == a + m + b;
  }

  /** Of two elements that do not both pass the test, the order does not matter to the filter. */
  lemma PairSwap<T>(x: T, y: T, p: T -> bool)
    requires !(p(x) && p(y))
    ensures Filter([x, y], p) == Filter([y, x], p)
  {
    PairFilter(x, y, p);
    PairFilter(y, x, p);
  }

  lemma PairFilter<T>(x: T, y: T, p: T -> bool)
    ensures Filter([x, y], p) == (if p(x) then [x] else []) + (if p(y) then [y] else [])
  {
    assert [x, y][..1] == [x];
    FilterSingleton(x, p);
  }

  lemma SameKeyOrderSym<T>(a: seq<T>, b: seq<T>, key: T -> real)
    requires SameKeyOrder(a, b, key)
    ensures SameKeyOrder(b, a, key)
  {
    forall k ensures Filter(b, KeyIs(key, k)) == Filter(a, KeyIs(key, k)) {
      assert Filter(a, KeyIs(key, k)) == Filter(b, KeyIs(key, k));
    }
  }

  lemma SameKeyOrderTrans<T>(a: seq<T>, b: seq<T>, c: seq<T>, key: T -> real)
    requires SameKeyOrder(a, b, key) && SameKeyOrder(b, c, key)
    ensures SameKeyOrder(a, c, key)
  {
    forall k ensures Filter(a, KeyIs(key, k)) == Filter(c, KeyIs(key, k)) {
      assert Filter(a, KeyIs(key, k)) == Filter(b, KeyIs(key, k));
    }
  }

  /**
   * A sorted arrangement that keeps the order within each key is unique: two
   * of them are equal.
   */
  lemma {:induction false} SortedUnique<T>(r1: seq<T>, r2: seq<T>, key: T -> real)
    requires SortedBy(r1, key) && SortedBy(r2, key) && SameKeyOrder(r1, r2, key)
    ensures r1 == r2
    decreases |r1|
  {
    if r1 == [] {
      EmptyKeyOrder(r1, r2, key);
    } else if r2 == [] {
      EmptyKeyOrder(r2, r1, key);
    } else {
      UniqueStep(r1, r2, key);
      SortedUnique(r1[1..], r2[1..], key);
      assert r1 == [r1[0]] + r1[1..];
      assert r2 == [r2[0]] + r2[1..];
    }
  }

  /** The heads agree, and the tails are again sorted and agree key by key. */
  lemma UniqueStep<T>(r1: seq<T>, r2: seq<T>, key: T -> real)
    requires |r1| > 0 && |r2| > 0
    requires SortedBy(r1, key) && SortedBy(r2, key) && SameKeyOrder(r1, r2, key)
    ensures r1[0] == r2[0]
    ensures SortedBy(r1[1..], key) && SortedBy(r2[1..], key) && SameKeyOrder(r1[1..], r2[1..], key)
  {
    var k := SameLeadingKey(r1, r2, key);
    assert Filter(r1, KeyIs(key, k)) == Filter(r2, KeyIs(key, k));
    SameHead(r1, r2, KeyIs(key, k));
    TailKeyOrder(r1, r2, key);
    SortedTail(r1, key);
    SortedTail(r2, key);
  }

  lemma SortedTail<T>(r: seq<T>, key: T -> real)
    requires |r| > 0 && SortedBy(r, key)
    ensures SortedBy(r[1..], key)
  {
    forall i, j | 0 <= i < j < |r[1..]| ensures key(r[1..][i]) <= key(r[1..][j]) {
      assert r[1..][i] == r[i + 1] && r[1..][j] == r[j + 1];
    }
  }

  /** Only the empty sequence agrees key by key with the empty sequence. */
  lemma EmptyKeyOrder<T>(r1: seq<T>, r2: seq<T>, key: T -> real)
    requires r1 == [] && SameKeyOrder(r1, r2, key)
    ensures r2 == []
  {
    if r2 != [] {
      HeadKeyFilter(r2, key);
    }
  }

  /** The head of a sequence passes the filter for its own key. */
  lemma HeadKeyFilter<T>(s: seq<T>, key: T -> real)
    requires s != []
    ensures s[0] in Filter(s, KeyIs(key, key(s[0])))
  {
    assert s[0] in s;
  }

  /** The first elements with the key both sequences start with are their heads. */
  lemma SameHead<T>(r1: seq<T>, r2: seq<T>, p: T -> bool)
    requires |r1| > 0 && |r2| > 0 && p(r1[0]) && p(r2[0]) && Filter(r1, p) == Filter(r2, p)
    ensures r1[0] == r2[0]
  {
    assert r1 == [r1[0]] + r1[1..];
    assert r2 == [r2[0]] + r2[1..];
    FilterCons(r1[0], r1[1..], p);
    FilterCons(r2[0], r2[1..], p);
    assert Filter(r1, p)[0] == r1[0];
    assert Filter(r2, p)[0] == r2[0];
  }

  /** Agreement key by key survives dropping a common head. */
  lemma TailKeyOrder<T>(r1: seq<T>, r2: seq<T>, key: T -> real)
    requires |r1| > 0 && |r2| > 0 && r1[0] == r2[0] && SameKeyOrder(r1, r2, key)
    ensures SameKeyOrder(r1[1..], r2[1..], key)
  {
    forall k ensures Filter(r1[1..], KeyIs(key, k)) == Filter(r2[1..], KeyIs(key, k)) {
      assert Filter(r1, KeyIs(key, k)) == Filter(r2, KeyIs(key, k));
      TailFilter(r1, r2, KeyIs(key, k));
    }
  }

  /** Equal filters of two sequences with the same head stay equal without it. */
  lemma TailFilter<T>(r1: seq<T>, r2: seq<T>, p: T -> bool)
    requires |r1| > 0 && |r2| > 0 && r1[0] == r2[0] && Filter(r1, p) == Filter(r2, p)
    ensures Filter(r1[1..], p) == Filter(r2[1..], p)
  {
    assert r1 == [r1[0]] + r1[1..];
    assert r2 == [r2[0]] + r2[1..];
    FilterCons(r1[0], r1[1..], p);
    FilterCons(r2[0], r2[1..], p);
    var h := if p(r1[0]) then [r1[0]] else [];
    assert h + Filter(r1[1..], p) == h + Filter(r2[1..], p);
    assert Filter(r1[1..], p) == (h + Filter(r1[1..], p))[|h|..];
    assert Filter(r2[1..], p) == (h + Filter(r2[1..], p))[|h|..];
  }

  /** Two sorted sequences that agree key by key start with the same, smallest, key. */
  lemma SameLeadingKey<T>(r1: seq<T>, r2: seq<T>, key: T -> real) returns (k: real)
    requires |r1| > 0 && |r2| > 0
    requires SortedBy(r1, key) && SortedBy(r2, key) && SameKeyOrder(r1, r2, key)
    ensures k == key(r1[0]) == key(r2[0])
  {
    var k1, k2 := key(r1[0]), key(r2[0]);
    var i := KeyFound(r1, r2, key, r1[0]);
    var j := KeyFound(r2, r1, key, r2[0]);
    assert key(r2[0]) <= key(r2[i]);
    assert key(r1[0]) <= key(r1[j]);
    k := k1;
  }

  /** An element of one sequence sits in a sequence that agrees with it key by key. */
  lemma KeyFound<T>(r1: seq<T>, r2: seq<T>, key: T -> real, x: T) returns (i: nat)
    requires x in r1 && SameKeyOrder(r1, r2, key)
    ensures i < |r2| && r2[i] == x
  {
    var p := KeyIs(key, key(x));
    assert x in Filter(r1, p);
    assert Filter(r1, p) == Filter(r2, p);
    i :| 0 <= i < |r2| && r2[i] == x;
  }

  /** Sorting does not change a sum. */
  lemma SortBySum<T>(s: seq<T>, key: T -> real, f: T -> real)
    ensures Sum(SortBy(s, key), f) == Sum(s, f)
  {
    if s != [] {
      SortBySum(s[1..], key, f);
      InsertSum(s[0], SortBy(s[1..], key), key, f);
      SumAppend([s[0]], s[1..], f);
      assert [s[0]] + s[1..] == s;
      assert Sum([s[0]], f) == f(s[0]) by { assert [s[0]][..0] == []; }
    }
  }

  lemma InsertSum<T>(x: T, s: seq<T>, key: T -> real, f: T -> real)
    ensures Sum(Insert(x, s, key), f) == f(x) + Sum(s, f)
  {
    assert Sum([x], f) == f(x) by { assert [x][..0] == []; }
    if s == [] || key(x) <= key(s[0]) {
      SumAppend([x], s, f);
    } else {
      InsertSum(x, s[1..], key, f);
      SumAppend([s[0]], Insert(x, s[1..], key), f);
      SumAppend([s[0]], s[1..], f);
      assert [s[0]] + s[1..] == s;
      assert Sum([s[0]], f) == f(s[0]) by { assert [s[0]][..0] == []; }
    }
  }

  /**
   * `s.reduce((best, x) => key(x) > key(best) ? x : best, s[0])`: an element of
   * greatest key, the first such in sequence order.
   */
  function Latest<T>(s: seq<T>, key: T -> int): (r: T)
    requires |s| > 0
    ensures r in s
    ensures forall i :: 0 <= i < |s| ==> key(s[i]) <= key(r)
    ensures exists i :: 0 <= i < |s| && s[i] == r && forall j :: 0 <= j < i ==> key(s[j]) < key(r)
  {
    if |s| == 1 then s[0]
    else
      var best := Latest(s[..|s| - 1], key);
      if key(s[|s| - 1]) > key(best) then s[|s| - 1] else best
  }

  /**
   * `s.reduce((best, x) => key(x) < key(best) ? x : best, s[0])`: an element of
   * least key, the first such in sequence order.
   */
  function Earliest<T>(s: seq<T>, key: T -> int): (r: T)
    requires |s| > 0
    ensures r in s
    ensures forall i :: 0 <= i < |s| ==> key(r) <= key(s[i])
    ensures exists i :: 0 <= i < |s| && s[i] == r && forall j :: 0 <= j < i ==> key(r) < key(s[j])
  {
    if |s| == 1 then s[0]
    else
      var best := Earliest(s[..|s| - 1], key);
      if key(s[|s| - 1]) < key(best) then s[|s| - 1] else best
  }
}
