/**
 * The dictionary reductions of the dashboard,
 *   `items.reduce((acc, x) => { acc[key(x)] = (acc[key(x)] || 0) + value(x); return acc }, {})`
 * followed by `Object.entries(acc)`: keys in order of first insertion, each with
 * the sum of its values.
 */
module Grouping {
  import opened Seqs

  /** The keys of keyed values, in order. */
  function KeysOf<K>(items: seq<(K, real)>): (ks: seq<K>)
    ensures |ks| == |items|
    ensures forall i :: 0 <= i < |items| ==> ks[i] == items[i].0
  {
    if items == [] then [] else KeysOf(items[..|items| - 1]) + [items[|items| - 1].0]
  }

  /** The value `acc[k]` ends with: the sum of the values stored under `k` (0 when none). */
  function KeyTotal<K(==)>(items: seq<(K, real)>, k: K): real {
    if items == [] then 0.0
    else KeyTotal(items[..|items| - 1], k) + (if items[|items| - 1].0 == k then items[|items| - 1].1 else 0.0)
  }

  /** `Object.keys(acc)`: each key once, in order of first insertion. */
  function GroupKeys<K(==)>(items: seq<(K, real)>): seq<K> {
    Distinct(KeysOf(items))
  }

  /** `Object.entries(acc)` of the finished reduction. */
  function Grouped<K(==)>(items: seq<(K, real)>): seq<(K, real)> {
    var ks := GroupKeys(items);
    seq(|ks|, i requires 0 <= i < |ks| => (ks[i], KeyTotal(items, ks[i])))
  }

  /** The dictionary accumulator: its keys in insertion order and the value for each. */
  datatype Accumulator<K> = Accumulator(order: seq<K>, totals: map<K, real>)

  function Empty<K>(): Accumulator<K> {
    Accumulator([], map[])
  }

  /** `acc[k] = (acc[k] || 0) + v`. */
  function Add<K(==)>(acc: Accumulator<K>, k: K, v: real): Accumulator<K> {
    Accumulator(
      if k in acc.totals then acc.order else acc.order + [k],
      acc.totals[k := (if k in acc.totals then acc.totals[k] else 0.0) + v])
  }

  /** The accumulator holds the reduction of `items`. */
  ghost predicate Tracks<K>(acc: Accumulator<K>, items: seq<(K, real)>) {
    && acc.order == GroupKeys(items)
    && (forall k | k in acc.totals :: k in acc.order)
    && (forall i | 0 <= i < |acc.order| ::
          acc.order[i] in acc.totals && acc.totals[acc.order[i]] == KeyTotal(items, acc.order[i]))
  }

  /** `Object.entries(acc)`. */
  function Entries<K(==)>(acc: Accumulator<K>): seq<(K, real)> {
    seq(|acc.order|, i requires 0 <= i < |acc.order| =>
      (acc.order[i], if acc.order[i] in acc.totals then acc.totals[acc.order[i]] else 0.0))
  }

  lemma EmptyTracks<K>()
    ensures Tracks(Empty<K>(), [])
  {
  }

  /** A key not yet seen has total 0. */
  lemma KeyTotalAbsent<K>(items: seq<(K, real)>, k: K)
    requires k !in KeysOf(items)
    ensures KeyTotal(items, k) == 0.0
  {
    if items != [] {
      assert KeysOf(items) == KeysOf(items[..|items| - 1]) + [items[|items| - 1].0];
      KeyTotalAbsent(items[..|items| - 1], k);
    }
  }

  lemma KeyTotalStep<K>(items: seq<(K, real)>, x: (K, real), k: K)
    ensures KeyTotal(items + [x], k) == KeyTotal(items, k) + (if x.0 == k then x.1 else 0.0)
  {
    assert (items + [x])[..|items|] == items;
  }

  lemma GroupKeysStep<K>(items: seq<(K, real)>, x: (K, real))
    ensures x.0 in GroupKeys(items) <==> x.0 in KeysOf(items)
    ensures GroupKeys(items + [x]) == if x.0 in GroupKeys(items) then GroupKeys(items) else GroupKeys(items) + [x.0]
  {
    var items' := items + [x];
    assert items'[..|items'| - 1] == items;
    assert KeysOf(items') == KeysOf(items) + [x.0];
    assert KeysOf(items')[..|items'| - 1] == KeysOf(items);
  }

  /** One step of the reduction keeps the accumulator in step with the items seen. */
  lemma AddTracks<K>(acc: Accumulator<K>, items: seq<(K, real)>, k: K, v: real)
    requires Tracks(acc, items)
    ensures Tracks(Add(acc, k, v), items + [(k, v)])
  {
    var items' := items + [(k, v)];
    var acc' := Add(acc, k, v);
    GroupKeysStep(items, (k, v));
    assert k in acc.totals <==> k in acc.order;
    if k !in acc.totals {
      KeyTotalAbsent(items, k);
    }
    assert acc'.order == GroupKeys(items');
    forall i | 0 <= i < |acc'.order|
      ensures acc'.order[i] in acc'.totals && acc'.totals[acc'.order[i]] == KeyTotal(items', acc'.order[i])
    {
      AddTracksAt(acc, items, k, v, i);
    }
  }

  lemma AddTracksAt<K>(acc: Accumulator<K>, items: seq<(K, real)>, k: K, v: real, i: int)
    requires Tracks(acc, items)
    requires 0 <= i < |Add(acc, k, v).order|
    requires k !in acc.totals ==> KeyTotal(items, k) == 0.0
    ensures Add(acc, k, v).order[i] in Add(acc, k, v).totals
    ensures Add(acc, k, v).totals[Add(acc, k, v).order[i]] == KeyTotal(items + [(k, v)], Add(acc, k, v).order[i])
  {
    var acc' := Add(acc, k, v);
    var key := acc'.order[i];
    KeyTotalStep(items, (k, v), key);
    if key != k {
      assert i < |acc.order| && key == acc.order[i];
    }
  }

  /** Reading back an accumulator that tracks `items` gives `Grouped(items)`. */
  lemma EntriesGrouped<K>(acc: Accumulator<K>, items: seq<(K, real)>)
    requires Tracks(acc, items)
    ensures Entries(acc) == Grouped(items)
  {
  }

  /**
   * The reduction loop: one pass over `items`, updating the dictionary in place.
   */
  method Tally<K(==)>(items: seq<(K, real)>) returns (entries: seq<(K, real)>)
    ensures entries == Grouped(items)
  {
    var acc := Empty<K>();
    var i := 0;
    while i < |items|
      invariant 0 <= i <= |items|
      invariant Tracks(acc, items[..i])
    {
      AddTracks(acc, items[..i], items[i].0, items[i].1);
      PrefixStep(items, i);
      acc := Add(acc, items[i].0, items[i].1);
      i := i + 1;
    }
    assert items[..i] == items;
    EntriesGrouped(acc, items);
    entries := Entries(acc);
  }

  /** Every key of the grouping occurs among the items, and every item's key is a key of it. */
  lemma GroupedKeys<K>(items: seq<(K, real)>)
    ensures var g := Grouped(items);
      NoDups(GroupKeys(items))
      && (forall i :: 0 <= i < |g| ==> g[i].0 == GroupKeys(items)[i] && g[i].0 in KeysOf(items))
      && (forall i :: 0 <= i < |items| ==> items[i].0 in GroupKeys(items))
  {
    var ks := KeysOf(items);
    forall i | 0 <= i < |items| ensures items[i].0 in GroupKeys(items) {
      assert ks[i] == items[i].0;
    }
  }

  function Values<K>(entries: seq<(K, real)>): real {
    Sum(entries, (e: (K, real)) => e.1)
  }

  /** Summing `KeyTotal` over a list of distinct keys. */
  function SumTotals<K(==)>(items: seq<(K, real)>, ks: seq<K>): real {
    if ks == [] then 0.0 else SumTotals(items, ks[..|ks| - 1]) + KeyTotal(items, ks[|ks| - 1])
  }

  lemma SumTotalsStep<K>(items: seq<(K, real)>, x: (K, real), ks: seq<K>)
    requires NoDups(ks)
    ensures SumTotals(items + [x], ks) == SumTotals(items, ks) + (if x.0 in ks then x.1 else 0.0)
  {
    if ks != [] {
      var items' := items + [x];
      assert items'[..|items'| - 1] == items;
      SumTotalsStep(items, x, ks[..|ks| - 1]);
      assert x.0 in ks <==> x.0 in ks[..|ks| - 1] || x.0 == ks[|ks| - 1];
    }
  }

  lemma SumTotalsAppend<K>(items: seq<(K, real)>, ks: seq<K>, k: K)
    ensures SumTotals(items, ks + [k]) == SumTotals(items, ks) + KeyTotal(items, k)
  {
    assert (ks + [k])[..|ks|] == ks;
  }

  /** The totals of all the groups add up to the sum of all the values. */
  lemma {:induction false} GroupTotalsSum<K>(items: seq<(K, real)>)
    ensures SumTotals(items, GroupKeys(items)) == Sum(items, (e: (K, real)) => e.1)
  {
    if items != [] {
      var init, x := items[..|items| - 1], items[|items| - 1];
      assert init + [x] == items;
      GroupTotalsSum(init);
      var ks := GroupKeys(init);
      assert KeysOf(items) == KeysOf(init) + [x.0];
      SumTotalsStep(init, x, ks);
      if x.0 !in ks {
        assert x.0 !in KeysOf(init);
        assert GroupKeys(items) == ks + [x.0];
        SumTotalsAppend(items, ks, x.0);
        KeyTotalAbsent(init, x.0);
        assert items[..|items| - 1] == init;
      } else {
        assert GroupKeys(items) == ks;
      }
    }
  }

  lemma ValuesOfGrouped<K>(items: seq<(K, real)>, n: nat)
    requires n <= |GroupKeys(items)|
    ensures Values(Grouped(items)[..n]) == SumTotals(items, GroupKeys(items)[..n])
  {
    if n > 0 {
      ValuesOfGrouped(items, n - 1);
      assert Grouped(items)[..n][..n - 1] == Grouped(items)[..n - 1];
      assert GroupKeys(items)[..n][..n - 1] == GroupKeys(items)[..n - 1];
    }
  }

  /** The entries of the grouping add up to the sum of all the values. */
  lemma GroupedSum<K>(items: seq<(K, real)>)
    ensures Values(Grouped(items)) == Sum(items, (e: (K, real)) => e.1)
  {
    ValuesOfGrouped(items, |GroupKeys(items)|);
    assert Grouped(items)[..|GroupKeys(items)|] == Grouped(items);
    assert GroupKeys(items)[..|GroupKeys(items)|] == GroupKeys(items);
    GroupTotalsSum(items);
  }

  /** When every value is positive, so is every total of the grouping. */
  lemma GroupedPositive<K>(items: seq<(K, real)>)
    requires forall i :: 0 <= i < |items| ==> items[i].1 > 0.0
    ensures forall i :: 0 <= i < |Grouped(items)| ==> Grouped(items)[i].1 > 0.0
  {
    var ks := GroupKeys(items);
    forall i | 0 <= i < |ks| ensures KeyTotal(items, ks[i]) > 0.0 {
      KeyTotalPositive(items, ks[i]);
    }
  }

  lemma KeyTotalPositive<K>(items: seq<(K, real)>, k: K)
    requires forall i :: 0 <= i < |items| ==> items[i].1 > 0.0
    requires k in KeysOf(items)
    ensures KeyTotal(items, k) > 0.0
  {
    var init := items[..|items| - 1];
    assert KeysOf(items) == KeysOf(init) + [items[|items| - 1].0];
    KeyTotalNonNegative(init, k);
    if k in KeysOf(init) {
      KeyTotalPositive(init, k);
    }
  }

  lemma KeyTotalNonNegative<K>(items: seq<(K, real)>, k: K)
    requires forall i :: 0 <= i < |items| ==> items[i].1 > 0.0
    ensures KeyTotal(items, k) >= 0.0
  {
    if items != [] {
      KeyTotalNonNegative(items[..|items| - 1], k);
    }
  }

  /** `acc[k] || 0` on the entries of a reduction: the value stored under `k`, or 0. */
  function Lookup<K(==)>(entries: seq<(K, real)>, k: K): real {
    if entries == [] then 0.0
    else if entries[0].0 == k then entries[0].1
    else Lookup(entries[1..], k)
  }

  lemma LookupAt<K>(entries: seq<(K, real)>, k: K, i: nat)
    requires i < |entries| && entries[i].0 == k
    requires forall j :: 0 <= j < i ==> entries[j].0 != k
    ensures Lookup(entries, k) == entries[i].1
  {
    if i > 0 {
      LookupAt(entries[1..], k, i - 1);
    }
  }

  lemma LookupMissing<K>(entries: seq<(K, real)>, k: K)
    requires forall j :: 0 <= j < |entries| ==> entries[j].0 != k
    ensures Lookup(entries, k) == 0.0
  {
    if entries != [] {
      LookupMissing(entries[1..], k);
    }
  }

  /** Reading a key back from the finished reduction gives its total, 0 for a key never added. */
  lemma LookupGrouped<K>(items: seq<(K, real)>, k: K)
    ensures Lookup(Grouped(items), k) == KeyTotal(items, k)
  {
    var ks := GroupKeys(items);
    var g := Grouped(items);
    if k in ks {
      var i :| 0 <= i < |ks| && ks[i] == k;
      forall j | 0 <= j < i ensures g[j].0 != k {
        assert g[j].0 == ks[j];
      }
      LookupAt(g, k, i);
    } else {
      forall j | 0 <= j < |g| ensures g[j].0 != k {
        assert g[j].0 == ks[j];
      }
      LookupMissing(g, k);
      assert k !in KeysOf(items);
      KeyTotalAbsent(items, k);
    }
  }

  // Two-level reductions: `acc[k1] ??= {total: 0, sub: {}}; acc[k1].total += v; acc[k1].sub[k2] = (acc[k1].sub[k2] || 0) + v`.

  /** The outer key of each item, with its value. */
  function Outer<K1, K2>(items: seq<((K1, K2), real)>): (r: seq<(K1, real)>)
    ensures |r| == |items|
    ensures forall i :: 0 <= i < |items| ==> r[i] == (items[i].0.0, items[i].1)
  {
    if items == [] then [] else Outer(items[..|items| - 1]) + [(items[|items| - 1].0.0, items[|items| - 1].1)]
  }

  /** The items under outer key `k1`, keyed by their inner key, in order. */
  function Inner<K1(==), K2>(items: seq<((K1, K2), real)>, k1: K1): seq<(K2, real)> {
    if items == [] then []
    else
      var x := items[|items| - 1];
      Inner(items[..|items| - 1], k1) + (if x.0.0 == k1 then [(x.0.1, x.1)] else [])
  }

  datatype NestedEntry<K1, K2> = NestedEntry(key: K1, total: real, children: seq<(K2, real)>)

  /** `Object.entries(acc)` of a finished two-level reduction. */
  function NestedGrouped<K1(==), K2(==)>(items: seq<((K1, K2), real)>): seq<NestedEntry<K1, K2>> {
    var ks := GroupKeys(Outer(items));
    seq(|ks|, i requires 0 <= i < |ks| =>
      NestedEntry(ks[i], KeyTotal(Outer(items), ks[i]), Grouped(Inner(items, ks[i]))))
  }

  datatype Bucket<K2> = Bucket(total: real, sub: Accumulator<K2>)

  /** Bucket `b` holds the reduction of the items under outer key `k`. */
  ghost predicate BucketTracks<K1, K2>(b: Bucket<K2>, items: seq<((K1, K2), real)>, k: K1) {
    b.total == KeyTotal(Outer(items), k) && Tracks(b.sub, Inner(items, k))
  }

  ghost predicate NestedTracks<K1, K2>(order: seq<K1>, buckets: map<K1, Bucket<K2>>, items: seq<((K1, K2), real)>) {
    && order == GroupKeys(Outer(items))
    && (forall k | k in buckets :: k in order)
    && (forall i | 0 <= i < |order| :: order[i] in buckets)
    && BucketsTrack(buckets, items)
  }

  /** Every bucket holds the reduction of the items under its key. */
  ghost predicate BucketsTrack<K1, K2>(buckets: map<K1, Bucket<K2>>, items: seq<((K1, K2), real)>) {
    forall k | k in buckets :: BucketTracks(buckets[k], items, k)
  }

  lemma InnerAbsent<K1, K2>(items: seq<((K1, K2), real)>, k1: K1)
    requires k1 !in KeysOf(Outer(items))
    ensures Inner(items, k1) == []
  {
    if items != [] {
      var init := items[..|items| - 1];
      assert Outer(items) == Outer(init) + [(items[|items| - 1].0.0, items[|items| - 1].1)];
      assert KeysOf(Outer(items)) == KeysOf(Outer(init)) + [items[|items| - 1].0.0];
      InnerAbsent(init, k1);
    }
  }

  lemma InnerStep<K1, K2>(items: seq<((K1, K2), real)>, x: ((K1, K2), real), k1: K1)
    ensures Inner(items + [x], k1) == Inner(items, k1) + (if x.0.0 == k1 then [(x.0.1, x.1)] else [])
    ensures Outer(items + [x]) == Outer(items) + [(x.0.0, x.1)]
  {
    assert (items + [x])[..|items|] == items;
  }

  /** The items-per-bucket update for one more item. */
  function Absorb<K2>(b: Bucket<K2>, k2: K2, v: real): Bucket<K2> {
    Bucket(b.total + v, Add(b.sub, k2, v))
  }

  /** One bucket, tracking the items under key `k`, absorbs one more item. */
  lemma BucketStep<K1, K2>(b: Bucket<K2>, items: seq<((K1, K2), real)>, x: ((K1, K2), real), k: K1)
    requires BucketTracks(b, items, k)
    ensures BucketTracks(if x.0.0 == k then Absorb(b, x.0.1, x.1) else b, items + [x], k)
  {
    InnerStep(items, x, k);
    KeyTotalStep(Outer(items), (x.0.0, x.1), k);
    if x.0.0 == k {
      AddTracks(b.sub, Inner(items, k), x.0.1, x.1);
    } else {
      assert Inner(items + [x], k) == Inner(items, k);
    }
  }

  /** The bucket of a key not yet seen starts empty. */
  lemma FreshBucket<K1, K2>(items: seq<((K1, K2), real)>, k: K1)
    requires k !in GroupKeys(Outer(items))
    ensures BucketTracks(Bucket(0.0, Empty<K2>()), items, k)
  {
    KeyTotalAbsent(Outer(items), k);
    InnerAbsent(items, k);
    EmptyTracks<K2>();
  }

  lemma OuterKeysStep<K1, K2>(items: seq<((K1, K2), real)>, x: ((K1, K2), real))
    ensures GroupKeys(Outer(items + [x])) ==
      if x.0.0 in GroupKeys(Outer(items)) then GroupKeys(Outer(items)) else GroupKeys(Outer(items)) + [x.0.0]
  {
    InnerStep(items, x, x.0.0);
    GroupKeysStep(Outer(items), (x.0.0, x.1));
  }

  /** An item under an outer key already seen updates that key's bucket. */
  lemma NestedAddSeen<K1, K2>(order: seq<K1>, buckets: map<K1, Bucket<K2>>,
                              items: seq<((K1, K2), real)>, x: ((K1, K2), real))
    requires NestedTracks(order, buckets, items)
    requires x.0.0 in buckets
    ensures NestedTracks(order, buckets[x.0.0 := Absorb(buckets[x.0.0], x.0.1, x.1)], items + [x])
  {
    var b := Absorb(buckets[x.0.0], x.0.1, x.1);
    SeenKeyList(order, buckets, items, x);
    SeenKeyBuckets(buckets, buckets[x.0.0 := b], items, x);
    SeenKeyOrder(order, buckets, x.0.0, b);
    NestedTracksIntro(order, buckets[x.0.0 := b], items + [x]);
  }

  lemma SeenKeyList<K1, K2>(order: seq<K1>, buckets: map<K1, Bucket<K2>>,
                            items: seq<((K1, K2), real)>, x: ((K1, K2), real))
    requires order == GroupKeys(Outer(items))
    requires forall k | k in buckets :: k in order
    requires x.0.0 in buckets
    ensures order == GroupKeys(Outer(items + [x]))
  {
    OuterKeysStep(items, x);
  }

  lemma NestedTracksIntro<K1, K2>(order: seq<K1>, buckets: map<K1, Bucket<K2>>, items: seq<((K1, K2), real)>)
    requires order == GroupKeys(Outer(items))
    requires forall k | k in buckets :: k in order
    requires forall i | 0 <= i < |order| :: order[i] in buckets
    requires BucketsTrack(buckets, items)
    ensures NestedTracks(order, buckets, items)
  {
  }

  lemma SeenKeyBuckets<K1, K2>(buckets: map<K1, Bucket<K2>>, buckets': map<K1, Bucket<K2>>,
                               items: seq<((K1, K2), real)>, x: ((K1, K2), real))
    requires BucketsTrack(buckets, items)
    requires x.0.0 in buckets && buckets' == buckets[x.0.0 := Absorb(buckets[x.0.0], x.0.1, x.1)]
    ensures BucketsTrack(buckets', items + [x])
  {
    forall k | k in buckets' ensures BucketTracks(buckets'[k], items + [x], k) {
      BucketStep(buckets[k], items, x, k);
    }
  }

  lemma SeenKeyOrder<K1, K2>(order: seq<K1>, buckets: map<K1, Bucket<K2>>, k1: K1, b: Bucket<K2>)
    requires forall i | 0 <= i < |order| :: order[i] in buckets
    requires forall k | k in buckets :: k in order
    requires k1 in buckets
    ensures forall i | 0 <= i < |order| :: order[i] in buckets[k1 := b]
    ensures forall k | k in buckets[k1 := b] :: k in order
  {
  }

  /** Every bucket, including a fresh one for a new key, absorbs the item. */
  lemma NewKeyBuckets<K1, K2>(buckets: map<K1, Bucket<K2>>, buckets': map<K1, Bucket<K2>>,
                              items: seq<((K1, K2), real)>, x: ((K1, K2), real))
    requires BucketsTrack(buckets, items)
    requires x.0.0 !in GroupKeys(Outer(items))
    requires buckets' == buckets[x.0.0 := Absorb(Bucket(0.0, Empty()), x.0.1, x.1)]
    ensures BucketsTrack(buckets', items + [x])
  {
    FreshBucket<K1, K2>(items, x.0.0);
    forall k | k in buckets' ensures BucketTracks(buckets'[k], items + [x], k) {
      if k == x.0.0 {
        BucketStep(Bucket(0.0, Empty()), items, x, k);
      } else {
        BucketStep(buckets[k], items, x, k);
      }
    }
  }

  /** An item under a new outer key opens a bucket for it, after the others. */
  lemma NestedAddNew<K1, K2>(order: seq<K1>, buckets: map<K1, Bucket<K2>>,
                             items: seq<((K1, K2), real)>, x: ((K1, K2), real))
    requires NestedTracks(order, buckets, items)
    requires x.0.0 !in buckets
    ensures NestedTracks(order + [x.0.0], buckets[x.0.0 := Absorb(Bucket(0.0, Empty()), x.0.1, x.1)], items + [x])
  {
    var k1 := x.0.0;
    var b := Absorb(Bucket(0.0, Empty()), x.0.1, x.1);
    assert k1 !in order by {
      NewKeyAbsent(order, buckets, k1);
    }
    OuterKeysStep(items, x);
    assert order + [k1] == GroupKeys(Outer(items + [x]));
    NewKeyBuckets(buckets, buckets[k1 := b], items, x);
    NewKeyOrder(order, buckets, k1, b);
  }

  lemma NewKeyAbsent<K1, K2>(order: seq<K1>, buckets: map<K1, Bucket<K2>>, k1: K1)
    requires forall i | 0 <= i < |order| :: order[i] in buckets
    requires k1 !in buckets
    ensures k1 !in order
  {
  }

  lemma NewKeyOrder<K1, K2>(order: seq<K1>, buckets: map<K1, Bucket<K2>>, k1: K1, b: Bucket<K2>)
    requires forall i | 0 <= i < |order| :: order[i] in buckets
    requires forall k | k in buckets :: k in order
    ensures forall i | 0 <= i < |order + [k1]| :: (order + [k1])[i] in buckets[k1 := b]
    ensures forall k | k in buckets[k1 := b] :: k in order + [k1]
  {
  }

  /** `Object.entries(acc)` of the two-level accumulator. */
  function NestedEntries<K1, K2>(order: seq<K1>, buckets: map<K1, Bucket<K2>>): seq<NestedEntry<K1, K2>> {
    seq(|order|, j requires 0 <= j < |order| =>
      var b := if order[j] in buckets then buckets[order[j]] else Bucket(0.0, Empty());
      NestedEntry(order[j], b.total, Entries(b.sub)))
  }

  lemma NestedEntriesGrouped<K1, K2>(order: seq<K1>, buckets: map<K1, Bucket<K2>>, items: seq<((K1, K2), real)>)
    requires NestedTracks(order, buckets, items)
    ensures NestedEntries(order, buckets) == NestedGrouped(items)
  {
    forall j | 0 <= j < |order| ensures NestedEntries(order, buckets)[j] == NestedGrouped(items)[j] {
      assert BucketTracks(buckets[order[j]], items, order[j]);
      EntriesGrouped(buckets[order[j]].sub, Inner(items, order[j]));
    }
  }

  /** The two-level reduction loop. */
  method NestedTally<K1(==), K2(==)>(items: seq<((K1, K2), real)>) returns (entries: seq<NestedEntry<K1, K2>>)
    ensures entries == NestedGrouped(items)
  {
    var order: seq<K1> := [];
    var buckets: map<K1, Bucket<K2>> := map[];
    var i := 0;
    while i < |items|
      invariant 0 <= i <= |items|
      invariant NestedTracks(order, buckets, items[..i])
    {
      var x := items[i];
      PrefixStep(items, i);
      if x.0.0 in buckets {
        NestedAddSeen(order, buckets, items[..i], x);
        buckets := buckets[x.0.0 := Absorb(buckets[x.0.0], x.0.1, x.1)];
      } else {
        NestedAddNew(order, buckets, items[..i], x);
        order := order + [x.0.0];
        buckets := buckets[x.0.0 := Absorb(Bucket(0.0, Empty()), x.0.1, x.1)];
      }
      i := i + 1;
    }
    assert items[..i] == items;
    NestedEntriesGrouped(order, buckets, items);
    entries := NestedEntries(order, buckets);
  }

  /** The values under one outer key add up to that key's total. */
  lemma {:induction false} InnerSum<K1, K2>(items: seq<((K1, K2), real)>, k1: K1)
    ensures Sum(Inner(items, k1), (e: (K2, real)) => e.1) == KeyTotal(Outer(items), k1)
  {
    if items != [] {
      var init, x := items[..|items| - 1], items[|items| - 1];
      assert init + [x] == items;
      InnerSum(init, k1);
      InnerStep(init, x, k1);
      KeyTotalStep(Outer(init), (x.0.0, x.1), k1);
      SumAppend(Inner(init, k1), if x.0.0 == k1 then [(x.0.1, x.1)] else [], (e: (K2, real)) => e.1);
      var one: seq<(K2, real)> := [(x.0.1, x.1)];
      assert one[..0] == [];
    }
  }

  /** Each outer entry's total is the sum of its children's values. */
  lemma NestedChildrenSum<K1, K2>(items: seq<((K1, K2), real)>, i: nat)
    requires i < |NestedGrouped(items)|
    ensures var e := NestedGrouped(items)[i]; Values(e.children) == e.total
  {
    var k := GroupKeys(Outer(items))[i];
    GroupedSum(Inner(items, k));
    InnerSum(items, k);
  }
}
