/**
 * Phase 1 of the review pipeline: the candidate products found by the SEO
 * queries are de-duplicated by name, ranked by search volume (highest first,
 * stable among equal volumes) and cut to the requested count.
 */
module Trending {
  import opened Wrappers

  /** A candidate product; `searchVolume` and `category` may be missing from the record. */
  datatype Product = Product(name: string, category: Option<string>, searchVolume: Option<int>)

  /** The sort key: `product.get('search_volume', 0)`. */
  function Volume(p: Product): int {
    p.searchVolume.GetOr(0)
  }

  // ----- de-duplication -----

  /** `ps[i]` is the first product in `ps` that carries its name. */
  ghost predicate IsFirstOccurrence(ps: seq<Product>, i: int)
    requires 0 <= i < |ps|
  {
    forall j :: 0 <= j < i ==> ps[j].name != ps[i].name
  }

  /** Reference definition: the first occurrences of every name, in input order. */
  ghost function FirstOccurrences(ps: seq<Product>): seq<Product>
  {
    if |ps| == 0 then []
    else FirstOccurrences(ps[..|ps| - 1])
         + (if IsFirstOccurrence(ps, |ps| - 1) then [ps[|ps| - 1]] else [])
  }

  ghost function NamesOf(ps: seq<Product>): set<string> {
    set p | p in ps :: p.name
  }

  ghost predicate DistinctNames(ps: seq<Product>) {
    forall i, j :: 0 <= i < j < |ps| ==> ps[i].name != ps[j].name
  }

  /** A product that is the first of its name carries a name not seen before it. */
  lemma FirstOccurrenceIsNew(ps: seq<Product>)
    requires |ps| > 0
    ensures IsFirstOccurrence(ps, |ps| - 1) <==> ps[|ps| - 1].name !in NamesOf(ps[..|ps| - 1])
  {
    var init := ps[..|ps| - 1];
    if ps[|ps| - 1].name in NamesOf(init) {
      var p :| p in init && p.name == ps[|ps| - 1].name;
      var j :| 0 <= j < |init| && init[j] == p;
      assert ps[j] == p;
    }
  }

  /** The first-occurrence list carries exactly the names of the input. */
  lemma {:induction false} FirstOccurrencesNames(ps: seq<Product>)
    ensures NamesOf(FirstOccurrences(ps)) == NamesOf(ps)
  {
    if |ps| > 0 {
      var init := ps[..|ps| - 1];
      var last := ps[|ps| - 1];
      FirstOccurrencesNames(init);
      FirstOccurrenceIsNew(ps);
      assert ps == init + [last];
      assert NamesOf(ps) == NamesOf(init) + {last.name};
      var u := FirstOccurrences(init);
      if IsFirstOccurrence(ps, |ps| - 1) {
        assert NamesOf(u + [last]) == NamesOf(u) + {last.name};
      }
    }
  }

  /** No two products in the first-occurrence list share a name. */
  lemma {:induction false} FirstOccurrencesDistinct(ps: seq<Product>)
    ensures DistinctNames(FirstOccurrences(ps))
  {
    if |ps| > 0 {
      var init := ps[..|ps| - 1];
      var last := ps[|ps| - 1];
      FirstOccurrencesDistinct(init);
      var u := FirstOccurrences(init);
      if IsFirstOccurrence(ps, |ps| - 1) {
        FirstOccurrenceIsNew(ps);
        FirstOccurrencesNames(init);
        var r := u + [last];
        forall i, j | 0 <= i < j < |r|
          ensures r[i].name != r[j].name
        {
          if j == |u| {
            assert r[i] in u;
            assert r[i].name in NamesOf(u);
          } else {
            assert r[i] == u[i] && r[j] == u[j];
          }
        }
      }
    }
  }

  /** `q` is the record at the first position of its name in `ps`. */
  ghost predicate KeptFirst(ps: seq<Product>, q: Product) {
    exists i :: 0 <= i < |ps| && ps[i] == q && IsFirstOccurrence(ps, i)
  }

  /** Every record the first-occurrence list keeps is the first one of its name in the input. */
  lemma {:induction false} FirstOccurrencesKept(ps: seq<Product>)
    ensures forall k :: 0 <= k < |FirstOccurrences(ps)| ==> KeptFirst(ps, FirstOccurrences(ps)[k])
  {
    if |ps| > 0 {
      var init := ps[..|ps| - 1];
      var last := ps[|ps| - 1];
      FirstOccurrencesKept(init);
      var u := FirstOccurrences(init);
      var r := FirstOccurrences(ps);
      forall k | 0 <= k < |r|
        ensures KeptFirst(ps, r[k])
      {
        if k < |u| {
          assert r[k] == u[k];
          assert KeptFirst(init, u[k]);
          var i :| 0 <= i < |init| && init[i] == u[k] && IsFirstOccurrence(init, i);
          assert ps[i] == init[i];
          assert IsFirstOccurrence(ps, i);
        } else {
          assert r[k] == last;
          assert IsFirstOccurrence(ps, |ps| - 1);
        }
      }
    }
  }

  /**
   * The first-occurrence list has pairwise distinct names, carries exactly
   * the names of the input, and every record it keeps is the first one of
   * its name in the input.
   */
  lemma FirstOccurrencesCorrect(ps: seq<Product>)
    ensures DistinctNames(FirstOccurrences(ps))
    ensures NamesOf(FirstOccurrences(ps)) == NamesOf(ps)
    ensures forall k :: 0 <= k < |FirstOccurrences(ps)| ==> KeptFirst(ps, FirstOccurrences(ps)[k])
  {
    FirstOccurrencesNames(ps);
    FirstOccurrencesDistinct(ps);
    FirstOccurrencesKept(ps);
  }

  /**
   * `_deduplicate_and_rank`, first half: a `seen_names` set decides whether a
   * product is appended; the result is the first occurrence of every name.
   */
  method Deduplicate(products: seq<Product>) returns (unique: seq<Product>)
    ensures unique == FirstOccurrences(products)
    ensures DistinctNames(unique)
    ensures NamesOf(unique) == NamesOf(products)
  {
    var seen: set<string> := {};
    unique := [];
    var i := 0;
    while i < |products|
      invariant 0 <= i <= |products|
      invariant seen == NamesOf(products[..i])
      invariant unique == FirstOccurrences(products[..i])
    {
      var p := products[i];
      assert products[..i + 1][..i] == products[..i];
      assert products[..i + 1] == products[..i] + [p];
      if p.name !in seen {
        assert IsFirstOccurrence(products[..i + 1], i) by {
          forall j | 0 <= j < i
            ensures products[j].name != p.name
          {
            assert products[j] in products[..i];
          }
        }
        seen := seen + {p.name};
        unique := unique + [p];
      } else {
        var q :| q in products[..i] && q.name == p.name;
        var j :| 0 <= j < i && products[..i][j] == q;
        assert !IsFirstOccurrence(products[..i + 1], i) by {
          assert products[..i + 1][j].name == products[..i + 1][i].name;
        }
      }
      i := i + 1;
    }
    assert products[..i] == products;
    FirstOccurrencesCorrect(products);
  }

  // ----- ranking -----

  ghost predicate NonIncreasing(ps: seq<Product>) {
    forall i, j :: 0 <= i < j < |ps| ==> Volume(ps[i]) >= Volume(ps[j])
  }

  /** The products with volume `v`, in order: a stable sort leaves this unchanged for every `v`. */
  function WithVolume(ps: seq<Product>, v: int): seq<Product> {
    if |ps| == 0 then []
    else (if Volume(ps[0]) == v then [ps[0]] else []) + WithVolume(ps[1..], v)
  }

  lemma {:induction false} WithVolumeAppend(a: seq<Product>, b: seq<Product>, v: int)
    ensures WithVolume(a + b, v) == WithVolume(a, v) + WithVolume(b, v)
  {
    if |a| > 0 {
      assert (a + b)[1..] == a[1..] + b;
      WithVolumeAppend(a[1..], b, v);
    } else {
      assert a + b == b;
    }
  }

  lemma {:induction false} WithVolumeNone(ps: seq<Product>, v: int)
    requires forall i :: 0 <= i < |ps| ==> Volume(ps[i]) < v
    ensures WithVolume(ps, v) == []
  {
    if |ps| > 0 {
      WithVolumeNone(ps[1..], v);
    }
  }

  /** Places `p` in front of the first product whose volume is smaller than its own. */
  function Insert(p: Product, sorted: seq<Product>): seq<Product> {
    if |sorted| == 0 then [p]
    else if Volume(sorted[0]) < Volume(p) then [p] + sorted
    else [sorted[0]] + Insert(p, sorted[1..])
  }

  lemma {:induction false} InsertSorted(p: Product, sorted: seq<Product>)
    requires NonIncreasing(sorted)
    ensures NonIncreasing(Insert(p, sorted))
    ensures forall q :: q in Insert(p, sorted) ==> q in sorted || q == p
  {
    if |sorted| > 0 && Volume(sorted[0]) >= Volume(p) {
      var tail := sorted[1..];
      InsertSorted(p, tail);
      assert forall q :: q in tail ==> Volume(q) <= Volume(sorted[0]);
    }
  }

  lemma {:induction false} InsertPermutes(p: Product, sorted: seq<Product>)
    ensures multiset(Insert(p, sorted)) == multiset(sorted) + multiset{p}
  {
    if |sorted| > 0 && Volume(sorted[0]) >= Volume(p) {
      InsertPermutes(p, sorted[1..]);
      assert sorted == [sorted[0]] + sorted[1..];
    }
  }

  lemma {:induction false} InsertStable(p: Product, sorted: seq<Product>, v: int)
    requires NonIncreasing(sorted)
    ensures WithVolume(Insert(p, sorted), v) == WithVolume(sorted, v) + (if Volume(p) == v then [p] else [])
  {
    if |sorted| == 0 {
      assert WithVolume([p], v) == (if Volume(p) == v then [p] else []) + WithVolume([], v);
    } else if Volume(sorted[0]) < Volume(p) {
      var r := [p] + sorted;
      assert r[1..] == sorted;
      if Volume(p) == v {
        WithVolumeNone(sorted, v);
      }
    } else {
      var tail := sorted[1..];
      InsertStable(p, tail, v);
      var r := [sorted[0]] + Insert(p, tail);
      assert r[1..] == Insert(p, tail);
    }
  }

  /** One step of the insertion sort: inserting the last product into the sorted prefix. */
  lemma SortStep(init: seq<Product>, last: Product, sortedInit: seq<Product>)
    requires NonIncreasing(sortedInit)
    requires multiset(sortedInit) == multiset(init)
    requires forall v :: WithVolume(sortedInit, v) == WithVolume(init, v)
    ensures NonIncreasing(Insert(last, sortedInit))
    ensures multiset(Insert(last, sortedInit)) == multiset(init + [last])
    ensures forall v :: WithVolume(Insert(last, sortedInit), v) == WithVolume(init + [last], v)
  {
    InsertSorted(last, sortedInit);
    InsertPermutes(last, sortedInit);
    forall v ensures WithVolume(Insert(last, sortedInit), v) == WithVolume(init + [last], v) {
      InsertStable(last, sortedInit, v);
      WithVolumeAppend(init, [last], v);
      assert WithVolume([last], v) == (if Volume(last) == v then [last] else []) + WithVolume([], v);
    }
  }

  /**
   * `sorted(unique_products, key=search_volume, reverse=True)`: Python's sort
   * is stable even with `reverse=True`, so equal volumes keep their order.
   */
  function SortByVolume(ps: seq<Product>): (r: seq<Product>)
    ensures NonIncreasing(r)
    ensures multiset(r) == multiset(ps)
    ensures forall v :: WithVolume(r, v) == WithVolume(ps, v)
  {
    if |ps| == 0 then []
    else
      var init := ps[..|ps| - 1];
      var last := ps[|ps| - 1];
      assert ps == init + [last];
      var sortedInit := SortByVolume(init);
      SortStep(init, last, sortedInit);
      Insert(last, sortedInit)
  }

  /**
   * `_deduplicate_and_rank`: first occurrences of each name, ordered by
   * non-increasing search volume, first-seen order among equal volumes.
   */
  method DeduplicateAndRank(products: seq<Product>) returns (ranked: seq<Product>)
    ensures NonIncreasing(ranked)
    ensures DistinctNames(ranked)
    ensures NamesOf(ranked) == NamesOf(products)
    ensures multiset(ranked) == multiset(FirstOccurrences(products))
    ensures forall v :: WithVolume(ranked, v) == WithVolume(FirstOccurrences(products), v)
  {
    var unique := Deduplicate(products);
    ranked := SortByVolume(unique);
    PermutationKeepsNames(unique, ranked);
  }

  lemma PermutationKeepsNames(a: seq<Product>, b: seq<Product>)
    requires multiset(a) == multiset(b)
    requires DistinctNames(a)
    ensures DistinctNames(b)
    ensures NamesOf(a) == NamesOf(b)
  {
    assert forall p :: p in a <==> p in b by {
      forall p ensures p in a <==> p in b {
        assert p in a <==> p in multiset(a);
        assert p in b <==> p in multiset(b);
      }
    }
    forall i, j | 0 <= i < j < |b|
      ensures b[i].name != b[j].name
    {
      PermutationNoRepeat(a, b, i, j);
      assert b[i] in a && b[j] in a;
      DistinctRecordsDistinctNames(a, b[i], b[j]);
    }
  }

  /** In a list with distinct names, different records have different names. */
  lemma DistinctRecordsDistinctNames(a: seq<Product>, p: Product, q: Product)
    requires DistinctNames(a)
    requires p in a && q in a && p != q
    ensures p.name != q.name
  {
    var k :| 0 <= k < |a| && a[k] == p;
    var m :| 0 <= m < |a| && a[m] == q;
    if k < m {
      assert a[k].name != a[m].name;
    } else {
      assert a[m].name != a[k].name;
    }
  }

  /** A permutation of a list with distinct names repeats no record. */
  lemma PermutationNoRepeat(a: seq<Product>, b: seq<Product>, i: int, j: int)
    requires multiset(a) == multiset(b)
    requires DistinctNames(a)
    requires 0 <= i < j < |b|
    ensures b[i] != b[j]
  {
    if b[i] == b[j] {
      var rest := b[..i] + b[i + 1..j] + b[j + 1..];
      assert b == b[..i] + [b[i]] + b[i + 1..j] + [b[j]] + b[j + 1..];
      assert multiset(b) == multiset(rest) + multiset{b[i], b[j]};
      assert b[i] in multiset(a);
      var k :| 0 <= k < |a| && a[k] == b[i];
      forall n | 0 <= n < |a| && n != k
        ensures a[n] != a[k]
      {
        if n < k { assert a[n].name != a[k].name; } else { assert a[k].name != a[n].name; }
      }
      MultiplicityOne(a, k);
      assert false;
    }
  }

  lemma MultiplicityOne(a: seq<Product>, k: int)
    requires 0 <= k < |a|
    requires forall m :: 0 <= m < |a| && m != k ==> a[m] != a[k]
    ensures multiset(a)[a[k]] == 1
  {
    var x := a[k];
    assert a == a[..k] + [x] + a[k + 1..];
    assert x !in a[..k];
    assert x !in a[k + 1..];
    assert multiset(a) == multiset(a[..k]) + multiset{x} + multiset(a[k + 1..]);
  }

  // ----- the cap -----

  /** Python's `s[:n]`: a negative `n` counts back from the end. */
  function PyTake(s: seq<Product>, n: int): (r: seq<Product>)
    ensures n >= 0 ==> |r| == if n < |s| then n else |s|
    ensures n < 0 ==> |r| == if |s| + n > 0 then |s| + n else 0
    ensures r == s[..|r|]
  {
    if n >= 0 then (if n < |s| then s[..n] else s)
    else (if |s| + n > 0 then s[..|s| + n] else [])
  }

  function Flatten(batches: seq<seq<Product>>): seq<Product> {
    if |batches| == 0 then [] else Flatten(batches[..|batches| - 1]) + batches[|batches| - 1]
  }

  /**
   * `ranked` orders the first occurrences in `products` by search volume,
   * highest first, keeping their order among equal volumes (a stable sort).
   */
  ghost predicate IsRanking(ranked: seq<Product>, products: seq<Product>) {
    && multiset(ranked) == multiset(FirstOccurrences(products))
    && NonIncreasing(ranked)
    && (forall v :: WithVolume(ranked, v) == WithVolume(FirstOccurrences(products), v))
  }

  /**
   * `top` is what the cap leaves of a ranking of the unique `products`: the
   * first `count` entries of some ranking (Python slice semantics), hence
   * still ranked, distinct by name, and each one of the given products.
   */
  ghost predicate TopRanked(top: seq<Product>, products: seq<Product>, count: int) {
    && (count >= 0 ==> |top| <= count)
    && NonIncreasing(top)
    && DistinctNames(top)
    && (forall p :: p in top ==> p in products)
    && (exists ranked :: IsRanking(ranked, products) && top == PyTake(ranked, count))
  }

  /**
   * On a tie at the cut, the product that came first in the search results
   * survives: if a later first occurrence made the cut, so did every earlier
   * one of the same volume.
   */
  lemma TieKeepsSearchOrder(products: seq<Product>, count: int, top: seq<Product>, i: int, j: int)
    requires TopRanked(top, products, count)
    requires 0 <= i < j < |FirstOccurrences(products)|
    requires Volume(FirstOccurrences(products)[i]) == Volume(FirstOccurrences(products)[j])
    requires FirstOccurrences(products)[j] in top
    ensures FirstOccurrences(products)[i] in top
  {
    var f := FirstOccurrences(products);
    var v := Volume(f[j]);
    var ranked :| IsRanking(ranked, products) && top == PyTake(ranked, count);
    var kept := WithVolume(top, v);
    var earlier := WithVolume(f[..j], v);
    CutPrefix(top, ranked, v);
    assert kept <= WithVolume(f, v);
    FirstOccurrencesDistinct(products);
    EarlierTied(f, i, j, v);
    var k :| 0 <= k < |top| && top[k] == f[j];
    WithVolumeIndex(top, k, v);
    TiedPrefix(kept, earlier, WithVolume(f, v), f[j], f[i]);
    WithVolumeSub(top, v);
  }

  /** A product of volume `v` is among the products of volume `v`. */
  lemma {:induction false} WithVolumeIndex(ps: seq<Product>, k: int, v: int)
    requires 0 <= k < |ps| && Volume(ps[k]) == v
    ensures ps[k] in WithVolume(ps, v)
  {
    if k > 0 {
      WithVolumeIndex(ps[1..], k - 1, v);
      assert ps[1..][k - 1] == ps[k];
    }
  }

  /** The products of volume `v` are products of the list. */
  lemma {:induction false} WithVolumeSub(ps: seq<Product>, v: int)
    ensures forall p :: p in WithVolume(ps, v) ==> p in ps
  {
    if |ps| > 0 {
      WithVolumeSub(ps[1..], v);
      forall p | p in WithVolume(ps[1..], v) ensures p in ps {
        assert p in ps[1..];
      }
    }
  }

  /** Cutting a list keeps a prefix of its products of each volume. */
  lemma CutPrefix(top: seq<Product>, ranked: seq<Product>, v: int)
    requires |top| <= |ranked| && top == ranked[..|top|]
    ensures WithVolume(top, v) <= WithVolume(ranked, v)
  {
    var rest := ranked[|top|..];
    assert ranked == top + rest;
    WithVolumeAppend(top, rest, v);
    var a := WithVolume(top, v);
    assert (a + WithVolume(rest, v))[..|a|] == a;
  }

  /**
   * In a list with distinct names, the products of volume `v` before index
   * `j` lead its products of volume `v`; they include an earlier `ps[i]` of
   * that volume and not `ps[j]`.
   */
  lemma EarlierTied(ps: seq<Product>, i: int, j: int, v: int)
    requires DistinctNames(ps)
    requires 0 <= i < j < |ps| && Volume(ps[i]) == v
    ensures WithVolume(ps[..j], v) <= WithVolume(ps, v)
    ensures ps[i] in WithVolume(ps[..j], v)
    ensures ps[j] !in WithVolume(ps[..j], v)
  {
    CutPrefix(ps[..j], ps, v);
    WithVolumeIndex(ps[..j], i, v);
    WithVolumeSub(ps[..j], v);
    forall k | 0 <= k < j
      ensures ps[..j][k] != ps[j]
    {
      assert ps[k].name != ps[j].name;
    }
  }

  /**
   * Two prefixes of one sequence: when `x` is in `kept` but not in
   * `earlier`, `kept` is the longer one, so it holds all of `earlier`.
   */
  lemma TiedPrefix(kept: seq<Product>, earlier: seq<Product>, w: seq<Product>, x: Product, y: Product)
    requires kept <= w && earlier <= w
    requires x in kept && x !in earlier
    requires y in earlier
    ensures y in kept
  {
    var m :| 0 <= m < |kept| && kept[m] == x;
    assert w[m] == x;
    assert m >= |earlier| by {
      assert forall n :: 0 <= n < |earlier| ==> earlier[n] == w[n] && earlier[n] != x;
    }
    assert earlier == kept[..|earlier|];
  }

  /** For exactly two tied products and a cut of one, the cut keeps the first. */
  lemma TiedPairCut(a: Product, b: Product, top: seq<Product>)
    requires a.name != b.name && Volume(a) == Volume(b)
    requires TopRanked(top, [a, b], 1)
    ensures top == [a]
  {
    var ranked :| IsRanking(ranked, [a, b]) && top == PyTake(ranked, 1);
    DistinctPairFirstOccurrences(a, b);
    TiedPairRanking(a, b, ranked);
  }

  /** A stable ordering of two tied products keeps them in their search order. */
  lemma TiedPairRanking(a: Product, b: Product, ranked: seq<Product>)
    requires Volume(a) == Volume(b)
    requires multiset(ranked) == multiset([a, b])
    requires WithVolume(ranked, Volume(a)) == WithVolume([a, b], Volume(a))
    ensures ranked == [a, b]
  {
    TiedElements(ranked, a, b);
    SameVolumeKept(ranked, Volume(a));
    SameVolumeKept([a, b], Volume(a));
  }

  /** A permutation of two tied products has only products of their volume. */
  lemma TiedElements(ranked: seq<Product>, a: Product, b: Product)
    requires Volume(a) == Volume(b)
    requires multiset(ranked) == multiset([a, b])
    ensures forall k :: 0 <= k < |ranked| ==> Volume(ranked[k]) == Volume(a)
  {
    forall k | 0 <= k < |ranked|
      ensures Volume(ranked[k]) == Volume(a)
    {
      assert ranked[k] in multiset(ranked);
      assert ranked[k] in multiset([a, b]);
    }
  }

  lemma DistinctPairFirstOccurrences(a: Product, b: Product)
    requires a.name != b.name
    ensures FirstOccurrences([a, b]) == [a, b]
  {
    assert [a, b][..1] == [a] && [a][..0] == [];
    assert IsFirstOccurrence([a], 0);
    assert FirstOccurrences([a]) == FirstOccurrences([]) + [a];
    assert IsFirstOccurrence([a, b], 1);
    assert FirstOccurrences([a, b]) == FirstOccurrences([a]) + [b];
  }

  /** Filtering by a volume every product has keeps them all. */
  lemma {:induction false} SameVolumeKept(ps: seq<Product>, v: int)
    requires forall k :: 0 <= k < |ps| ==> Volume(ps[k]) == v
    ensures WithVolume(ps, v) == ps
  {
    if |ps| > 0 {
      SameVolumeKept(ps[1..], v);
    }
  }

  /**
   * `find_trending_products`: the results of the search queries are
   * concatenated in order, de-duplicated and ranked, and the first `count`
   * of them returned.
   */
  method FindTrendingProducts(queryResults: seq<seq<Product>>, count: int) returns (top: seq<Product>)
    ensures TopRanked(top, Flatten(queryResults), count)
  {
    var all := Flatten(queryResults);
    var ranked := DeduplicateAndRank(all);
    top := PyTake(ranked, count);
    assert IsRanking(ranked, all);
    assert forall p :: p in top ==> p in ranked;
    forall p | p in top ensures p in all {
      assert p in multiset(ranked);
      var k :| 0 <= k < |FirstOccurrences(all)| && FirstOccurrences(all)[k] == p;
      FirstOccurrencesCorrect(all);
    }
  }
}
