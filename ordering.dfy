/**
 * The sort step of the inventory view: the comparator chosen by the sort
 * key, and the stable sort that `Array.prototype.sort` is required to be
 * (section 23.1.3.30 of ECMA-262, 2023 edition), modelled as an in-place
 * insertion sort that moves an element left only past strictly greater ones.
 */
module Ordering {
  import opened Catalog
  import opened JsArray

  /** The comparator handed to `result.sort`: negative, zero or positive. */
  function Compare(sortKey: string, a: Car, b: Car): int {
    match sortKey
    case "price_asc" => a.price - b.price
    case "price_desc" => b.price - a.price
    case "year_asc" => a.year - b.year
    case "year_desc" => b.year - a.year
    case _ => 0
  }

  /** The orders the sort select can ask for; every other key keeps feed order. */
  datatype SortOrder = PriceAscending | PriceDescending | YearAscending | YearDescending | FeedOrder

  function OrderOf(sortKey: string): SortOrder {
    match sortKey
    case "price_asc" => PriceAscending
    case "price_desc" => PriceDescending
    case "year_asc" => YearAscending
    case "year_desc" => YearDescending
    case _ => FeedOrder
  }

  /** The number each car is effectively ordered by under a sort key. */
  function Rank(sortKey: string, c: Car): int {
    match OrderOf(sortKey)
    case PriceAscending => c.price
    case PriceDescending => -c.price
    case YearAscending => c.year
    case YearDescending => -c.year
    case FeedOrder => 0
  }

  /** Every comparator is the difference of ranks, so it is a consistent total preorder. */
  lemma CompareIsRankDifference(sortKey: string, a: Car, b: Car)
    ensures Compare(sortKey, a, b) == Rank(sortKey, a) - Rank(sortKey, b)
    ensures Compare(sortKey, a, b) > 0 <==> Rank(sortKey, a) > Rank(sortKey, b)
  {
  }

  /** The keys the comparator knows; every other key compares all cars equal. */
  predicate IsOrderingKey(sortKey: string) {
    sortKey in {"price_asc", "price_desc", "year_asc", "year_desc"}
  }

  /** Non-decreasing in rank. */
  predicate SortedBy(sortKey: string, s: seq<Car>) {
    forall i, j :: 0 <= i < j < |s| ==> Rank(sortKey, s[i]) <= Rank(sortKey, s[j])
  }

  /** The cars of rank `k`. */
  function HasRank(sortKey: string, k: int): Car -> bool {
    c => Rank(sortKey, c) == k
  }

  /** Stability: for every rank, the cars of that rank occur in the same order. */
  ghost predicate StableFor(sortKey: string, r: seq<Car>, s: seq<Car>) {
    forall k :: Filter(HasRank(sortKey, k), r) == Filter(HasRank(sortKey, k), s)
  }

  /**
   * Inserting `x` after a sorted prefix: `x` moves left past every car of
   * strictly greater rank and stops behind the first one that is not.
   */
  function Insert(sortKey: string, s: seq<Car>, x: Car): seq<Car>
    decreases |s|
  {
    if s == [] || Rank(sortKey, s[|s| - 1]) <= Rank(sortKey, x) then s + [x]
    else Insert(sortKey, s[..|s| - 1], x) + [s[|s| - 1]]
  }

  /** The stable insertion sort: the functional specification of the sort step. */
  function SortByRank(sortKey: string, s: seq<Car>): seq<Car>
    decreases |s|
  {
    if s == [] then [] else Insert(sortKey, SortByRank(sortKey, s[..|s| - 1]), s[|s| - 1])
  }

  lemma {:induction false} InsertPermutes(sortKey: string, s: seq<Car>, x: Car)
    ensures multiset(Insert(sortKey, s, x)) == multiset(s) + multiset{x}
    decreases |s|
  {
    if !(s == [] || Rank(sortKey, s[|s| - 1]) <= Rank(sortKey, x)) {
      var init, last := s[..|s| - 1], s[|s| - 1];
      InsertPermutes(sortKey, init, x);
      assert s == init + [last];
    }
  }

  lemma {:induction false} InsertSorted(sortKey: string, s: seq<Car>, x: Car)
    requires SortedBy(sortKey, s)
    ensures SortedBy(sortKey, Insert(sortKey, s, x))
    decreases |s|
  {
    if !(s == [] || Rank(sortKey, s[|s| - 1]) <= Rank(sortKey, x)) {
      var init, last := s[..|s| - 1], s[|s| - 1];
      assert SortedBy(sortKey, init);
      InsertSorted(sortKey, init, x);
      InsertPermutes(sortKey, init, x);
      var front := Insert(sortKey, init, x);
      forall i | 0 <= i < |front| ensures Rank(sortKey, front[i]) <= Rank(sortKey, last) {
        assert front[i] in multiset(front);
        if front[i] != x {
          assert front[i] in multiset(init);
          var m :| 0 <= m < |init| && init[m] == front[i];
          assert s[m] == init[m];
        }
      }
    }
  }

  /** Inserting `x` puts it after every car of its own rank. */
  lemma {:induction false} InsertStable(sortKey: string, s: seq<Car>, x: Car, k: int)
    ensures Filter(HasRank(sortKey, k), Insert(sortKey, s, x))
         == Filter(HasRank(sortKey, k), s) + Filter(HasRank(sortKey, k), [x])
    decreases |s|
  {
    var p := HasRank(sortKey, k);
    if s == [] || Rank(sortKey, s[|s| - 1]) <= Rank(sortKey, x) {
      FilterConcat(p, s, [x]);
    } else {
      var init, last := s[..|s| - 1], s[|s| - 1];
      assert Insert(sortKey, s, x) == Insert(sortKey, init, x) + [last];
      assert s == init + [last];
      InsertStable(sortKey, init, x, k);
      FilterConcat(p, Insert(sortKey, init, x), [last]);
      FilterConcat(p, init, [last]);
      // `last` and `x` have different ranks, so at most one of them is kept.
      KeptOneOfTwo(sortKey, k, x, last);
      var fi, fx, fl := Filter(p, init), Filter(p, [x]), Filter(p, [last]);
      calc {
        Filter(p, Insert(sortKey, s, x));
        Filter(p, Insert(sortKey, init, x)) + fl;
        fi + fx + fl;
        { assert fx + fl == fl + fx; }
        fi + fl + fx;
        Filter(p, s) + fx;
      }
    }
  }

  /** Two cars of different rank: filtering keeps at most one, so their order does not matter. */
  lemma KeptOneOfTwo(sortKey: string, k: int, x: Car, y: Car)
    requires Rank(sortKey, x) != Rank(sortKey, y)
    ensures Filter(HasRank(sortKey, k), [x]) + Filter(HasRank(sortKey, k), [y])
         == Filter(HasRank(sortKey, k), [y]) + Filter(HasRank(sortKey, k), [x])
  {
    FilterSingleton(HasRank(sortKey, k), x);
    FilterSingleton(HasRank(sortKey, k), y);
  }

  lemma {:induction false} SortPermutes(sortKey: string, s: seq<Car>)
    ensures multiset(SortByRank(sortKey, s)) == multiset(s)
    decreases |s|
  {
    if s != [] {
      var init, last := s[..|s| - 1], s[|s| - 1];
      var sortedInit := SortByRank(sortKey, init);
      assert SortByRank(sortKey, s) == Insert(sortKey, sortedInit, last);
      SortPermutes(sortKey, init);
      InsertPermutes(sortKey, sortedInit, last);
      LastSplit(s);
    }
  }

  /** A non-empty sequence's multiset is its front's plus its last element. */
  lemma LastSplit(s: seq<Car>)
    requires s != []
    ensures multiset(s) == multiset(s[..|s| - 1]) + multiset{s[|s| - 1]}
  {
    assert s == s[..|s| - 1] + [s[|s| - 1]];
  }

  lemma {:induction false} SortSorted(sortKey: string, s: seq<Car>)
    ensures SortedBy(sortKey, SortByRank(sortKey, s))
    decreases |s|
  {
    if s != [] {
      SortSorted(sortKey, s[..|s| - 1]);
      InsertSorted(sortKey, SortByRank(sortKey, s[..|s| - 1]), s[|s| - 1]);
    }
  }

  lemma {:induction false} SortStable(sortKey: string, s: seq<Car>)
    ensures StableFor(sortKey, SortByRank(sortKey, s), s)
    decreases |s|
  {
    if s != [] {
      var init, last := s[..|s| - 1], s[|s| - 1];
      SortStable(sortKey, init);
      forall k ensures Filter(HasRank(sortKey, k), SortByRank(sortKey, s)) == Filter(HasRank(sortKey, k), s) {
        InsertStable(sortKey, SortByRank(sortKey, init), last, k);
        FilterConcat(HasRank(sortKey, k), init, [last]);
        assert s == init + [last];
      }
    }
  }

  /** The sort is a sorted, stable permutation of its input. */
  lemma SortCorrect(sortKey: string, s: seq<Car>)
    ensures SortedBy(sortKey, SortByRank(sortKey, s))
    ensures multiset(SortByRank(sortKey, s)) == multiset(s)
    ensures StableFor(sortKey, SortByRank(sortKey, s), s)
  {
    SortSorted(sortKey, s);
    SortPermutes(sortKey, s);
    SortStable(sortKey, s);
  }

  /**
   * Sortedness and stability determine the order: two sorted arrangements
   * that keep every rank's cars in the same order are identical.
   */
  lemma {:induction false} SortedStableUnique(sortKey: string, r1: seq<Car>, r2: seq<Car>)
    requires SortedBy(sortKey, r1) && SortedBy(sortKey, r2)
    requires StableFor(sortKey, r1, r2)
    ensures r1 == r2
    decreases |r1|
  {
    if r1 != [] && r2 != [] {
      HeadsShareRank(sortKey, r1, r2);
      HeadsAndTails(sortKey, r1, r2);
      assert SortedBy(sortKey, r1[1..]) && SortedBy(sortKey, r2[1..]);
      SortedStableUnique(sortKey, r1[1..], r2[1..]);
      assert r1 == [r1[0]] + r1[1..] && r2 == [r2[0]] + r2[1..];
    } else if r1 != [] {
      SameMembers(sortKey, r1, r2, r1[0]);
    } else if r2 != [] {
      StableForSymmetric(sortKey, r1, r2);
      SameMembers(sortKey, r2, r1, r2[0]);
    }
  }

  lemma StableForSymmetric(sortKey: string, r1: seq<Car>, r2: seq<Car>)
    requires StableFor(sortKey, r1, r2)
    ensures StableFor(sortKey, r2, r1)
  {
  }

  /** Both heads have the smallest rank, since both arrangements hold the same cars. */
  lemma HeadsShareRank(sortKey: string, r1: seq<Car>, r2: seq<Car>)
    requires SortedBy(sortKey, r1) && SortedBy(sortKey, r2)
    requires StableFor(sortKey, r1, r2)
    requires r1 != [] && r2 != []
    ensures Rank(sortKey, r1[0]) == Rank(sortKey, r2[0])
  {
    SameMembers(sortKey, r1, r2, r1[0]);
    StableForSymmetric(sortKey, r1, r2);
    SameMembers(sortKey, r2, r1, r2[0]);
    var m1 :| 0 <= m1 < |r1| && r1[m1] == r2[0];
    var m2 :| 0 <= m2 < |r2| && r2[m2] == r1[0];
    assert m1 == 0 || Rank(sortKey, r1[0]) <= Rank(sortKey, r1[m1]);
    assert m2 == 0 || Rank(sortKey, r2[0]) <= Rank(sortKey, r2[m2]);
  }

  /** Heads of the same rank are equal, and the tails are again stable for each other. */
  lemma HeadsAndTails(sortKey: string, r1: seq<Car>, r2: seq<Car>)
    requires StableFor(sortKey, r1, r2)
    requires r1 != [] && r2 != [] && Rank(sortKey, r1[0]) == Rank(sortKey, r2[0])
    ensures r1[0] == r2[0]
    ensures StableFor(sortKey, r1[1..], r2[1..])
  {
    var h1, h2, t1, t2 := r1[0], r2[0], r1[1..], r2[1..];
    assert r1 == [h1] + t1 && r2 == [h2] + t2;
    forall k ensures Filter(HasRank(sortKey, k), t1) == Filter(HasRank(sortKey, k), t2)
                  && (k == Rank(sortKey, h1) ==> h1 == h2) {
      var p := HasRank(sortKey, k);
      FilterConcat(p, [h1], t1);
      FilterConcat(p, [h2], t2);
      FilterSingleton(p, h1);
      FilterSingleton(p, h2);
      var a, b := Filter(p, t1), Filter(p, t2);
      if p(h1) {
        assert Filter(p, r1) == [h1] + a && Filter(p, r2) == [h2] + b;
        assert ([h1] + a)[0] == h1 && ([h2] + b)[0] == h2;
        assert ([h1] + a)[1..] == a && ([h2] + b)[1..] == b;
      } else {
        assert Filter(p, r1) == a && Filter(p, r2) == b;
      }
    }
    var k0 := Rank(sortKey, h1);
    assert Filter(HasRank(sortKey, k0), t1) == Filter(HasRank(sortKey, k0), t2);
  }

  /** Arrangements with the same cars of every rank hold the same cars. */
  lemma SameMembers(sortKey: string, r1: seq<Car>, r2: seq<Car>, x: Car)
    requires StableFor(sortKey, r1, r2)
    requires x in r1
    ensures x in r2
  {
    var p := HasRank(sortKey, Rank(sortKey, x));
    FilterMembers(p, r1);
    FilterMembers(p, r2);
    assert x in Filter(p, r1);
  }

  /**
   * Any sorted arrangement that keeps every rank's cars in feed order is the
   * insertion sort's result: whatever stable algorithm an engine uses, it
   * produces this list.
   */
  lemma AnyStableSortAgrees(sortKey: string, r: seq<Car>, s: seq<Car>)
    requires SortedBy(sortKey, r) && StableFor(sortKey, r, s)
    ensures r == SortByRank(sortKey, s)
  {
    SortCorrect(sortKey, s);
    SortedStableUnique(sortKey, r, SortByRank(sortKey, s));
  }

  /** 'newest' and every unknown key leave the feed order untouched. */
  lemma {:induction false} SortKeepsOrderForOtherKeys(sortKey: string, s: seq<Car>)
    requires !IsOrderingKey(sortKey)
    ensures SortByRank(sortKey, s) == s
    decreases |s|
  {
    if s != [] {
      SortKeepsOrderForOtherKeys(sortKey, s[..|s| - 1]);
      assert s == s[..|s| - 1] + [s[|s| - 1]];
    }
  }

  /** What rank order means for each key, in terms of price and year. */
  lemma SortedMeaning(sortKey: string, s: seq<Car>)
    requires SortedBy(sortKey, s)
    ensures sortKey == "price_asc" ==> forall i, j :: 0 <= i < j < |s| ==> s[i].price <= s[j].price
    ensures sortKey == "price_desc" ==> forall i, j :: 0 <= i < j < |s| ==> s[i].price >= s[j].price
    ensures sortKey == "year_asc" ==> forall i, j :: 0 <= i < j < |s| ==> s[i].year <= s[j].year
    ensures sortKey == "year_desc" ==> forall i, j :: 0 <= i < j < |s| ==> s[i].year >= s[j].year
  {
    forall i, j | 0 <= i < j < |s| ensures Rank(sortKey, s[i]) <= Rank(sortKey, s[j]) { }
  }

  /**
   * `result.sort(comparator)` on the array in place: insertion sort, moving
   * each element left while the comparator says its left neighbour is
   * strictly greater.
   */
  method SortInPlace(a: array<Car>, sortKey: string)
    modifies a
    ensures a[..] == SortByRank(sortKey, old(a[..]))
  {
    ghost var orig := a[..];
    var i := 0;
    while i < a.Length
      invariant 0 <= i <= a.Length
      invariant a[..i] == SortByRank(sortKey, orig[..i])
      invariant a[i..] == orig[i..]
    {
      assert a[i] == orig[i];
      assert orig[..i + 1][..i] == orig[..i];
      SiftLeft(a, i, sortKey);
      i := i + 1;
    }
    assert a[..] == a[..a.Length] && orig == orig[..a.Length];
  }

  /** One pass of the insertion sort: moves `a[i]` left into the sorted prefix `a[..i]`. */
  method SiftLeft(a: array<Car>, i: nat, sortKey: string)
    requires i < a.Length
    modifies a
    ensures a[..i + 1] == Insert(sortKey, old(a[..i]), old(a[i]))
    ensures a[i + 1..] == old(a[i + 1..])
  {
    ghost var sorted := a[..i];
    var x := a[i];
    var j := i;
    while j > 0 && Compare(sortKey, a[j - 1], a[j]) > 0
      invariant 0 <= j <= i
      invariant a[j] == x
      invariant forall k :: 0 <= k < j ==> a[k] == sorted[k]
      invariant forall k :: j < k <= i ==> a[k] == sorted[k - 1]
      invariant forall k :: i < k < a.Length ==> a[k] == old(a[k])
      invariant forall k :: j <= k < i ==> Rank(sortKey, sorted[k]) > Rank(sortKey, x)
    {
      CompareIsRankDifference(sortKey, a[j - 1], a[j]);
      SwapWithLeft(a, j);
      j := j - 1;
    }
    if j > 0 {
      CompareIsRankDifference(sortKey, a[j - 1], a[j]);
    }
    InsertPlacement(sortKey, sorted, x, j);
    SiftedPrefix(a, i, j, sorted, x);
  }

  /**
   * `Insert` places `x` right after the last car that does not outrank it,
   * when all cars from there on rank strictly higher.
   */
  lemma {:induction false} InsertPlacement(sortKey: string, s: seq<Car>, x: Car, j: nat)
    requires j <= |s|
    requires j == 0 || Rank(sortKey, s[j - 1]) <= Rank(sortKey, x)
    requires forall k :: j <= k < |s| ==> Rank(sortKey, s[k]) > Rank(sortKey, x)
    ensures Insert(sortKey, s, x) == s[..j] + [x] + s[j..]
    decreases |s|
  {
    if j < |s| {
      var init, last := s[..|s| - 1], s[|s| - 1];
      InsertPlacement(sortKey, init, x, j);
      assert init[..j] == s[..j];
      assert init[j..] + [last] == s[j..];
    } else {
      assert s[..j] == s && s[j..] == [];
    }
  }

  /** Exchanges `a[j - 1]` and `a[j]`. */
  method SwapWithLeft(a: array<Car>, j: nat)
    requires 0 < j < a.Length
    modifies a
    ensures a[j - 1] == old(a[j]) && a[j] == old(a[j - 1])
    ensures forall k :: 0 <= k < a.Length && k != j - 1 && k != j ==> a[k] == old(a[k])
  {
    a[j - 1], a[j] := a[j], a[j - 1];
  }

  /** When the pass stops at `j`, the prefix is the sorted prefix with `x` placed at `j`. */
  lemma SiftedPrefix(a: array<Car>, i: nat, j: nat, sorted: seq<Car>, x: Car)
    requires j <= i < a.Length && |sorted| == i
    requires a[j] == x
    requires forall k :: 0 <= k < j ==> a[k] == sorted[k]
    requires forall k :: j < k <= i ==> a[k] == sorted[k - 1]
    ensures a[..i + 1] == sorted[..j] + [x] + sorted[j..]
  {
  }
}
