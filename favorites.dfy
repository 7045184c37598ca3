/**
 * The favorites ledger as the inventory view keeps it locally: a list of
 * catalog ids, toggled one id at a time.
 */
module Favorites {
  import opened JsArray

  /** `id => id !== carId` */
  function Differs(carId: string): string -> bool {
    (x: string) => x != carId
  }

  /**
   * The new list computed by `toggleFavorite(carId)`: every occurrence of a
   * present id is filtered out, an absent id is appended.
   */
  function Toggle(favorites: seq<string>, carId: string): (r: seq<string>)
    ensures carId in r <==> carId !in favorites
    ensures forall x :: x != carId ==> (x in r <==> x in favorites)
    ensures carId !in favorites ==> r == favorites + [carId]
    ensures carId in favorites ==>
      && Subsequence(r, favorites)
      && forall x :: x != carId ==> multiset(r)[x] == multiset(favorites)[x]
  {
    if carId in favorites then
      FilterMembers(Differs(carId), favorites);
      FilterCounts(Differs(carId), favorites);
      FilterIsSubsequence(Differs(carId), favorites);
      Filter(Differs(carId), favorites)
    else
      favorites + [carId]
  }

  /** Toggling an absent id twice gives back exactly the original list. */
  lemma ToggleTwiceAbsent(favorites: seq<string>, carId: string)
    requires carId !in favorites
    ensures Toggle(Toggle(favorites, carId), carId) == favorites
  {
    var p := Differs(carId);
    FilterConcat(p, favorites, [carId]);
    FilterKeepsAll(p, favorites);
    FilterSingleton(p, carId);
  }

  /**
   * Toggling any id twice in a duplicate-free list gives back the same ids,
   * each once (a present id moves to the end).
   */
  lemma ToggleTwice(favorites: seq<string>, carId: string)
    requires NoDuplicates(favorites)
    ensures multiset(Toggle(Toggle(favorites, carId), carId)) == multiset(favorites)
  {
    if carId !in favorites {
      ToggleTwiceAbsent(favorites, carId);
    } else {
      var once := Toggle(favorites, carId);
      var twice := once + [carId];
      assert carId !in once;
      assert Toggle(once, carId) == twice;
      forall x ensures multiset(twice)[x] == multiset(favorites)[x] {
        if x == carId {
          assert multiset(once)[x] == 0;
          MemberCountsOnce(favorites, x);
        }
      }
    }
  }

  /** In a duplicate-free list a member occurs exactly once. */
  lemma {:induction false} MemberCountsOnce(s: seq<string>, x: string)
    requires NoDuplicates(s) && x in s
    ensures multiset(s)[x] == 1
  {
    assert s == [s[0]] + s[1..];
    if s[0] == x {
      assert x !in s[1..];
    } else {
      MemberCountsOnce(s[1..], x);
    }
  }

  /** Toggling never introduces a duplicate. */
  lemma ToggleKeepsNoDuplicates(favorites: seq<string>, carId: string)
    requires NoDuplicates(favorites)
    ensures NoDuplicates(Toggle(favorites, carId))
  {
    if carId in favorites {
      FilterNoDuplicates(Differs(carId), favorites);
    }
  }

  /** The list after toggling the same id `n` times in a row. */
  function ToggleTimes(favorites: seq<string>, carId: string, n: nat): seq<string>
    decreases n
  {
    if n == 0 then favorites else Toggle(ToggleTimes(favorites, carId, n - 1), carId)
  }

  /**
   * After `n` toggles of one id, that id is a member exactly when it was one
   * before or (exclusively) `n` is odd; every other id keeps its membership.
   */
  lemma {:induction false} ToggleParity(favorites: seq<string>, carId: string, n: nat)
    ensures carId in ToggleTimes(favorites, carId, n) <==> (carId in favorites) != (n % 2 == 1)
    ensures forall x :: x != carId ==> (x in ToggleTimes(favorites, carId, n) <==> x in favorites)
  {
    if n > 0 {
      ToggleParity(favorites, carId, n - 1);
    }
  }
}
