/**
 * The inventory view's projection effect: from the catalog snapshot, the
 * favorites list, the favorites-only flag, the category filter and the
 * sort key, the list of cars to display.
 */
module ViewProjection {
  import opened Catalog
  import opened JsArray
  import opened Ordering

  /** The category filter value that disables category filtering. */
  const AllCategories: string := "All"

  /** `car => favorites.includes(car.id)` */
  function IsFavorite(favorites: seq<string>): Car -> bool {
    (c: Car) => c.id in favorites
  }

  /** `car => car.category === filters.category` */
  function InCategory(category: string): Car -> bool {
    (c: Car) => c.category == category
  }

  /** Whether a car survives both filtering steps. */
  function Kept(favorites: seq<string>, favoritesOnly: bool, category: string): Car -> bool {
    (c: Car) => (favoritesOnly ==> c.id in favorites) && (category != AllCategories ==> c.category == category)
  }

  /** Filtering steps of the effect: copy, keep favorites, keep the category. */
  function Narrowed(cars: seq<Car>, favorites: seq<string>, favoritesOnly: bool, category: string): seq<Car> {
    var copy := cars;
    var favored := if favoritesOnly then Filter(IsFavorite(favorites), copy) else copy;
    if category != AllCategories then Filter(InCategory(category), favored) else favored
  }

  /** The whole effect: the filtered list, sorted by the comparator of the sort key. */
  function Projection(cars: seq<Car>, favorites: seq<string>, favoritesOnly: bool,
                      category: string, sortKey: string): seq<Car> {
    SortByRank(sortKey, Narrowed(cars, favorites, favoritesOnly, category))
  }

  /** The two filters act as one filter by `Kept`. */
  lemma NarrowedIsOneFilter(cars: seq<Car>, favorites: seq<string>, favoritesOnly: bool, category: string)
    ensures Narrowed(cars, favorites, favoritesOnly, category) == Filter(Kept(favorites, favoritesOnly, category), cars)
  {
    var keep := Kept(favorites, favoritesOnly, category);
    if favoritesOnly && category != AllCategories {
      FilterFilter(IsFavorite(favorites), InCategory(category), keep, cars);
    } else if favoritesOnly {
      FilterSame(IsFavorite(favorites), keep, cars);
    } else if category != AllCategories {
      FilterSame(InCategory(category), keep, cars);
    } else {
      FilterKeepsAll(keep, cars);
    }
  }

  /**
   * Filtering keeps exactly the favorites (in favorites-only mode) of the
   * chosen category (unless 'All'), each as often as in the snapshot, in
   * snapshot order.
   */
  lemma NarrowedCorrect(cars: seq<Car>, favorites: seq<string>, favoritesOnly: bool, category: string)
    ensures var kept := Narrowed(cars, favorites, favoritesOnly, category);
      && (forall c :: c in kept <==>
            c in cars && (favoritesOnly ==> c.id in favorites) && (category != AllCategories ==> c.category == category))
      && (forall c :: multiset(kept)[c] ==
            if (favoritesOnly ==> c.id in favorites) && (category != AllCategories ==> c.category == category)
            then multiset(cars)[c] else 0)
      && Subsequence(kept, cars)
  {
    var keep := Kept(favorites, favoritesOnly, category);
    NarrowedIsOneFilter(cars, favorites, favoritesOnly, category);
    FilterMembers(keep, cars);
    FilterCounts(keep, cars);
    FilterIsSubsequence(keep, cars);
  }

  /**
   * The displayed list: exactly the kept cars, sorted by the key, with ties in
   * feed order, and the feed order itself for 'newest' and unknown keys.
   */
  lemma ProjectionCorrect(cars: seq<Car>, favorites: seq<string>, favoritesOnly: bool,
                          category: string, sortKey: string)
    ensures var kept := Narrowed(cars, favorites, favoritesOnly, category);
            var shown := Projection(cars, favorites, favoritesOnly, category, sortKey);
      && (forall c :: c in shown <==>
            c in cars && (favoritesOnly ==> c.id in favorites) && (category != AllCategories ==> c.category == category))
      && multiset(shown) == multiset(kept)
      && SortedBy(sortKey, shown)
      && StableFor(sortKey, shown, kept)
      && (!IsOrderingKey(sortKey) ==> shown == kept)
  {
    var kept := Narrowed(cars, favorites, favoritesOnly, category);
    NarrowedCorrect(cars, favorites, favoritesOnly, category);
    SortCorrect(sortKey, kept);
    var shown := SortByRank(sortKey, kept);
    forall c ensures c in shown <==> c in kept {
      assert c in shown <==> c in multiset(shown);
      assert c in kept <==> c in multiset(kept);
    }
    if !IsOrderingKey(sortKey) {
      SortKeepsOrderForOtherKeys(sortKey, kept);
    }
  }

  /** The garage view of a user with no favorites is empty. */
  lemma GarageWithoutFavoritesIsEmpty(cars: seq<Car>, category: string, sortKey: string)
    ensures Projection(cars, [], true, category, sortKey) == []
  {
    NarrowedCorrect(cars, [], true, category);
  }

  /**
   * The projection effect as the source runs it: filters produce new arrays,
   * and the last one is sorted in place.
   */
  method Project(cars: seq<Car>, favorites: seq<string>, favoritesOnly: bool,
                 category: string, sortKey: string) returns (result: seq<Car>)
    ensures result == Projection(cars, favorites, favoritesOnly, category, sortKey)
    ensures forall c :: c in result <==>
      c in cars && (favoritesOnly ==> c.id in favorites) && (category != AllCategories ==> c.category == category)
    ensures multiset(result) == multiset(Narrowed(cars, favorites, favoritesOnly, category))
    ensures sortKey == "price_asc" ==> forall i, j :: 0 <= i < j < |result| ==> result[i].price <= result[j].price
    ensures sortKey == "price_desc" ==> forall i, j :: 0 <= i < j < |result| ==> result[i].price >= result[j].price
    ensures sortKey == "year_asc" ==> forall i, j :: 0 <= i < j < |result| ==> result[i].year <= result[j].year
    ensures sortKey == "year_desc" ==> forall i, j :: 0 <= i < j < |result| ==> result[i].year >= result[j].year
    ensures StableFor(sortKey, result, Narrowed(cars, favorites, favoritesOnly, category))
    ensures !IsOrderingKey(sortKey) ==> result == Narrowed(cars, favorites, favoritesOnly, category)
  {
    var filtered := cars;
    if favoritesOnly {
      filtered := Filter(IsFavorite(favorites), filtered);
    }
    if category != AllCategories {
      filtered := Filter(InCategory(category), filtered);
    }
    var a := new Car[|filtered|](i requires 0 <= i < |filtered| => filtered[i]);
    assert a[..] == filtered;
    SortInPlace(a, sortKey);
    result := a[..];
    ProjectionCorrect(cars, favorites, favoritesOnly, category, sortKey);
    SortedMeaning(sortKey, result);
  }

  /** The seeded collection, in feed order, sorted by ascending price. */
  lemma SeedByAscendingPrice(k0: string, k1: string, k2: string)
    ensures var docs := [Doc(k0, SeedCars[0]), Doc(k1, SeedCars[1]), Doc(k2, SeedCars[2])];
            var shown := Projection(FromSnapshot(docs), [], false, AllCategories, "price_asc");
      |shown| == 3 && shown[0].price == 185000 && shown[1].price == 225000 && shown[2].price == 1450000
  {
    var docs := [Doc(k0, SeedCars[0]), Doc(k1, SeedCars[1]), Doc(k2, SeedCars[2])];
    var cars := FromSnapshot(docs);
    var c0, c1, c2 := cars[0], cars[1], cars[2];
    assert cars == [c0, c1, c2];
    assert [c0, c1, c2][..2] == [c0, c1] && [c0, c1][..1] == [c0];
    assert SortByRank("price_asc", [c0]) == [c0];
    assert SortByRank("price_asc", [c0, c1]) == [c0, c1];
    assert Insert("price_asc", [c0], c2) == [c0, c2];
    assert SortByRank("price_asc", cars) == [c0, c2, c1];
  }
}
