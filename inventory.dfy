/**
 * The inventory view's state slices and the handlers that overwrite them:
 * the catalog feed's snapshot handler, the favorites loader run on every
 * identity change, the favorite toggle, the filter bar, and the projection
 * effect that derives the displayed list.
 */
module Inventory {
  import opened Wrappers
  import opened Identity
  import opened Catalog
  import opened Favorites
  import opened ViewProjection

  /** How the favorites document read resolved, supplied by the caller. */
  datatype FavoritesFetch =
    | DocumentFound(itemIds: Option<seq<string>>)
    | DocumentMissing
    | FetchFailed

  /** What the view renders: the loading notice, the empty notice, or the grid. */
  datatype Screen = OpeningArchives | EmptyArchive | Grid(shown: seq<Car>)

  /**
   * The loading notice only while loading with nothing cached; the empty
   * notice only once loading has stopped and nothing is shown.
   */
  function ScreenFor(loading: bool, cars: seq<Car>, shown: seq<Car>): (s: Screen)
    ensures s == OpeningArchives <==> loading && cars == []
    ensures s == EmptyArchive <==> !loading && shown == []
    ensures s.Grid? ==> s.shown == shown
  {
    if loading && cars == [] then OpeningArchives
    else if shown == [] && !loading then EmptyArchive
    else Grid(shown)
  }

  /**
   * Once a snapshot has arrived, a garage with no favorites shows the empty
   * notice, never the loading notice.
   */
  lemma EmptyGarageIsNotLoading(docs: seq<Doc>, category: string, sortKey: string)
    ensures ScreenFor(false, FromSnapshot(docs), Projection(FromSnapshot(docs), [], true, category, sortKey)) == EmptyArchive
  {
    GarageWithoutFavoritesIsEmpty(FromSnapshot(docs), category, sortKey);
  }

  class InventoryState {
    /** Whether this view is the garage (favorites only). */
    const showFavoritesOnly: bool
    var cars: seq<Car>
    var filteredCars: seq<Car>
    var loading: bool
    var favorites: seq<string>
    var category: string
    var sortKey: string

    /** The displayed list is the projection of the current slices. */
    ghost predicate InSync()
      reads this
    {
      filteredCars == Projection(cars, favorites, showFavoritesOnly, category, sortKey)
    }

    /** The initial state of every slice. */
    constructor (showFavoritesOnly: bool)
      ensures this.showFavoritesOnly == showFavoritesOnly
      ensures cars == [] && filteredCars == [] && loading && favorites == []
      ensures category == AllCategories && sortKey == "newest"
      ensures InSync()
    {
      this.showFavoritesOnly := showFavoritesOnly;
      cars, filteredCars, loading, favorites := [], [], true, [];
      category, sortKey := AllCategories, "newest";
    }

    /** The feed subscription is (re)opened: the loading flag goes up. */
    method Subscribe()
      modifies this`loading
      ensures loading
    {
      loading := true;
    }

    /** A snapshot replaces the cached catalog wholesale and ends loading. */
    method OnSnapshot(docs: seq<Doc>)
      modifies this`cars, this`loading
      ensures cars == FromSnapshot(docs)
      ensures !loading
    {
      cars := FromSnapshot(docs);
      loading := false;
    }

    /** A subscription error ends loading and keeps the last snapshot. */
    method OnSnapshotError()
      modifies this`loading
      ensures !loading
    {
      loading := false;
    }

    /**
     * The favorites loader, run whenever the user changes, with the outcome of
     * its document read: cleared for nobody or the administrator, replaced by
     * the stored ids (or nothing) for a found document, kept otherwise.
     */
    method LoadFavorites(user: Option<User>, fetch: FavoritesFetch)
      modifies this`favorites
      ensures !IsMember(user) ==> favorites == []
      ensures IsMember(user) && fetch.DocumentFound? ==> favorites == fetch.itemIds.GetOr([])
      ensures IsMember(user) && !fetch.DocumentFound? ==> favorites == old(favorites)
    {
      if IsMember(user) {
        match fetch
        case DocumentFound(itemIds) =>
          favorites := itemIds.GetOr([]);
        case DocumentMissing =>
        case FetchFailed =>
      } else {
        favorites := [];
      }
    }

    /**
     * `toggleFavorite(carId)`: without a user nothing happens; otherwise the
     * list is toggled at once and the new list is what gets written to the
     * user's favorites document (`written`).
     */
    method ToggleFavorite(user: Option<User>, carId: string) returns (written: Option<seq<string>>)
      modifies this`favorites
      ensures user.None? ==> favorites == old(favorites) && written == None
      ensures user.Some? ==> favorites == Toggle(old(favorites), carId) && written == Some(favorites)
    {
      if user.None? {
        return None;
      }
      favorites := Toggle(favorites, carId);
      written := Some(favorites);
    }

    /** The filter bar's category select. */
    method SetCategory(value: string)
      modifies this`category
      ensures category == value
    {
      category := value;
    }

    /** The filter bar's sort select. */
    method SetSortKey(value: string)
      modifies this`sortKey
      ensures sortKey == value
    {
      sortKey := value;
    }

    /** The projection effect, rerun after any of its inputs changes. */
    method Refresh()
      modifies this`filteredCars
      ensures InSync()
    {
      filteredCars := Project(cars, favorites, showFavoritesOnly, category, sortKey);
    }

    /** What the view renders now. */
    function CurrentScreen(): Screen
      reads this
    {
      ScreenFor(loading, cars, filteredCars)
    }
  }

  /**
   * The garage view of a visitor with no favorites: after the first snapshot
   * and the projection effect, it shows the empty notice, whatever the catalog.
   */
  method EmptyGarageScenario(docs: seq<Doc>) returns (screen: Screen)
    ensures screen == EmptyArchive
  {
    var view := new InventoryState(true);
    view.OnSnapshot(docs);
    view.Refresh();
    GarageWithoutFavoritesIsEmpty(view.cars, view.category, view.sortKey);
    screen := view.CurrentScreen();
  }

  /**
   * A feed delivering two snapshots, then failing: the view shows exactly the
   * second snapshot (never a merge with the first), and the failure keeps it.
   */
  method FeedScenario(first: seq<Doc>, second: seq<Doc>) returns (afterSecond: seq<Car>, afterError: seq<Car>, loading: bool)
    ensures afterSecond == FromSnapshot(second)
    ensures afterError == FromSnapshot(second)
    ensures !loading
  {
    var view := new InventoryState(false);
    view.Subscribe();
    view.OnSnapshot(first);
    view.OnSnapshot(second);
    afterSecond := view.cars;
    view.OnSnapshotError();
    afterError := view.cars;
    loading := view.loading;
  }
}
