# Prestige Automobiles inventory view-state, modelled in Dafny

This project models the client-side state logic of the Prestige Automobiles
storefront, a single React component file (`src/App.jsx`) backed by a
realtime document store. The model covers the inventory view's state
slices (the cached catalog, the loading flag, the favorites list, the
filters and the displayed list) and the handlers that overwrite them:

- the catalog feed's snapshot and error handlers;
- the favorites loader that runs when the user changes;
- the favorite toggle;
- the projection effect that filters and sorts the catalog for display.

Around these sit the identity rules (`isAdmin` and the role-dependent
navigation tabs), the delete guard of a catalog card and the inquiry
record written for a car.

Modules, one per component:

- `Wrappers` (`wrappers.dfy`): `Option`, standing for JavaScript's `null`/`undefined`.
- `JsArray` (`jsarray.dfy`): `Array.prototype.filter` as one generic `Filter`, with its laws.
  These laws are membership, multiplicities, concatenation, order preservation (`Subsequence`)
  and duplicate-freedom.
- `Identity` (`identity.dfy`): users, `IsAdmin`, the member condition `user && !isAdmin(user)`, and `NavItems`.
- `Catalog` (`catalog.dfy`): catalog entries, snapshot documents, the seeded collection and the delete guard.
- `Ordering` (`ordering.dfy`): the sort comparator and a stable insertion sort.
  The sort exists twice: as a function (`SortByRank`) and as an in-place method on an array (`SortInPlace`).
  The function is proved sorted, a permutation and stable. The method is proved equal to the function.
  Sortedness plus stability is also proved to fix the output uniquely, so any stable sort gives the same list.
  ECMA-262 (section 23.1.3.30, 2023 edition) requires `Array.prototype.sort` to be stable.
- `ViewProjection` (`projection.dfy`): the projection effect, as a function (`Projection`) and as the method `Project`.
  The source copies the catalog into a fresh array, filters that copy and sorts the filtered array in place.
  `Project` takes the catalog as a sequence value, filters it, copies the filtered list into a fresh array
  and sorts that array in place; since filtering does not touch the catalog, both orders give the same list.
- `Favorites` (`favorites.dfy`): the toggle of one id in the favorites list, and its laws.
- `Inquiry` (`inquiry.dfy`): the inquiry form's initial state, the inquiry record, and decimal rendering of the year.
  The decimal rendering comes with a parser and a round-trip proof.
- `Inventory` (`inventory.dfy`): the class `InventoryState` holding the state slices.
  Each handler is a method whose `modifies` clause names only the fields it writes.
  The file also has the screen selection (loading notice, empty notice, grid) and a feed scenario.

Prices and years are `int`s; the consignment form stores them as numbers
and the seeded data are integers. The comparator for a sort key is modelled
as written (`a.price - b.price`, and so on; `0` for `'newest'` and for any
unknown key). It is proved to equal the difference of a per-key rank
(price, minus price, year, minus year, or 0), and the sort orders by that
rank.

Facts about the code that a reader might not expect, all modelled as written:

- Anonymous sessions are signed-in users without an email. The code offers them favorites:
  the garage tab, the heart button and the favorites load. So `IsMember` holds for them.
- When the user changes to a non-administrator whose favorites document is missing,
  the previous user's list is kept, and likewise when the read fails.
  Only no user or the administrator clears it (src/App.jsx:724-739).
- The delete handler checks only that a user is signed in and the car has an id.
  Only the button's visibility is restricted to the administrator (`Catalog.DeleteGuardIgnoresRole`).
- A snapshot entry is built as `{ id: doc.id, ...doc.data() }`, so a stored `id` field overrides the key.
  Documents this client writes carry no such field.
- `'newest'` does not sort by creation time. It keeps the feed's order.
- The category filter is an arbitrary string or `'All'`. The filter select offers no `'Pre-War'`,
  although consignment allows that category.

## Model

| member | source | states |
|---|---|---|
| `Identity.AdminIsNotMember` | src/App.jsx:82-83 | The administrator is exactly a signed-in user whose email is `admin@prestige.com`. No user is both administrator and member. |
| `Identity.NavItems` | src/App.jsx:182-187 | Tabs always start with Collection and include Services. "My Garage" appears exactly for a signed-in non-administrator. "Consign" appears exactly for the administrator. Tabs keep the order inventory, favorites, home, add-car. |
| `Identity.NavItemsCount` | src/App.jsx:182-187 | With no user there are two tabs, otherwise three. Garage and Consign never appear together. |
| `Catalog.FromDoc` | src/App.jsx:710 | An entry takes the document's key as `id` unless the stored fields carry their own `id`. All other fields are copied. |
| `Catalog.FromSnapshot` | src/App.jsx:710 | One entry per snapshot document, in snapshot order, each built from its document. |
| `Catalog.SnapshotIdsAreKeys` | src/App.jsx:710 | When no document stores an `id` field, the entries' ids are exactly the document keys. |
| `Catalog.DeleteTarget` | src/App.jsx:560-569 | A delete is issued exactly when a user is signed in, the car has a non-empty id and the dialog is confirmed. The deleted key is the car's id. |
| `Catalog.CardButtons` | src/App.jsx:595-607 | Without a session a card shows neither button. A signed-in user sees the delete button exactly when not shown the heart. |
| `Catalog.DeleteGuardIgnoresRole` | src/App.jsx:562-565 | The guard lets any signed-in user delete a car that has an id. A non-administrator who passes it is shown the heart, not the delete button (lines 595, 607). |
| `JsArray.FilterMembers` | src/App.jsx:748 | `filter` keeps exactly the elements that satisfy the predicate. |
| `JsArray.FilterCounts` | src/App.jsx:753 | `filter` keeps each satisfying element as often as it occurs, and no other element. |
| `JsArray.FilterIsSubsequence` | src/App.jsx:748-753 | `filter` preserves relative order: its result is a subsequence of its input. |
| `JsArray.FilterConcat` | src/App.jsx:778 | Filtering a concatenation is the concatenation of the filtered parts. |
| `JsArray.FilterFilter` | src/App.jsx:747-754 | Two successive filters equal one filter by the conjunction of their predicates. |
| `JsArray.FilterNoDuplicates` | src/App.jsx:778 | Filtering a duplicate-free list gives a duplicate-free list. |
| `Ordering.CompareIsRankDifference` | src/App.jsx:757-765 | Each comparator (`price_asc`, `price_desc`, `year_asc`, `year_desc`, default 0) is the difference of the two cars' ranks. So it is a consistent ordering, and it is positive exactly when the left car ranks higher. |
| `Ordering.InsertStable` | src/App.jsx:757 | Inserting a car places it after every car of its own rank. Each rank's cars keep their order. |
| `Ordering.SortPermutes` | src/App.jsx:757 | The sort is a permutation of its input. |
| `Ordering.SortSorted` | src/App.jsx:757-765 | The sort's output is non-decreasing in rank. |
| `Ordering.SortStable` | src/App.jsx:757 | Cars of equal rank keep their input (feed) order. |
| `Ordering.SortCorrect` | src/App.jsx:757-765 | The sort is a sorted, stable permutation of its input. |
| `Ordering.SortedStableUnique` | src/App.jsx:757 | Two sorted arrangements that agree on the order within every rank are equal. |
| `Ordering.AnyStableSortAgrees` | src/App.jsx:757-765 | Every sorted, stable arrangement of the input is the insertion sort's result. |
| `Ordering.SortKeepsOrderForOtherKeys` | src/App.jsx:763 | With `'newest'` or any unknown key, the list is left in feed order. |
| `Ordering.SortedMeaning` | src/App.jsx:759-762 | Price is non-decreasing under `price_asc` and non-increasing under `price_desc`. Year behaves the same under `year_asc` and `year_desc`. |
| `Ordering.SortInPlace` | src/App.jsx:757-765 | Sorting the array in place leaves it equal to the stable sort of its old contents. |
| `Ordering.SiftLeft` | src/App.jsx:757 | One insertion step moves the next element left past strictly greater neighbours only. |
| `ViewProjection.NarrowedIsOneFilter` | src/App.jsx:744-754 | Copying and then the favorites and category filters equal one filter that keeps a car when both conditions hold. |
| `ViewProjection.NarrowedCorrect` | src/App.jsx:744-754 | The filtered list holds exactly the snapshot's cars that are favorites (in favorites mode) and of the category (unless `'All'`). Each is kept as often as in the snapshot, in snapshot order. |
| `ViewProjection.ProjectionCorrect` | src/App.jsx:743-768 | The displayed list holds exactly the kept cars and is a permutation of the filtered list. It is sorted by the key, with ties in feed order. For `'newest'`/unknown keys it is the filtered list itself. |
| `ViewProjection.GarageWithoutFavoritesIsEmpty` | src/App.jsx:747-749 | In favorites-only mode with an empty favorites list nothing is displayed. |
| `ViewProjection.Project` | src/App.jsx:743-768 | The effect as run (filter, filter, copy into an array, in-place sort) yields the projection. In favorites mode every shown id is a favorite. Every shown car has the filtered category and comes from the snapshot. Price/year order matches the key. The result is a stable permutation of the filtered list. |
| `ViewProjection.SeedByAscendingPrice` | src/App.jsx:88-116 | The seeded cars (185000, 1450000, 225000) display as 185000, 225000, 1450000 under `price_asc`. |
| `Favorites.Toggle` | src/App.jsx:776-781 | Membership of the toggled id flips, and every other id keeps its membership. An absent id is appended at the end. Removing a present id keeps the other ids, with their multiplicities, in order. |
| `Favorites.ToggleTwiceAbsent` | src/App.jsx:777-781 | Toggling an absent id twice restores exactly the original list. |
| `Favorites.ToggleTwice` | src/App.jsx:777-781 | From a duplicate-free list, toggling any id twice restores the same ids, each once. |
| `Favorites.ToggleKeepsNoDuplicates` | src/App.jsx:777-781 | Toggling keeps a duplicate-free list duplicate-free. |
| `Favorites.ToggleParity` | src/App.jsx:770-783 | After `n` toggles of one id it is a member exactly when (it was before) XOR (`n` is odd). Every other id's membership is unchanged. |
| `Inquiry.NatToString` | src/App.jsx:398 | A natural number renders as a non-empty string of decimal digits with no leading zero: 0 renders as `"0"` and every other number starts with a non-zero digit. |
| `Inquiry.IntToStringRoundTrip` | src/App.jsx:398 | A rendered integer contains no space and parses back to itself. |
| `Inquiry.CarLabelYear` | src/App.jsx:398 | The car label's first word parses back to the car's year. |
| `Inquiry.InitialForm` | src/App.jsx:378-384 | The form starts with empty name, email and phone. Its message is the fixed opening text, then the car's label, then the fixed closing text, and nothing else. |
| `Inquiry.BuildInquiry` | src/App.jsx:394-400 | The record copies the form fields. `carId` is the car's id when present and non-empty, else `'unknown'`, so it is never empty. `carName` is "year make model", whose year reads back; with no car it is "undefined undefined undefined", as the template renders `undefined`. `createdAt` is the server timestamp. |
| `Inquiry.DefaultMessageNamesCar` | src/App.jsx:383-398 | Submitting the untouched form stores a message naming the car by the same label as `carName`. |
| `Inventory.ScreenFor` | src/App.jsx:808-834 | The loading notice is shown exactly while loading with no cars cached. The empty notice is shown exactly when loading has stopped and nothing is displayed. Otherwise the grid shows the displayed list. |
| `Inventory.EmptyGarageIsNotLoading` | src/App.jsx:834-843 | After a snapshot, a garage with no favorites shows the empty notice, never the loading notice. |
| `Inventory.InventoryState.constructor` | src/App.jsx:694-698 | Slices start as no cars, nothing displayed, loading, no favorites, category `'All'`, sort `'newest'`. The displayed list is in sync. |
| `Inventory.InventoryState.Subscribe` | src/App.jsx:705 | (Re)subscribing raises the loading flag and changes nothing else. |
| `Inventory.InventoryState.OnSnapshot` | src/App.jsx:709-712 | A snapshot replaces the cars with exactly the snapshot's entries, never merged with the old list. It clears loading and changes nothing else. |
| `Inventory.InventoryState.OnSnapshotError` | src/App.jsx:713-717 | A subscription error clears loading and keeps the previous cars. |
| `Inventory.InventoryState.LoadFavorites` | src/App.jsx:723-740 | With no user or the administrator the list is cleared. For a member whose document exists it becomes `itemIds`, or empty when missing. A missing document or a failed read keeps the list. |
| `Inventory.InventoryState.ToggleFavorite` | src/App.jsx:770-792 | With no user nothing changes and nothing is written. Otherwise the list becomes its toggle, and the written payload is exactly the new list. |
| `Inventory.InventoryState.SetCategory` | src/App.jsx:658-661 | The category select sets only the category. |
| `Inventory.InventoryState.SetSortKey` | src/App.jsx:677-680 | The sort select sets only the sort key. |
| `Inventory.InventoryState.Refresh` | src/App.jsx:743-768 | The projection effect sets only the displayed list, to the projection of the current slices. |
| `Inventory.EmptyGarageScenario` | src/App.jsx:834-843 | A fresh garage view with no favorites, after its first snapshot and the projection effect, renders the empty notice for every catalog. |
| `Inventory.FeedScenario` | src/App.jsx:705-717 | Across snapshots S1 then S2 the cached catalog is exactly S2's entries. A later error keeps it and leaves loading off. |

## Left out

- Store and credential-provider calls are not modelled. These are subscribing, reading, writing and deleting documents, and anonymous or token sign-in.
  They are I/O against an external service. Their outcomes enter the model as inputs: snapshot documents, the favorites read's outcome, the confirmation answer.
  Writes appear only as the payload a method would send.
- Asynchronous interleaving is not modelled. Examples: a favorites read resolving after the user changed again, overlapping favorite writes, subscription teardown.
  Each handler is one atomic step.
- React's scheduling is not modelled. The projection effect is the separate method `Refresh`; React runs it after any of its inputs changes.
- `Number(...)` coercion of the consignment form's price and year is not modelled, nor is currency formatting with `toLocaleString`.
  Both depend on floating-point parsing and the locale. Prices and years are modelled as integers, so fractional and NaN values are not modelled;
  a NaN price or year would make the comparator inconsistent.
- `Inquiry.IntToString` covers integral years only. It does not model the exponent notation JavaScript uses at 1e21 and above.
- Rendering, the navigation bar's scroll and indicator handling, window listeners, theme constants and the marketing sections are not modelled. They are UI only.
- `seedDatabase` and the sign-in/sign-up form submit are not modelled. They are loops of store writes and credential-provider calls.
  Only the seeded data itself (`Catalog.SeedCars`) is modelled.
- The consignment form's submit and the administrator-only route to it are not modelled. They are a store write and UI routing.
- Error logging with `console.error` (src/App.jsx:567, 714, 733, 790, 802) is not modelled. It is console output only; each error path's effect on state is modelled.
- The `createdAt` timestamp of catalog documents is not modelled. It is assigned by the store and never read by this logic.
- Car ids are strings, with the empty string standing for a falsy id. Favorites lists hold strings.
  Entries reaching a card always come from a snapshot, so they always carry a string id.
- The inquiry submit's loading and sent flags and its error path are not modelled. They are UI status of a fire-and-forget store write.
