/**
 * Catalog entries as the inventory view holds them: the shadow copy of the
 * remote inventory collection, rebuilt from every realtime snapshot.
 */
module Catalog {
  import opened Wrappers
  import opened Identity

  /**
   * A catalog entry as displayed. `id` is the string the entry carries as its
   * `id` property; the empty string stands for JavaScript's falsy id.
   * Prices and years are the integers the consignment form stores.
   */
  datatype Car = Car(
    id: string,
    year: int,
    make: string,
    model: string,
    price: int,
    category: string,
    description: string,
    imageUrl: Option<string>)

  /**
   * The fields stored in one inventory document. Documents written by this
   * client never carry an `id` field, but a stored one is honoured.
   */
  datatype CarData = CarData(
    id: Option<string>,
    year: int,
    make: string,
    model: string,
    price: int,
    category: string,
    description: string,
    imageUrl: Option<string>)

  /** The demonstration collection an administrator can restore (`INITIAL_CARS`). */
  const SeedCars: seq<CarData> := [
    CarData(None, 1967, "Ford", "Mustang Shelby GT500", 185000, "Muscle",
      "A pristine example of American muscle history. Wimbledon White with Guardsman Blue stripes. Fully restored to concours condition by marque specialists.",
      Some("https://images.unsplash.com/photo-1552519507-da3b142c6e3d?auto=format&fit=crop&q=80&w=800")),
    CarData(None, 1955, "Mercedes-Benz", "300 SL Gullwing", 1450000, "Sports",
      "The iconic Gullwing. Silver metallic paint with original red leather interior. Matching numbers engine and chassis. A true investment grade vehicle.",
      Some("https://images.unsplash.com/photo-1566008872470-dc628f5d450f?auto=format&fit=crop&q=80&w=800")),
    CarData(None, 1961, "Jaguar", "E-Type Series 1", 225000, "Convertible",
      "Enzo Ferrari called it 'the most beautiful car ever made'. Finished in British Racing Green with tan hide. Includes original tool roll and heritage certificate.",
      Some("https://images.unsplash.com/photo-1563720223185-11003d516935?auto=format&fit=crop&q=80&w=800"))
  ]

  /** One document of a snapshot: its store-assigned key and its fields. */
  datatype Doc = Doc(key: string, data: CarData)

  /**
   * `{ id: doc.id, ...doc.data() }`: the key becomes `id`, and the spread of
   * the stored fields comes after it, so a stored `id` field wins.
   */
  function FromDoc(d: Doc): (c: Car)
    ensures c.id == d.data.id.GetOr(d.key)
    ensures d.data.id.None? ==> c.id == d.key
    ensures c.year == d.data.year && c.make == d.data.make && c.model == d.data.model
    ensures c.price == d.data.price && c.category == d.data.category
    ensures c.description == d.data.description && c.imageUrl == d.data.imageUrl
  {
    var data := d.data;
    Car(data.id.GetOr(d.key), data.year, data.make, data.model, data.price,
        data.category, data.description, data.imageUrl)
  }

  /** `snapshot.docs.map(...)`: one entry per document, in the snapshot's order. */
  function FromSnapshot(docs: seq<Doc>): (cars: seq<Car>)
    ensures |cars| == |docs|
    ensures forall i :: 0 <= i < |docs| ==> cars[i] == FromDoc(docs[i])
  {
    seq(|docs|, i requires 0 <= i < |docs| => FromDoc(docs[i]))
  }

  /** When no document stores its own `id`, the entries' ids are exactly the keys. */
  lemma SnapshotIdsAreKeys(docs: seq<Doc>)
    requires forall i :: 0 <= i < |docs| ==> docs[i].data.id.None?
    ensures forall i :: 0 <= i < |docs| ==> FromSnapshot(docs)[i].id == docs[i].key
  {
  }

  /**
   * The delete handler of a catalog card: nothing happens without a signed-in
   * user or without an id; otherwise, once the confirmation dialog (an input
   * here) is accepted, the document with the entry's id is deleted. The
   * result is the key passed to the store, if any.
   */
  function DeleteTarget(user: Option<User>, car: Car, confirmed: bool): (key: Option<string>)
    ensures key.Some? <==> user.Some? && car.id != "" && confirmed
    ensures key.Some? ==> key.value == car.id && key.value != ""
  {
    if user.None? || car.id == "" then None
    else if confirmed then Some(car.id)
    else None
  }

  /** The card shows its delete button to the administrator only. */
  predicate ShowsDeleteButton(user: Option<User>) {
    IsAdmin(user)
  }

  /** The card shows its favorite button to signed-in non-administrators. */
  predicate ShowsFavoriteButton(user: Option<User>) {
    IsMember(user)
  }

  /**
   * Every signed-in user sees exactly one of the two card buttons: the
   * administrator the delete button, everyone else the heart; a visitor
   * without a session sees neither.
   */
  lemma CardButtons(user: Option<User>)
    ensures user.None? ==> !ShowsDeleteButton(user) && !ShowsFavoriteButton(user)
    ensures user.Some? ==> (ShowsDeleteButton(user) <==> !ShowsFavoriteButton(user))
  {
    AdminIsNotMember(user);
  }

  /**
   * The guard itself does not check the role: any signed-in user reaching
   * the handler deletes, and only the button's visibility keeps others out.
   */
  lemma DeleteGuardIgnoresRole(user: User, car: Car)
    requires car.id != ""
    ensures DeleteTarget(Some(user), car, true) == Some(car.id)
    ensures !IsAdmin(Some(user)) ==> ShowsFavoriteButton(Some(user)) && !ShowsDeleteButton(Some(user))
  {
    CardButtons(Some(user));
  }
}
