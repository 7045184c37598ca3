/**
 * Who is using the storefront, and what that identity is allowed to see.
 * The signed-in user comes from the credential provider; it is `None` when
 * nobody is signed in. Anonymous sessions are users without an email.
 */
module Identity {
  import opened Wrappers

  datatype User = User(uid: string, email: Option<string>)

  /** The single address that the client treats as the administrator. */
  const AdminEmail: string := "admin@prestige.com"

  /** `isAdmin(user)`: a signed-in user whose email is the administrator's. */
  predicate IsAdmin(user: Option<User>) {
    user.Some? && user.value.email == Some(AdminEmail)
  }

  /**
   * `user && !isAdmin(user)`: the condition under which the code offers
   * favorites (the garage tab, the heart button, loading the ledger).
   * Anonymous sessions satisfy it too.
   */
  predicate IsMember(user: Option<User>) {
    user.Some? && !IsAdmin(user)
  }

  lemma AdminIsNotMember(user: Option<User>)
    ensures !(IsAdmin(user) && IsMember(user))
    ensures IsAdmin(user) <==> user.Some? && user.value.email == Some(AdminEmail)
  {
  }

  datatype Tab = Tab(id: string, title: string)

  const InventoryTab := Tab("inventory", "Collection")
  const FavoritesTab := Tab("favorites", "My Garage")
  const HomeTab := Tab("home", "Services")
  const ConsignTab := Tab("add-car", "Consign")

  /** Position of a tab in the fixed left-to-right order of the navigation bar. */
  function TabPosition(t: Tab): nat {
    if t == InventoryTab then 0
    else if t == FavoritesTab then 1
    else if t == HomeTab then 2
    else 3
  }

  /** The navigation bar's tabs for the current user. */
  function NavItems(user: Option<User>): (r: seq<Tab>)
    ensures |r| >= 2 && r[0] == InventoryTab && HomeTab in r
    ensures FavoritesTab in r <==> IsMember(user)
    ensures ConsignTab in r <==> IsAdmin(user)
    ensures forall t :: t in r ==> t in {InventoryTab, FavoritesTab, HomeTab, ConsignTab}
    ensures forall i, j :: 0 <= i < j < |r| ==> TabPosition(r[i]) < TabPosition(r[j])
  {
    [InventoryTab]
    + (if IsMember(user) then [FavoritesTab] else [])
    + [HomeTab]
    + (if IsAdmin(user) then [ConsignTab] else [])
  }

  /** Nobody signed in sees two tabs; any signed-in user sees exactly three. */
  lemma NavItemsCount(user: Option<User>)
    ensures |NavItems(user)| == if user.Some? then 3 else 2
    ensures !(FavoritesTab in NavItems(user) && ConsignTab in NavItems(user))
  {
    AdminIsNotMember(user);
  }
}
