/** The space selection of the frontend (`SpaceContext`): which of the two
    partners, Cookie or Senorita, is using the app. The selection is kept in
    the browser's local storage under the key "selectedSpace" and follows the
    `/cookie` and `/senorita` routes. */
module SpaceContext {
  import opened Wrappers

  datatype Space = Cookie | Senorita

  const StorageKey: string := "selectedSpace"

  /** The value stored for a space, also its route without the leading '/'. */
  function SpaceValue(s: Space): string {
    match s
    case Cookie => "cookie"
    case Senorita => "senorita"
  }

  function RoutePath(s: Space): string {
    "/" + SpaceValue(s)
  }

  /** The space a route selects, if any. */
  function SpaceOfPath(pathname: string): (r: Option<Space>)
    ensures r.Some? <==> pathname == "/cookie" || pathname == "/senorita"
    ensures r.Some? ==> RoutePath(r.value) == pathname
  {
    if pathname == "/cookie" then Some(Cookie)
    else if pathname == "/senorita" then Some(Senorita)
    else None
  }

  /** The space on start-up: a stored "cookie" or "senorita" wins; any other
      stored value, or none, leaves it to the route; elsewhere there is none. */
  function InitialSpace(storage: map<string, string>, pathname: string): (r: Option<Space>)
    ensures StorageKey in storage && storage[StorageKey] == "cookie" ==> r == Some(Cookie)
    ensures StorageKey in storage && storage[StorageKey] == "senorita" ==> r == Some(Senorita)
    ensures (StorageKey !in storage || storage[StorageKey] !in {"cookie", "senorita"})
              ==> r == SpaceOfPath(pathname)
  {
    if StorageKey in storage && storage[StorageKey] == "cookie" then Some(Cookie)
    else if StorageKey in storage && storage[StorageKey] == "senorita" then Some(Senorita)
    else SpaceOfPath(pathname)
  }

  /** `displayName`: "Cookie" in the cookie space, "Senorita" otherwise (also with no space). */
  function DisplayName(space: Option<Space>): string {
    if space == Some(Cookie) then "Cookie" else "Senorita"
  }

  /** `partnerName`: the other of the two names. */
  function PartnerName(space: Option<Space>): string {
    if space == Some(Cookie) then "Senorita" else "Cookie"
  }

  /** The two names are always the two different partners, and only the
      cookie space is Cookie's. */
  lemma NamesDiffer(space: Option<Space>)
    ensures DisplayName(space) != PartnerName(space)
    ensures {DisplayName(space), PartnerName(space)} == {"Cookie", "Senorita"}
    ensures DisplayName(space) == "Cookie" <==> space == Some(Cookie)
  {
    assert "Cookie"[0] != "Senorita"[0];
  }

  /** Each partner is the other's partner. */
  lemma NamesMirror()
    ensures DisplayName(Some(Cookie)) == PartnerName(Some(Senorita))
    ensures DisplayName(Some(Senorita)) == PartnerName(Some(Cookie))
  {
  }

  /** `getInitialSpace` returns a stored space whatever the route; on a space
      route the route effect may then switch it (see `Mount`). */
  lemma StoredSpaceRestored(storage: map<string, string>, s: Space, pathname: string)
    ensures InitialSpace(storage[StorageKey := SpaceValue(s)], pathname) == Some(s)
  {
  }

  /** After logging out, the route alone decides the space on the next start. */
  lemma LoggedOutFollowsRoute(storage: map<string, string>, pathname: string)
    ensures InitialSpace(storage - {StorageKey}, pathname) == SpaceOfPath(pathname)
  {
  }

  class SpaceProvider {
    var currentSpace: Option<Space>
    /** The browser's local storage. */
    var storage: map<string, string>

    constructor (storage: map<string, string>, pathname: string)
      ensures currentSpace == InitialSpace(storage, pathname)
      ensures this.storage == storage
    {
      currentSpace := InitialSpace(storage, pathname);
      this.storage := storage;
    }

    /** The effect on route changes: a space route that differs from the
        current space selects and stores that space; other routes change nothing. */
    method SyncWithPath(pathname: string)
      modifies this
      ensures SpaceOfPath(pathname).Some? && SpaceOfPath(pathname) != old(currentSpace) ==>
                currentSpace == SpaceOfPath(pathname)
                && storage == old(storage)[StorageKey := SpaceValue(currentSpace.value)]
      ensures SpaceOfPath(pathname).None? || SpaceOfPath(pathname) == old(currentSpace) ==>
                currentSpace == old(currentSpace) && storage == old(storage)
      ensures SpaceOfPath(pathname).Some? ==> currentSpace == SpaceOfPath(pathname)
    {
      if pathname == "/cookie" && currentSpace != Some(Cookie) {
        currentSpace := Some(Cookie);
        storage := storage[StorageKey := "cookie"];
      } else if pathname == "/senorita" && currentSpace != Some(Senorita) {
        currentSpace := Some(Senorita);
        storage := storage[StorageKey := "senorita"];
      }
    }

    /** `setCurrentSpace`: stores the space, or removes the key for none. */
    method SetCurrentSpace(space: Option<Space>)
      modifies this
      ensures currentSpace == space
      ensures space.Some? ==> storage == old(storage)[StorageKey := SpaceValue(space.value)]
      ensures space.None? ==> storage == old(storage) - {StorageKey}
    {
      currentSpace := space;
      if space.Some? {
        storage := storage[StorageKey := SpaceValue(space.value)];
      } else {
        storage := storage - {StorageKey};
      }
    }

    /** `logout`: clears the selection (the navigation to "/" is left out). */
    method Logout()
      modifies this
      ensures currentSpace.None?
      ensures storage == old(storage) - {StorageKey}
    {
      SetCurrentSpace(None);
    }
  }

  /** Start-up as the app runs it: the first render takes `getInitialSpace`,
      then the route effect runs once. A space route wins over a stored space
      and is stored when it differs from the initial one; on any other route
      the initial space stands and the storage is untouched. With nothing
      stored, a space route selects its space without storing it. */
  method Mount(storage: map<string, string>, pathname: string) returns (p: SpaceProvider)
    ensures SpaceOfPath(pathname).Some? ==> p.currentSpace == SpaceOfPath(pathname)
    ensures SpaceOfPath(pathname).None? ==> p.currentSpace == InitialSpace(storage, pathname)
    ensures SpaceOfPath(pathname).Some? && InitialSpace(storage, pathname) != SpaceOfPath(pathname) ==>
              p.storage == storage[StorageKey := SpaceValue(SpaceOfPath(pathname).value)]
    ensures SpaceOfPath(pathname).None? || InitialSpace(storage, pathname) == SpaceOfPath(pathname) ==>
              p.storage == storage
    ensures StorageKey !in storage ==> p.storage == storage
  {
    p := new SpaceProvider(storage, pathname);
    p.SyncWithPath(pathname);
  }
}
