/** `src/app/strategies/route-reuse.strategy.ts`: keep detached employee
    detail views in a keyed cache and hand them back when the same employee is
    visited again. */
module RouteReuse {
  import opened Wrappers

  const EmployeeDetailPath := "employee/:id"

  /** A route configuration object; snapshots compare these by reference. */
  class RouteConfig {
    const path: string

    constructor (path: string)
      ensures this.path == path
    {
      this.path := path;
    }
  }

  /** The part of an `ActivatedRouteSnapshot` the strategy reads. */
  datatype RouteSnapshot = RouteSnapshot(routeConfig: RouteConfig?, params: map<string, string>)

  /** An opaque detached view. The router may also hand `store` a null handle, so the
      cache holds `Option<DetachedRouteHandle>` values, `None` standing for null. */
  datatype DetachedRouteHandle = DetachedRouteHandle(token: nat)

  predicate IsEmployeeDetail(route: RouteSnapshot)
  {
    route.routeConfig != null && route.routeConfig.path == EmployeeDetailPath
  }

  /** The cache key `employee-${route.params['id']}`; a missing parameter reads as
      `undefined` in the template literal. */
  function StoreKey(route: RouteSnapshot): string
  {
    "employee-" + (if "id" in route.params then route.params["id"] else "undefined")
  }

  /** The cache after `store`: employee detail routes are recorded under their key,
      anything else leaves it alone. */
  function Stored(cache: map<string, Option<DetachedRouteHandle>>, route: RouteSnapshot,
                  handle: Option<DetachedRouteHandle>): map<string, Option<DetachedRouteHandle>>
  {
    if IsEmployeeDetail(route) then cache[StoreKey(route) := handle] else cache
  }

  /** `has`: an entry, possibly null, is cached under this employee route's key. */
  predicate Cached(cache: map<string, Option<DetachedRouteHandle>>, route: RouteSnapshot)
  {
    IsEmployeeDetail(route) && StoreKey(route) in cache
  }

  /** What `retrieve` hands back for a route from a given cache: `get(key) || null`. */
  function Lookup(cache: map<string, Option<DetachedRouteHandle>>, route: RouteSnapshot): Option<DetachedRouteHandle>
  {
    if Cached(cache, route) then cache[StoreKey(route)] else None
  }

  /** Round trip: after storing a handle for an employee route, the route is cached and
      retrieving it gives the handle back; for any other route nothing is stored or
      retrieved. */
  lemma StoreThenLookup(cache: map<string, Option<DetachedRouteHandle>>, route: RouteSnapshot,
                        h: Option<DetachedRouteHandle>)
    ensures IsEmployeeDetail(route) ==> Cached(Stored(cache, route, h), route) && Lookup(Stored(cache, route, h), route) == h
    ensures !IsEmployeeDetail(route) ==>
              Stored(cache, route, h) == cache && !Cached(cache, route) && Lookup(cache, route) == None
  {
  }

  /** Storing a null handle for an employee route leaves the route attachable while
      `retrieve` gives null. */
  lemma NullStoreStillAttaches(cache: map<string, Option<DetachedRouteHandle>>, route: RouteSnapshot)
    requires IsEmployeeDetail(route)
    ensures Cached(Stored(cache, route, None), route) && Lookup(Stored(cache, route, None), route).None?
  {
  }

  /** Storing again for the same employee overwrites the earlier handle. */
  lemma StoreOverwrites(cache: map<string, Option<DetachedRouteHandle>>, r1: RouteSnapshot, r2: RouteSnapshot,
                        h1: Option<DetachedRouteHandle>, h2: Option<DetachedRouteHandle>)
    requires IsEmployeeDetail(r1) && IsEmployeeDetail(r2) && StoreKey(r1) == StoreKey(r2)
    ensures Stored(Stored(cache, r1, h1), r2, h2) == Stored(cache, r2, h2)
  {
  }

  /** Different employee ids get different keys, so storing one never disturbs another. */
  lemma DistinctIdsDoNotInterfere(cache: map<string, Option<DetachedRouteHandle>>, r1: RouteSnapshot,
                                 r2: RouteSnapshot, h: Option<DetachedRouteHandle>)
    requires IsEmployeeDetail(r1) && IsEmployeeDetail(r2)
    requires "id" in r1.params && "id" in r2.params && r1.params["id"] != r2.params["id"]
    ensures Cached(Stored(cache, r1, h), r2) == Cached(cache, r2)
    ensures Lookup(Stored(cache, r1, h), r2) == Lookup(cache, r2)
  {
    assert StoreKey(r1)[9..] == r1.params["id"];
    assert StoreKey(r2)[9..] == r2.params["id"];
  }

  class CustomRouteReuseStrategy {
    var storedRoutes: map<string, Option<DetachedRouteHandle>>

    constructor ()
      ensures storedRoutes == map[]
    {
      storedRoutes := map[];
    }

    /** `shouldDetach`: only employee detail routes are kept. */
    function ShouldDetach(route: RouteSnapshot): (b: bool)
      ensures b <==> route.routeConfig != null && route.routeConfig.path == EmployeeDetailPath
    {
      IsEmployeeDetail(route)
    }

    /** `store`: record the handle under the employee key, for employee detail routes only. */
    method Store(route: RouteSnapshot, handle: Option<DetachedRouteHandle>)
      modifies this
      ensures storedRoutes == Stored(old(storedRoutes), route, handle)
    {
      if IsEmployeeDetail(route) {
        storedRoutes := storedRoutes[StoreKey(route) := handle];
      }
    }

    /** `shouldAttach`: an entry is cached for this employee route. */
    function ShouldAttach(route: RouteSnapshot): (b: bool)
      reads this
      ensures b <==> IsEmployeeDetail(route) && StoreKey(route) in storedRoutes
      ensures !IsEmployeeDetail(route) ==> !b
    {
      if IsEmployeeDetail(route) then StoreKey(route) in storedRoutes else false
    }

    /** `retrieve`: the cached handle for this employee route, or null. */
    function Retrieve(route: RouteSnapshot): (r: Option<DetachedRouteHandle>)
      reads this
      ensures r.Some? ==> ShouldAttach(route)
      ensures ShouldAttach(route) ==> r == storedRoutes[StoreKey(route)]
      ensures !ShouldAttach(route) ==> r.None?
    {
      if IsEmployeeDetail(route) && StoreKey(route) in storedRoutes
      then storedRoutes[StoreKey(route)] else None
    }

    /** `shouldReuseRoute`: the two snapshots share the very same configuration object. */
    function ShouldReuseRoute(future: RouteSnapshot, curr: RouteSnapshot): (b: bool)
      ensures b <==> future.routeConfig == curr.routeConfig
    {
      future.routeConfig == curr.routeConfig
    }
  }

  /** Reuse compares configuration objects, not their contents: two distinct configs
      with the same path are not reused. */
  lemma ReuseIsByReference(s: CustomRouteReuseStrategy, c1: RouteConfig, c2: RouteConfig)
    requires c1 != c2 && c1.path == c2.path
    ensures !s.ShouldReuseRoute(RouteSnapshot(c1, map[]), RouteSnapshot(c2, map[]))
  {
  }
}
