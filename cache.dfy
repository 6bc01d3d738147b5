/**
 * The proxy's response cache (`Proxy.Cache`): a map from the exact URL string
 * to the last successful response, with an absolute expiry picked from the
 * URL's last path segment.
 *
 * The expiry instants are those of the class's three static policies, each
 * computed once when the type is initialised (`typeInit`). An entry therefore
 * lives until that fixed instant, whenever it was stored, and an entry stored
 * after it is never served. Instants are seconds on the process clock.
 */
module ResponseCache {
  import opened Wrappers
  import opened ProxyContract
  import Uris

  const TenMinutes: int := 10 * 60
  const TwoDays: int := 2 * 24 * 60 * 60

  /** A `CacheItemPolicy` reduced to the one property the code sets. */
  datatype CachePolicy = CachePolicy(absoluteExpiration: int)

  /** `DEFAULT_POLICY`: ten minutes after type initialisation. */
  function DefaultPolicy(typeInit: int): CachePolicy {
    CachePolicy(typeInit + TenMinutes)
  }

  /** `CONTRACTS_POLICY`: two days after type initialisation. */
  function ContractsPolicy(typeInit: int): CachePolicy {
    CachePolicy(typeInit + TwoDays)
  }

  /** `STATIONS_POLICY` is the very object `DEFAULT_POLICY`. */
  function StationsPolicy(typeInit: int): CachePolicy {
    DefaultPolicy(typeInit)
  }

  /** The `switch` over the route in `SetRouteCache`. */
  function PolicyFor(route: string, typeInit: int): (p: CachePolicy)
    ensures p.absoluteExpiration == typeInit + (if route == "contracts" then TwoDays else TenMinutes)
  {
    if route == "contracts" then ContractsPolicy(typeInit)
    else if route == "stations" then StationsPolicy(typeInit)
    else DefaultPolicy(typeInit)
  }

  /** The instant at which an entry stored under `url` expires. */
  function ExpiryOf(url: string, typeInit: int): int {
    PolicyFor(Uris.Route(url), typeInit).absoluteExpiration
  }

  /** One `MemoryCache` item: the stored response and its absolute expiration. */
  datatype Entry = Entry(response: ApiResponse, expiresAt: int)

  /** What the cache serves for `url` at instant `now`: the stored response while it is live. */
  function Lookup(entries: map<string, Entry>, url: string, now: int): Option<ApiResponse> {
    if url in entries && now < entries[url].expiresAt then Some(entries[url].response) else None
  }

  /** `cache.Set(url, response, policy)`: an unconditional overwrite of the entry for `url`. */
  function Store(entries: map<string, Entry>, url: string, response: ApiResponse, typeInit: int): map<string, Entry> {
    entries[url := Entry(response, ExpiryOf(url, typeInit))]
  }

  /** Every entry carries the expiry its URL's policy fixed at type initialisation. */
  ghost predicate ExpiriesFromPolicies(entries: map<string, Entry>, typeInit: int) {
    forall u :: u in entries ==> entries[u].expiresAt == ExpiryOf(u, typeInit)
  }

  /** Contracts outlive everything else, and stations share the default policy. */
  lemma PolicyClassification(typeInit: int)
    ensures PolicyFor("contracts", typeInit) == ContractsPolicy(typeInit)
    ensures PolicyFor("stations", typeInit) == DefaultPolicy(typeInit)
    ensures forall route :: route != "contracts" ==> PolicyFor(route, typeInit) == DefaultPolicy(typeInit)
    ensures ContractsPolicy(typeInit).absoluteExpiration > DefaultPolicy(typeInit).absoluteExpiration
  {
  }

  /** After a store, the same URL is served the new response exactly until its policy's instant. */
  lemma StoreThenLookup(entries: map<string, Entry>, url: string, response: ApiResponse, typeInit: int, now: int)
    ensures Lookup(Store(entries, url, response, typeInit), url, now) ==
      if now < ExpiryOf(url, typeInit) then Some(response) else None
  {
  }

  /** A store touches only its own URL. */
  lemma StoreLeavesOthers(entries: map<string, Entry>, url: string, response: ApiResponse, typeInit: int, other: string, now: int)
    requires other != url
    ensures Lookup(Store(entries, url, response, typeInit), other, now) == Lookup(entries, other, now)
  {
  }

  /** Stores keep every expiry tied to its policy. */
  lemma StoreKeepsExpiries(entries: map<string, Entry>, url: string, response: ApiResponse, typeInit: int)
    requires ExpiriesFromPolicies(entries, typeInit)
    ensures ExpiriesFromPolicies(Store(entries, url, response, typeInit), typeInit)
  {
  }

  /** Entries sharing a policy expire at one and the same instant, however far apart they were stored. */
  lemma SamePolicySameExpiry(entries: map<string, Entry>, typeInit: int, u: string, v: string)
    requires ExpiriesFromPolicies(entries, typeInit)
    requires u in entries && v in entries
    requires (Uris.Route(u) == "contracts") == (Uris.Route(v) == "contracts")
    ensures entries[u].expiresAt == entries[v].expiresAt
  {
  }

  /** Past its policy's fixed instant, a URL is never served again, whatever was stored and when. */
  lemma ExpiredForever(entries: map<string, Entry>, typeInit: int, url: string, now: int)
    requires ExpiriesFromPolicies(entries, typeInit)
    requires now >= ExpiryOf(url, typeInit)
    ensures Lookup(entries, url, now) == None
  {
  }

  /** Two days after type initialisation the cache serves nothing at all. */
  lemma {:induction false} NothingServedAfterTwoDays(entries: map<string, Entry>, typeInit: int, url: string, now: int)
    requires ExpiriesFromPolicies(entries, typeInit)
    requires now >= typeInit + TwoDays
    ensures Lookup(entries, url, now) == None
  {
    ExpiredForever(entries, typeInit, url, now);
  }

  /** URLs that differ only in their query share a policy but are separate entries:
      storing one leaves the other as it was, and both expire at the same instant. */
  lemma {:induction false} QueryVariantsAreSeparateEntries(entries: map<string, Entry>, typeInit: int, u: string, q1: string, q2: string,
                                         response: ApiResponse, now: int)
    requires ':' in u && Uris.NoQuery(u) && q1 != q2
    ensures var s := Store(entries, u + "?" + q1, response, typeInit);
      Lookup(s, u + "?" + q2, now) == Lookup(entries, u + "?" + q2, now)
    ensures ExpiryOf(u + "?" + q1, typeInit) == ExpiryOf(u + "?" + q2, typeInit) == ExpiryOf(u, typeInit)
  {
    Uris.RouteIgnoresQuery(u, q1);
    Uris.RouteIgnoresQuery(u, q2);
    DistinctQueriesDistinctUrls(u, q1, q2);
  }

  lemma {:induction false} DistinctQueriesDistinctUrls(u: string, q1: string, q2: string)
    requires q1 != q2
    ensures u + "?" + q1 != u + "?" + q2
  {
    assert (u + "?" + q1)[|u| + 1..] == q1;
    assert (u + "?" + q2)[|u| + 1..] == q2;
  }

  /**
   * The cache object. All `Cache` instances of the process share `MemoryCache.Default`
   * and the static policies, so one object stands for that shared state.
   */
  class Cache {
    /** The instant the static policies were computed. */
    const typeInit: int
    /** The items of `MemoryCache.Default`, expired ones included until they are looked at. */
    var entries: map<string, Entry>

    ghost predicate Valid()
      reads this
    {
      ExpiriesFromPolicies(entries, typeInit)
    }

    constructor (typeInit: int)
      ensures Valid()
      ensures this.typeInit == typeInit && entries == map[]
    {
      this.typeInit := typeInit;
      entries := map[];
    }

    /** The live response stored under exactly `url`, or none. */
    method GetRouteCache(url: string, now: int) returns (response: Option<ApiResponse>)
      ensures response.Some? <==> url in entries && now < entries[url].expiresAt
      ensures response.Some? ==> response.value == entries[url].response
      ensures response == Lookup(entries, url, now)
    {
      response := None;
      if url in entries && now < entries[url].expiresAt {
        response := Some(entries[url].response);
      }
    }

    /** Overwrites the entry for `url`, with the expiry of the policy its route selects. */
    method SetRouteCache(url: string, response: ApiResponse)
      requires Valid()
      modifies this`entries
      ensures Valid()
      ensures entries == Store(old(entries), url, response, typeInit)
      ensures entries[url] == Entry(response, PolicyFor(Uris.Route(url), typeInit).absoluteExpiration)
      ensures forall u :: u != url ==> (u in entries <==> u in old(entries))
      ensures forall u :: u != url && u in entries ==> entries[u] == old(entries)[u]
    {
      var route := Uris.Route(url);
      var policy := PolicyFor(route, typeInit);
      entries := entries[url := Entry(response, policy.absoluteExpiration)];
    }
  }
}
