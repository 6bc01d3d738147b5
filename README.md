# LetsGoBiking — a Dafny model of the itinerary server and its caching proxy

LetsGoBiking answers "which bike station should I take a bike from, and which one should I leave it
at?" for a trip from an origin to a destination in Lyon. It has two processes:

- **The caching proxy** (`Proxy.ProxyService` with `Proxy.Cache`) is a WCF service.
  - `Call(url)` serves a cached response while it is live.
  - Otherwise it makes one outbound GET and caches the answer only when the status is 2xx.
  - Its policy is picked from the URL's last path segment: two days for `contracts`, ten minutes for anything else.
  - The expiry instants are absolute, computed once when the `Cache` type is initialised.
- **The itinerary server** (`Serveur.RoutingService` with `Serveur.JCDecauxAPI`) answers `GET /itinerary`.
  - It checks and parses four query parameters.
  - It reads the provider API key from the `.env` file.
  - It fetches the `lyon` stations through the proxy.
  - It picks the nearest station with a bike to the origin, and the nearest station with a free dock to the destination.

The model follows the source's own form:

- **Cache and proxy service.** These are classes whose methods update fields: `Cache.entries` and `ProxyService.sent`. Each method is proved against a pure function: `Lookup`/`Store` for the cache and `CallStep` for the proxy.
  - `LoadApiKey` keeps the source's early-return loop.
  - The laws are lemmas over those functions: store-then-lookup, no negative caching, expiry fixed at type initialisation, and well-formed responses over any sequence of calls.
- **Request handling and itinerary computation.** These are functions, with lemmas that tie each HTTP status to its cause.
- **Station choice.** `Select` is checked against an independent reference, `IsFirstNearest`: the first qualifying station at minimal distance, which is what a stable `OrderBy(...).FirstOrDefault()` yields.

Files:

| file | module | what it models |
|---|---|---|
| wrappers.dfy | Wrappers | `Option` and `Result` |
| text.dfy | Text | `StartsWith`, `Trim`, `TrimEnd`, decimal rendering of an `int` |
| uris.dfy | Uris | the last segment of `new Uri(url).Segments` with '/' trimmed (the cache "route") |
| proxy_contract.dfy | ProxyContract | `APIResponse` |
| cache.dfy | ResponseCache | `Proxy.Cache` and its three policies |
| proxy_service.dfy | Proxy | `Proxy.ProxyService` (`Call`, `GetData`) |
| stations.dfy | Stations | the provider's records |
| jcdecaux.dfy | JCDecaux | `Serveur.JCDecauxAPI` |
| routing.dfy | Routing | `RoutingService`: request decisions and `ComputeItinerary` |

## Model

| member | source | states |
|---|---|---|
| ResponseCache.PolicyFor | LetsGoBiking/Proxy/Cache.cs:50-63 | the route "contracts" expires two days after type initialisation, every other route ten minutes after it |
| ResponseCache.PolicyClassification | LetsGoBiking/Proxy/Cache.cs:15-25 | "stations" and every route other than "contracts" share the default policy, and the contracts policy outlives it |
| ResponseCache.Lookup | LetsGoBiking/Proxy/Cache.cs:28-40 | what `GetRouteCache` answers at an instant: the response stored under that exact URL while its entry has not expired, otherwise null; its laws are `StoreThenLookup`, `StoreLeavesOthers` and `ExpiredForever` |
| ResponseCache.Store | LetsGoBiking/Proxy/Cache.cs:65 | `cache.Set` as an unconditional overwrite of the URL's entry, expiring at its route's policy instant; its laws are `StoreThenLookup`, `StoreLeavesOthers` and `StoreKeepsExpiries` |
| ResponseCache.Cache.GetRouteCache | LetsGoBiking/Proxy/Cache.cs:28-40 | a response is returned exactly when an entry for that exact URL exists and has not reached its expiry, and it is the stored one |
| ResponseCache.Cache.SetRouteCache | LetsGoBiking/Proxy/Cache.cs:42-66 | overwrites the entry for the URL with the expiry of its route's policy, leaves every other entry unchanged, and keeps every expiry tied to its policy |
| ResponseCache.StoreThenLookup | LetsGoBiking/Proxy/Cache.cs:28-66 | after a store, the URL is served the stored response exactly until its policy's instant |
| ResponseCache.StoreLeavesOthers | LetsGoBiking/Proxy/Cache.cs:65 | a store changes what is served for no other URL |
| ResponseCache.StoreKeepsExpiries | LetsGoBiking/Proxy/Cache.cs:42-66 | stores preserve the invariant that each entry's expiry is its policy's instant |
| ResponseCache.SamePolicySameExpiry | LetsGoBiking/Proxy/Cache.cs:15-25 | two entries under the same policy expire at the same instant, however far apart they were stored |
| ResponseCache.ExpiredForever | LetsGoBiking/Proxy/Cache.cs:15-23 | once a URL's policy instant has passed, that URL is never served again |
| ResponseCache.NothingServedAfterTwoDays | LetsGoBiking/Proxy/Cache.cs:15-23 | from two days after type initialisation on, the cache serves nothing |
| ResponseCache.QueryVariantsAreSeparateEntries | LetsGoBiking/Proxy/Cache.cs:44-65 | URLs differing only in their query are separate entries that share one expiry |
| Uris.PathOf | LetsGoBiking/Proxy/Cache.cs:44 | the absolute path of a URL always starts with '/' |
| Uris.Route | LetsGoBiking/Proxy/Cache.cs:44-46 | the route: the last segment of the URL's path with '/' trimmed at both ends; its properties are `RouteHasNoSlash`, `RouteOfPartsWithQuery` and `RouteIgnoresQuery` |
| Uris.RouteHasNoSlash | LetsGoBiking/Proxy/Cache.cs:46 | the route taken from the last segment contains no '/' |
| Uris.RouteOfPartsWithQuery | LetsGoBiking/Proxy/Cache.cs:44-46 | for scheme://host/dir/name?query the route is `name` |
| Uris.RouteIgnoresQuery | LetsGoBiking/Proxy/Cache.cs:44-46 | appending a query string leaves the route unchanged |
| Text.TrimEnd | LetsGoBiking/Serveur/RoutingService.cs:154 | the result is the longest prefix not ending in a dropped character, and everything cut is droppable |
| Text.KeptEnd | LetsGoBiking/Serveur/RoutingService.cs:154 | the cut point leaves no trailing character in the dropped set, and everything after it is in that set |
| Text.KeptStart | LetsGoBiking/Serveur/JCDecauxAPI.cs:34 | the cut point leaves no leading character in the dropped set, and everything before it is in that set |
| Text.TrimStart | LetsGoBiking/Serveur/JCDecauxAPI.cs:34 | the result is the longest suffix not starting with a dropped character, and everything cut is droppable |
| Text.TrimEndsKept | LetsGoBiking/Serveur/JCDecauxAPI.cs:34 | a trimmed string neither starts nor ends with a dropped character |
| Text.TrimIsInfix | LetsGoBiking/Serveur/JCDecauxAPI.cs:34 | `Trim` yields an infix of the input whose two ends are not white space and whose cut parts are all white space |
| Text.TrimIdempotent | LetsGoBiking/Serveur/JCDecauxAPI.cs:34 | trimming twice is trimming once |
| Text.DigitsRoundTrip | LetsGoBiking/Proxy/ProxyService.cs:21 | the decimal digits of a natural number read back as that number |
| Text.IntToStringRoundTrip | LetsGoBiking/Proxy/ProxyService.cs:21 | the decimal rendering of any integer parses back to it |
| Proxy.GetData | LetsGoBiking/Proxy/ProxyService.cs:19-22 | "You entered: " followed by the canonical decimal numeral of the value: it parses back to the value, has no leading zero unless it is "0", and has no "-0" |
| Proxy.CallStep | LetsGoBiking/Proxy/ProxyService.cs:24-52 | one cache-aside step: serve a live entry, else GET and store a 2xx answer, else the bare 500, or a fault on timeout; its cases are `CallHit`, `CallMissSuccess` and `CallMissFailure`, its invariants `CallKeepsInvariants` |
| Proxy.CallHit | LetsGoBiking/Proxy/ProxyService.cs:26-28 | on a live entry, the cached response is returned, the cache is untouched and no GET is made |
| Proxy.CallMissSuccess | LetsGoBiking/Proxy/ProxyService.cs:28-41 | on a miss with a 2xx answer, the status and body are returned, stored under the exact URL and served until the policy instant |
| Proxy.CallMissFailure | LetsGoBiking/Proxy/ProxyService.cs:31-48 | on a miss whose GET fails or is non-2xx, 500 with no body is returned and the cache is unchanged; a timeout escapes as a fault |
| Proxy.StoreKeepsOnlySuccesses | LetsGoBiking/Proxy/ProxyService.cs:34-40 | storing a 2xx response keeps the cache free of failures |
| Proxy.CallKeepsInvariants | LetsGoBiking/Proxy/ProxyService.cs:24-52 | a call keeps the cache holding only 2xx responses with policy expiries, and returns either 2xx with a body or the bare 500 |
| Proxy.RetryAfterFailure | LetsGoBiking/Proxy/ProxyService.cs:42-48 | failures are not cached: the next call for the URL makes a GET again |
| Proxy.StaleAfterPolicyInstant | LetsGoBiking/Proxy/ProxyService.cs:26-33 | after ten minutes from type initialisation, every non-contracts URL goes to the network; after two days, every URL does |
| Proxy.RunServesWellFormed | LetsGoBiking/Proxy/ProxyService.cs:24-52 | over any sequence of calls, every response handed out is well formed and the cache holds only successes |
| Proxy.ProxyService.Call | LetsGoBiking/Proxy/ProxyService.cs:24-52 | result and new cache are those of one cache-aside step, the URL is recorded as sent exactly when a GET was made, and a returned response is well formed |
| JCDecaux.FirstKeyLine | LetsGoBiking/Serveur/JCDecauxAPI.cs:30-36 | the index of the first line starting with "JCDECAUX_API_KEY=", or none when no line does |
| JCDecaux.ApiKey | LetsGoBiking/Serveur/JCDecauxAPI.cs:24-39 | the outcome of `LoadApiKey` as a value: the trimmed rest of the first key line, or the not-found failure; `LoadApiKey` is proved equal to it and `KeyIsTrimmed`, `LaterLinesIgnored` state its properties |
| JCDecaux.LoadApiKey | LetsGoBiking/Serveur/JCDecauxAPI.cs:24-39 | succeeds exactly when the file exists and has a key line, returning the trimmed rest of the first one; otherwise fails with "JCDECAUX_API_KEY not found in .env file" |
| JCDecaux.LaterLinesIgnored | LetsGoBiking/Serveur/JCDecauxAPI.cs:30-36 | lines after the first key line do not affect the key |
| JCDecaux.FirstKeyLineUnique | LetsGoBiking/Serveur/JCDecauxAPI.cs:30-36 | a key line with no key line before it is the one chosen |
| JCDecaux.KeyIsTrimmed | LetsGoBiking/Serveur/JCDecauxAPI.cs:34 | a loaded key neither starts nor ends with white space |
| JCDecaux.UrlsCarryKey | LetsGoBiking/Serveur/JCDecauxAPI.cs:45-58 | both URLs start with the base URL and carry the key at a fixed offset (after the contract, for the stations URL), so distinct keys give distinct URLs |
| JCDecaux.ContractsUrl | LetsGoBiking/Serveur/JCDecauxAPI.cs:45 | the URL `GetContracts` asks the proxy for; `UrlsCarryKey` and `ContractsUrlRoute` state its properties |
| JCDecaux.StationsUrl | LetsGoBiking/Serveur/JCDecauxAPI.cs:58 | the URL `GetStations` asks the proxy for; `UrlsCarryKey` and `StationsUrlRoute` state its properties |
| JCDecaux.ContractsUrlRoute | LetsGoBiking/Serveur/JCDecauxAPI.cs:45 | the contracts URL has route "contracts" and is cached for two days after type initialisation, whatever the key |
| JCDecaux.StationsUrlRoute | LetsGoBiking/Serveur/JCDecauxAPI.cs:58 | the stations URL has route "stations" and falls under the ten-minute default policy, whatever the contract and key |
| JCDecaux.Gate | LetsGoBiking/Serveur/JCDecauxAPI.cs:46-50 | the client's reading of the proxy's answer: a failed WCF call throws, any status but 200 is null, a 200 is the deserialised body; stated by `GateRejectsAllBut200` and `GateValueOnly200` |
| JCDecaux.GetContracts | LetsGoBiking/Serveur/JCDecauxAPI.cs:41-52 | the gate applied to the proxy's answer for the contracts URL |
| JCDecaux.GetStations | LetsGoBiking/Serveur/JCDecauxAPI.cs:54-65 | the gate applied to the proxy's answer for the stations URL of the contract |
| JCDecaux.GateRejectsAllBut200 | LetsGoBiking/Serveur/JCDecauxAPI.cs:46-49 | any status other than exactly 200 gives null, whatever the deserialiser |
| JCDecaux.GateValueOnly200 | LetsGoBiking/Serveur/JCDecauxAPI.cs:59-63 | data comes back only from a 200 with a body, and it is then the deserialised body |
| JCDecaux.Non200SuccessCachedButNull | LetsGoBiking/Serveur/JCDecauxAPI.cs:59-62 | a 2xx other than 200 is cached by the proxy yet read as null by the client, on this call and on later cached ones |
| JCDecaux.FetchFailureIsNull | LetsGoBiking/Serveur/JCDecauxAPI.cs:46-49 | a failed fetch reaches the client as the bare 500, which it reads as null |
| Routing.Qualifies | LetsGoBiking/Serveur/RoutingService.cs:238-244 | the two `Where` filters: total stands and their availabilities present, and a bike (pickup) or a free dock (drop-off) available |
| Routing.Select | LetsGoBiking/Serveur/RoutingService.cs:237-246 | a chosen station is in the list, passes the filter and has a position |
| Routing.SelectFaultsIff | LetsGoBiking/Serveur/RoutingService.cs:237-246 | the search throws exactly when a station passing the filter has no position |
| Routing.SelectNoneIff | LetsGoBiking/Serveur/RoutingService.cs:237-240 | the search yields null exactly when no station passes the filter |
| Routing.SelectIsFirstNearest | LetsGoBiking/Serveur/RoutingService.cs:239-240 | the chosen station is at minimal distance among those passing the filter and strictly nearer than any of them listed earlier |
| Routing.SelectMatchesReference | LetsGoBiking/Serveur/RoutingService.cs:237-246 | the search chooses station i exactly when no qualifying station lacks a position and i is the first nearest qualifying station |
| Routing.FirstNearestUnique | LetsGoBiking/Serveur/RoutingService.cs:239-240 | the first nearest station is unique |
| Routing.FetchStations | LetsGoBiking/Serveur/RoutingService.cs:232-234 | the key load and the stations fetch for "lyon", failing when the key is missing, the fetch throws or the list is null |
| Routing.ComputeItinerary | LetsGoBiking/Serveur/RoutingService.cs:230-282 | both searches over the fetched list and the answer built from them; its outcome is stated by `ComputeItineraryOk` and `ComputeItineraryFails` |
| Routing.ComputeItineraryOk | LetsGoBiking/Serveur/RoutingService.cs:230-282 | a success echoes the request points as start and end, and copies the first nearest station with a bike (pickup) and with a free dock (drop-off) |
| Routing.ComputeItineraryFails | LetsGoBiking/Serveur/RoutingService.cs:230-251 | the computation succeeds exactly when the list arrives, no station passing a filter lacks a position and each filter passes some station; a failed fetch is passed on, a position-less qualifying station throws, and an empty search throws "No available station found" |
| Routing.PickupMayEqualDropoff | LetsGoBiking/Serveur/RoutingService.cs:237-246 | one station with both a bike and a free dock is chosen as both pickup and drop-off |
| Routing.ParseRequest | LetsGoBiking/Serveur/RoutingService.cs:169-176 | the four `double.Parse` calls in source order, the first failure's message being the error |
| Routing.HandleRequest | LetsGoBiking/Serveur/RoutingService.cs:154-213 | the status and body one request gets; each status is tied to its cause by the lemmas below |
| Routing.NotFoundIffOffRoute | LetsGoBiking/Serveur/RoutingService.cs:154-213 | 404 with no body exactly when the request is not GET /itinerary; every status is 200, 400, 404 or 500 |
| Routing.TrailingSlashesIgnored | LetsGoBiking/Serveur/RoutingService.cs:154 | "/itinerary" followed by any number of '/' is the itinerary route |
| Routing.MissingParameterRejected | LetsGoBiking/Serveur/RoutingService.cs:161-187 | a missing or empty parameter gets 400 with the fixed message, whatever the stations or key |
| Routing.ParseFailureRejected | LetsGoBiking/Serveur/RoutingService.cs:169-187 | an unparsable parameter gets 400 carrying the message of the first parameter that failed |
| Routing.ComputedRequestOutcome | LetsGoBiking/Serveur/RoutingService.cs:190-207 | a well-formed request gets 500 "Internal server error" exactly when the computation throws, else 200 with the itinerary |
| Routing.SuccessfulReply | LetsGoBiking/Serveur/RoutingService.cs:253-281 | a 200 carries the parsed request points and the first nearest qualifying stations from the fetched list |

## Left out

- I/O and concurrency are not modelled:
  - the listener's accept loop, async/await and the writes to the output stream
  - the console logging
  - `Program.cs`
  - the web front end `script.js`
  - concurrent calls into the shared cache
- The network is the input `FetchOutcome`, and `now` is an explicit parameter. Time is whole seconds.
- The WCF hop is the function `proxy`: the proxy's answer for a URL, or `None` when the WCF call raised.
  - The generated client class `Serveur.ProxyService` is not part of this model.
  - The model assumes the client sees the body exactly as the service set it.
- JSON deserialisation is the parameter `deserialize` (value, null or throws), and serialisation of the reply is the `Json` body itself.
- `double.Parse` with the invariant culture is the parameter `parse`. Coordinates and distances are `real`: IEEE doubles, NaN and infinities are not modelled.
- The haversine distance `GeoCoordinate.GetDistanceTo` is floating point, so it is the uninterpreted parameter `dist`. `OrderBy`'s handling of NaN keys is therefore not modelled either.
- `MemoryCache` internals are not modelled. Lazy eviction, memory-pressure trimming, thread safety and the absence of single-flight on concurrent misses are all left out. An expired entry stays in the map but is never served, which is what the callers observe.
- Both static policies are computed from one instant. In the source they are computed by two consecutive `Now` reads.
- `Uri` parsing is reduced to scheme, authority, path and query splitting on '/', '?' and '#'. Left out:
  - escaping, dot-segment normalisation and IPv6 hosts
  - relative URLs
  - the exception `new Uri` throws on a malformed URL
  - all of these matter only for URLs other than the two the client builds
- `StartsWith` is taken as ordinal. The source's culture-sensitive comparison also skips ignorable code points, so a line such as a soft hyphen followed by `JCDECAUX_API_KEY=abc` is a key line there (giving the key `=abc`) but not in the model. Lines holding culture-ignorable characters are not modelled.
- Query-string lookup is by exact name. `HttpListenerRequest.QueryString` compares names without regard to case, so `?ORIGINLAT=…` satisfies the source's parameter check but counts as missing in the model.
- A deserialised station list is a sequence of stations: a JSON `null` element, on which the `Where` filters dereference null and the request gets 500, is not modelled.
- Only the record fields that some decision reads are kept. The `Availabilities` bike kinds, `banking`, `bonus`, `lastUpdate`, `connected`, `overflow`, `shape`, `mainStands` and `overflowStands` are dropped. `ItineraryResponse` and `IsNearCity` are never used by the core.
- `GetContracts` is modelled, but nothing in the core calls it.
- Outside the two request branches, the handler's catch-all 500 only catches failures of the response writes, which are I/O.
- Proxy.GetData: the numeral is stated for the invariant culture. A culture whose negative sign is not '-' is not modelled.

Notes on the code's own behaviour:

- Station data is cached under the ten-minute default policy: `STATIONS_POLICY` is `DEFAULT_POLICY`.
- Expiry is an absolute instant fixed when the `Cache` type is initialised, the same for every store under a policy. After two days nothing is ever served from the cache (`ResponseCache.NothingServedAfterTwoDays`).
- A failed fetch returns status 500 with a null body. A timeout is not caught by `Call`: it escapes as a fault (`Proxy.Faulted`), with no 500 response.
- The proxy caches every 2xx answer, while the client accepts only exactly 200 (`JCDecaux.Non200SuccessCachedButNull`).
- A station without a position that passes a filter makes the computation of its distance throw, and the request gets 500 (`Routing.SelectFaultsIff`, `Routing.ComputeItineraryFails`).
- Pickup and drop-off may be the same station (`Routing.PickupMayEqualDropoff`).
- The contract searched is always `lyon`, whatever the coordinates.
