/**
 * The caching proxy (`Proxy.ProxyService`): `Call(url)` serves a live cached
 * response when there is one, and otherwise performs one outbound GET, caching
 * the response only when it succeeded.
 *
 * The network is an input: `FetchOutcome` is what the GET and the body read
 * produced. The URLs of the GETs actually issued are recorded in `sent`.
 */
module Proxy {
  import opened Wrappers
  import opened ProxyContract
  import opened ResponseCache
  import Text
  import Uris

  /** What `client.GetAsync(url)` followed by the body read produced. */
  datatype FetchOutcome =
    | Answered(statusCode: int, body: string)  // a response arrived and its body was read
    | RequestFailed                             // an HttpRequestException: DNS, refused connection, ...
    | Canceled                                  // the client's timeout elapsed (a TaskCanceledException)

  /** What the proxy's WCF caller receives: a response, or an exception escaping `Call`. */
  datatype CallResult = Returned(response: ApiResponse) | Faulted

  /** `EnsureSuccessStatusCode` lets exactly the 2xx statuses through. */
  predicate IsSuccessStatusCode(status: int) {
    200 <= status <= 299
  }

  /** The two shapes a response built by `Call` can take. */
  predicate WellFormed(r: ApiResponse) {
    || (IsSuccessStatusCode(r.status) && r.body.Some?)
    || (r.status == 500 && r.body == None)
  }

  /** Only successful fetches are ever cached. */
  ghost predicate OnlySuccesses(entries: map<string, Entry>) {
    forall u :: u in entries ==> IsSuccessStatusCode(entries[u].response.status) && entries[u].response.body.Some?
  }

  /** One call's effect: its result, the cache afterwards, and whether an outbound GET was made. */
  datatype Step = Step(result: CallResult, entries: map<string, Entry>, fetched: bool)

  /** `Call(url)` at instant `now`, given what the outbound GET would produce. */
  function CallStep(entries: map<string, Entry>, typeInit: int, url: string, now: int, fetch: FetchOutcome): Step {
    match Lookup(entries, url, now)
    case Some(cached) => Step(Returned(cached), entries, false)
    case None =>
      match fetch
      case Answered(status, body) =>
        if IsSuccessStatusCode(status) then
          var r := ApiResponse(status, Some(body));
          Step(Returned(r), Store(entries, url, r, typeInit), true)
        else
          Step(Returned(ApiResponse(500, None)), entries, true)
      case RequestFailed => Step(Returned(ApiResponse(500, None)), entries, true)
      case Canceled => Step(Faulted, entries, true)
  }

  /** A hit returns the cached response and makes no outbound GET. */
  lemma CallHit(entries: map<string, Entry>, typeInit: int, url: string, now: int, fetch: FetchOutcome, cached: ApiResponse)
    requires Lookup(entries, url, now) == Some(cached)
    ensures CallStep(entries, typeInit, url, now, fetch) == Step(Returned(cached), entries, false)
  {
  }

  /** A miss makes exactly one outbound GET; a 2xx answer is returned with its status and body
      and stored under the exact URL, and it is served to the next call until its policy's instant. */
  lemma {:induction false} CallMissSuccess(entries: map<string, Entry>, typeInit: int, url: string, now: int, status: int, body: string, later: int)
    requires Lookup(entries, url, now) == None
    requires IsSuccessStatusCode(status)
    ensures var step := CallStep(entries, typeInit, url, now, Answered(status, body));
      && step.fetched
      && step.result == Returned(ApiResponse(status, Some(body)))
      && step.entries == Store(entries, url, ApiResponse(status, Some(body)), typeInit)
      && (later < ExpiryOf(url, typeInit) ==> Lookup(step.entries, url, later) == Some(ApiResponse(status, Some(body))))
  {
    StoreThenLookup(entries, url, ApiResponse(status, Some(body)), typeInit, later);
  }

  /** A failed GET (a transport error or a non-2xx status) yields 500 with no body and leaves the
      cache as it was; a timeout escapes as a fault, again without touching the cache. */
  lemma CallMissFailure(entries: map<string, Entry>, typeInit: int, url: string, now: int, fetch: FetchOutcome)
    requires Lookup(entries, url, now) == None
    requires !(fetch.Answered? && IsSuccessStatusCode(fetch.statusCode))
    ensures var step := CallStep(entries, typeInit, url, now, fetch);
      && step.fetched
      && step.entries == entries
      && step.result == (if fetch.Canceled? then Faulted else Returned(ApiResponse(500, None)))
  {
  }

  /** Storing a successful response keeps the cache free of failures. */
  lemma {:induction false} StoreKeepsOnlySuccesses(entries: map<string, Entry>, url: string, r: ApiResponse, typeInit: int)
    requires OnlySuccesses(entries) && IsSuccessStatusCode(r.status) && r.body.Some?
    ensures OnlySuccesses(Store(entries, url, r, typeInit))
  {
    var s := Store(entries, url, r, typeInit);
    forall u | u in s ensures IsSuccessStatusCode(s[u].response.status) && s[u].response.body.Some? {
      if u != url { assert s[u] == entries[u]; }
    }
  }

  /** A successful result always carries a 2xx status and a body; otherwise it is the bare 500. */
  lemma {:induction false} CallKeepsInvariants(entries: map<string, Entry>, typeInit: int, url: string, now: int, fetch: FetchOutcome)
    requires OnlySuccesses(entries) && ExpiriesFromPolicies(entries, typeInit)
    ensures var step := CallStep(entries, typeInit, url, now, fetch);
      && OnlySuccesses(step.entries)
      && ExpiriesFromPolicies(step.entries, typeInit)
      && (step.result.Returned? ==> WellFormed(step.result.response))
  {
    var step := CallStep(entries, typeInit, url, now, fetch);
    if url in entries && now < entries[url].expiresAt {
    } else if fetch.Answered? && IsSuccessStatusCode(fetch.statusCode) {
      var r := ApiResponse(fetch.statusCode, Some(fetch.body));
      StoreKeepsExpiries(entries, url, r, typeInit);
      StoreKeepsOnlySuccesses(entries, url, r, typeInit);
    } else {
      assert step.entries == entries;
    }
  }

  /** No negative caching: after a failed call, the next call for the same URL, at the same
      instant or later, misses again and goes back to the network. */
  lemma RetryAfterFailure(entries: map<string, Entry>, typeInit: int, url: string, now: int, fetch: FetchOutcome,
                          later: int, fetch2: FetchOutcome)
    requires Lookup(entries, url, now) == None
    requires !(fetch.Answered? && IsSuccessStatusCode(fetch.statusCode))
    requires later >= now
    ensures var first := CallStep(entries, typeInit, url, now, fetch);
      CallStep(first.entries, typeInit, url, later, fetch2).fetched
  {
  }

  /** Because every expiry is fixed at type initialisation, from ten minutes after it on every
      call for a URL not ending in "contracts" goes to the network, and from two days on every call does. */
  lemma {:induction false} StaleAfterPolicyInstant(entries: map<string, Entry>, typeInit: int, url: string, now: int, fetch: FetchOutcome)
    requires ExpiriesFromPolicies(entries, typeInit)
    requires now >= typeInit + TwoDays || (now >= typeInit + TenMinutes && Uris.Route(url) != "contracts")
    ensures CallStep(entries, typeInit, url, now, fetch).fetched
  {
    assert now >= ExpiryOf(url, typeInit) by {
      var p := PolicyFor(Uris.Route(url), typeInit);
      assert ExpiryOf(url, typeInit) == p.absoluteExpiration;
    }
    ExpiredForever(entries, typeInit, url, now);
  }

  /** One call of a sequence: the URL, the instant, and what the network would answer. */
  datatype Request = Request(url: string, now: int, fetch: FetchOutcome)

  /** The results of a sequence of calls against one cache, and the cache afterwards. */
  datatype Trace = Trace(results: seq<CallResult>, entries: map<string, Entry>)

  function Run(entries: map<string, Entry>, typeInit: int, calls: seq<Request>): Trace
    decreases |calls|
  {
    if calls == [] then Trace([], entries)
    else
      var c := calls[0];
      var step := CallStep(entries, typeInit, c.url, c.now, c.fetch);
      var rest := Run(step.entries, typeInit, calls[1..]);
      Trace([step.result] + rest.results, rest.entries)
  }

  /** Over any sequence of calls starting from a cache that holds only successes,
      every response handed out is well formed and the cache still holds only successes. */
  lemma {:induction false} RunServesWellFormed(entries: map<string, Entry>, typeInit: int, calls: seq<Request>)
    requires OnlySuccesses(entries) && ExpiriesFromPolicies(entries, typeInit)
    ensures var t := Run(entries, typeInit, calls);
      && |t.results| == |calls|
      && OnlySuccesses(t.entries) && ExpiriesFromPolicies(t.entries, typeInit)
      && forall i :: 0 <= i < |t.results| && t.results[i].Returned? ==> WellFormed(t.results[i].response)
    decreases |calls|
  {
    if calls != [] {
      var c := calls[0];
      var step := CallStep(entries, typeInit, c.url, c.now, c.fetch);
      CallKeepsInvariants(entries, typeInit, c.url, c.now, c.fetch);
      RunServesWellFormed(step.entries, typeInit, calls[1..]);
      var rest := Run(step.entries, typeInit, calls[1..]);
      var t := Run(entries, typeInit, calls);
      assert t.results == [step.result] + rest.results;
      assert t.entries == rest.entries;
      forall i | 0 <= i < |t.results| && t.results[i].Returned? ensures WellFormed(t.results[i].response) {
        if i > 0 { assert t.results[i] == rest.results[i - 1]; }
      }
    }
  }

  /** `GetData(value)`: "You entered: " followed by the value in decimal. */
  function GetData(value: int): (s: string)
    ensures |s| > 13 && s[..13] == "You entered: "
    ensures var digits := s[13..];
      (digits[0] == '-' ==> Text.IsDigits(digits[1..])) && (digits[0] != '-' ==> Text.IsDigits(digits))
      && Text.ParseInt(digits) == value
    ensures var digits := s[13..];
      (digits[0] == '0' ==> digits == "0") && (digits[0] == '-' ==> |digits| >= 2 && '1' <= digits[1] <= '9')
  {
    Text.IntToStringRoundTrip(value);
    var s := "You entered: " + Text.IntToString(value);
    assert s[13..] == Text.IntToString(value);
    s
  }

  /**
   * The WCF service object. `sent` lists the URLs of the outbound GETs issued so far.
   */
  class ProxyService {
    const cache: Cache
    var sent: seq<string>

    ghost predicate Valid()
      reads cache
    {
      cache.Valid() && OnlySuccesses(cache.entries)
    }

    constructor (cache: Cache)
      requires cache.Valid() && OnlySuccesses(cache.entries)
      ensures Valid()
      ensures this.cache == cache && sent == []
    {
      this.cache := cache;
      sent := [];
    }

    /** Cache-aside fetch of `url` at instant `now`; `fetch` is what the GET would produce. */
    method Call(url: string, now: int, fetch: FetchOutcome) returns (result: CallResult)
      requires Valid()
      modifies this`sent, cache`entries
      ensures Valid()
      ensures var step := CallStep(old(cache.entries), cache.typeInit, url, now, fetch);
        && result == step.result
        && cache.entries == step.entries
        && sent == old(sent) + (if step.fetched then [url] else [])
      ensures result.Returned? ==> WellFormed(result.response)
    {
      CallKeepsInvariants(cache.entries, cache.typeInit, url, now, fetch);
      var cached := cache.GetRouteCache(url, now);
      if cached.Some? {
        CallHit(cache.entries, cache.typeInit, url, now, fetch, cached.value);
        return Returned(cached.value);
      }
      sent := sent + [url];
      match fetch {
        case Answered(status, body) =>
          if IsSuccessStatusCode(status) {
            CallMissSuccess(cache.entries, cache.typeInit, url, now, status, body, now);
            var response := ApiResponse(status, Some(body));
            cache.SetRouteCache(url, response);
            result := Returned(response);
          } else {
            CallMissFailure(cache.entries, cache.typeInit, url, now, fetch);
            result := Returned(ApiResponse(500, None));
          }
        case RequestFailed =>
          CallMissFailure(cache.entries, cache.typeInit, url, now, fetch);
          result := Returned(ApiResponse(500, None));
        case Canceled =>
          CallMissFailure(cache.entries, cache.typeInit, url, now, fetch);
          result := Faulted;
      }
    }
  }
}
