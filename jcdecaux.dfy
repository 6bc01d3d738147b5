/**
 * The provider client (`Serveur.JCDecauxAPI`): reading the API key from the
 * lines of the `.env` file, building the two provider URLs, and the status
 * gate applied to the proxy's answer before deserialising it.
 *
 * The proxy is reached over WCF; its answer for a URL is an input
 * (`None` when the WCF call itself raised). JSON deserialisation is a
 * parameter too: it yields a value, a `null`, or throws.
 */
module JCDecaux {
  import opened Wrappers
  import opened ProxyContract
  import opened Stations
  import Text
  import Uris
  import ResponseCache
  import Proxy

  const BaseUrl: string := "https://api.jcdecaux.com/vls/v3"
  const KeyPrefix: string := "JCDECAUX_API_KEY="
  const KeyNotFound: string := "JCDECAUX_API_KEY not found in .env file"

  /** The `.env` file beside the executable: absent, or present with its lines. */
  datatype EnvFile = Absent | Present(lines: seq<string>)

  predicate IsKeyLine(line: string) {
    Text.StartsWith(line, KeyPrefix)
  }

  /** The key a key line carries: what follows the prefix, without surrounding white space. */
  function KeyOfLine(line: string): string
    requires IsKeyLine(line)
  {
    Text.Trim(line[|KeyPrefix|..], Text.WhiteSpace)
  }

  /** Index of the first key line, if any. */
  function FirstKeyLine(lines: seq<string>): (r: Option<nat>)
    ensures r.Some? ==>
      && r.value < |lines| && IsKeyLine(lines[r.value])
      && forall j :: 0 <= j < r.value ==> !IsKeyLine(lines[j])
    ensures r.None? ==> forall j :: 0 <= j < |lines| ==> !IsKeyLine(lines[j])
  {
    if lines == [] then None
    else if IsKeyLine(lines[0]) then Some(0)
    else match FirstKeyLine(lines[1..])
      case None => None
      case Some(k) => Some(k + 1)
  }

  /** What `LoadApiKey` returns, or the message of the exception it throws. */
  function ApiKey(env: EnvFile): Result<string, string> {
    match env
    case Absent => Err(KeyNotFound)
    case Present(lines) =>
      match FirstKeyLine(lines)
      case Some(k) => Ok(KeyOfLine(lines[k]))
      case None => Err(KeyNotFound)
  }

  /** The `foreach` over the lines with its early return. */
  method LoadApiKey(env: EnvFile) returns (key: Result<string, string>)
    ensures key.Ok? <==> env.Present? && exists k :: 0 <= k < |env.lines| && IsKeyLine(env.lines[k])
    ensures key.Ok? ==> exists k ::
      && 0 <= k < |env.lines| && IsKeyLine(env.lines[k])
      && (forall j :: 0 <= j < k ==> !IsKeyLine(env.lines[j]))
      && key.value == KeyOfLine(env.lines[k])
    ensures key.Err? ==> key.error == KeyNotFound
    ensures key == ApiKey(env)
  {
    if env.Present? {
      var lines := env.lines;
      var i := 0;
      while i < |lines|
        invariant 0 <= i <= |lines|
        invariant forall j :: 0 <= j < i ==> !IsKeyLine(lines[j])
      {
        if Text.StartsWith(lines[i], KeyPrefix) {
          FirstKeyLineUnique(lines, i);
          return Ok(KeyOfLine(lines[i]));
        }
        i := i + 1;
      }
    }
    return Err(KeyNotFound);
  }

  /** Lines after the first key line are never looked at. */
  lemma {:induction false} LaterLinesIgnored(lines: seq<string>, more: seq<string>)
    requires FirstKeyLine(lines).Some?
    ensures ApiKey(Present(lines + more)) == ApiKey(Present(lines))
  {
    var k := FirstKeyLine(lines).value;
    var all := lines + more;
    assert all[k] == lines[k];
    FirstKeyLineUnique(all, k);
  }

  /** The first key line is the only index that is a key line with none before it. */
  lemma FirstKeyLineUnique(lines: seq<string>, k: nat)
    requires k < |lines| && IsKeyLine(lines[k])
    requires forall j :: 0 <= j < k ==> !IsKeyLine(lines[j])
    ensures FirstKeyLine(lines) == Some(k)
  {
  }

  /** A loaded key never starts or ends with white space. */
  lemma {:induction false} KeyIsTrimmed(env: EnvFile)
    requires ApiKey(env).Ok?
    ensures var key := ApiKey(env).value;
      key == [] || (key[0] !in Text.WhiteSpace && key[|key| - 1] !in Text.WhiteSpace)
  {
    var k := FirstKeyLine(env.lines).value;
    Text.TrimEndsKept(env.lines[k][|KeyPrefix|..], Text.WhiteSpace);
  }

  /** The URL `GetContracts` asks the proxy for. */
  function ContractsUrl(key: string): string {
    BaseUrl + "/contracts?apiKey=" + key
  }

  /** The URL `GetStations(contract)` asks the proxy for. */
  function StationsUrl(key: string, contract: string): string {
    BaseUrl + "/stations?contract=" + contract + "&apiKey=" + key
  }

  /** The key can be read back from a fixed offset in either URL (for the stations URL, once
      the contract's length is known): distinct keys give distinct URLs, hence distinct cache
      entries. */
  lemma UrlsCarryKey(key: string, contract: string)
    ensures var u := ContractsUrl(key);
      |u| >= |BaseUrl| + 18 && u[..|BaseUrl|] == BaseUrl && u[|BaseUrl| + 18..] == key
    ensures var u := StationsUrl(key, contract);
      |u| == |BaseUrl| + 19 + |contract| + 8 + |key| && u[..|BaseUrl|] == BaseUrl
      && u[|BaseUrl| + 19..|BaseUrl| + 19 + |contract|] == contract
      && u[|BaseUrl| + 19 + |contract| + 8..] == key
  {
  }

  /** The pieces `BaseUrl` is made of, as a URL parser sees them. */
  lemma BaseUrlPieces()
    ensures BaseUrl == "https" + "://" + "api.jcdecaux.com" + "/vls/v3"
  {
  }

  /** The characters of those pieces, as the URL parser's separators see them. */
  lemma BaseUrlPieceChars()
    ensures ':' !in "https" && Uris.NoQuery("https")
    ensures '/' !in "api.jcdecaux.com" && '?' !in "api.jcdecaux.com" && '#' !in "api.jcdecaux.com"
    ensures Uris.NoQuery("/vls/v3")
    ensures Uris.NoQuery("contracts") && '/' !in "contracts"
    ensures Uris.NoQuery("stations") && '/' !in "stations"
  {
  }

  /** The contracts URL is cached under the two-day policy, whatever the key. */
  lemma {:induction false} ContractsUrlRoute(key: string, typeInit: int)
    ensures Uris.Route(ContractsUrl(key)) == "contracts"
    ensures ResponseCache.ExpiryOf(ContractsUrl(key), typeInit) == typeInit + ResponseCache.TwoDays
  {
    BaseUrlPieces();
    BaseUrlPieceChars();
    assert ContractsUrl(key) ==
      "https" + "://" + "api.jcdecaux.com" + "/vls/v3" + "/" + "contracts" + "?" + ("apiKey=" + key);
    Uris.RouteOfPartsWithQuery("https", "api.jcdecaux.com", "/vls/v3", "contracts", "apiKey=" + key);
  }

  /** The stations URL is cached under the ten-minute default policy, whatever the contract and key. */
  lemma {:induction false} StationsUrlRoute(key: string, contract: string, typeInit: int)
    ensures Uris.Route(StationsUrl(key, contract)) == "stations"
    ensures ResponseCache.ExpiryOf(StationsUrl(key, contract), typeInit) == typeInit + ResponseCache.TenMinutes
  {
    BaseUrlPieces();
    BaseUrlPieceChars();
    var q := "contract=" + contract + "&apiKey=" + key;
    assert StationsUrl(key, contract) ==
      "https" + "://" + "api.jcdecaux.com" + "/vls/v3" + "/" + "stations" + "?" + q;
    Uris.RouteOfPartsWithQuery("https", "api.jcdecaux.com", "/vls/v3", "stations", q);
  }

  /** What a typed client call produced: a list, a C# `null`, or an exception. */
  datatype Fetched<T> = Null | Value(value: T) | Thrown

  /** The status gate of both calls: anything but 200 is `null`; a 200 is deserialised.
      `reply` is the proxy's answer, `None` when the WCF call raised. */
  function Gate<T>(reply: Option<ApiResponse>, deserialize: string -> Fetched<T>): Fetched<T> {
    match reply
    case None => Thrown
    case Some(r) =>
      if r.status != 200 then Null
      else
        match r.body
        case None => Thrown  // deserialising a null string throws
        case Some(b) => deserialize(b)
  }

  /** `GetContracts()`, given the proxy's answer for each URL. */
  function GetContracts(key: string, proxy: string -> Option<ApiResponse>,
                        deserialize: string -> Fetched<seq<Contact>>): Fetched<seq<Contact>> {
    Gate(proxy(ContractsUrl(key)), deserialize)
  }

  /** `GetStations(contract)`, given the proxy's answer for each URL. */
  function GetStations(key: string, contract: string, proxy: string -> Option<ApiResponse>,
                       deserialize: string -> Fetched<seq<Station>>): Fetched<seq<Station>> {
    Gate(proxy(StationsUrl(key, contract)), deserialize)
  }

  /** Any status but exactly 200 yields `null`, and the body is never handed to the deserialiser:
      the outcome is the same whatever the deserialiser does. */
  lemma GateRejectsAllBut200<T>(r: ApiResponse, d1: string -> Fetched<T>, d2: string -> Fetched<T>)
    requires r.status != 200
    ensures Gate(Some(r), d1) == Gate(Some(r), d2) == Null
  {
  }

  /** Only a 200 with a body yields data, and then it is exactly the deserialised body. */
  lemma GateValueOnly200<T>(reply: Option<ApiResponse>, deserialize: string -> Fetched<T>)
    ensures Gate(reply, deserialize).Value? ==>
      && reply.Some? && reply.value.status == 200 && reply.value.body.Some?
      && deserialize(reply.value.body.value) == Gate(reply, deserialize)
    ensures reply.Some? && reply.value.status == 200 && reply.value.body.Some? ==>
      Gate(reply, deserialize) == deserialize(reply.value.body.value)
  {
  }

  /** Across the two services: a 2xx answer other than 200 (say 204) passes the proxy's
      `EnsureSuccessStatusCode` and is cached, yet the client turns it into `null`, and keeps
      doing so for every call served from that entry. */
  lemma {:induction false} Non200SuccessCachedButNull(entries: map<string, ResponseCache.Entry>, typeInit: int, url: string,
                                   now: int, status: int, body: string, later: int,
                                   deserialize: string -> Fetched<seq<Station>>)
    requires ResponseCache.Lookup(entries, url, now) == None
    requires Proxy.IsSuccessStatusCode(status) && status != 200
    requires later < ResponseCache.ExpiryOf(url, typeInit)
    ensures var step := Proxy.CallStep(entries, typeInit, url, now, Proxy.Answered(status, body));
      && step.result == Proxy.Returned(ApiResponse(status, Some(body)))
      && Gate(Some(step.result.response), deserialize) == Null
      && Proxy.CallStep(step.entries, typeInit, url, later, Proxy.RequestFailed).result == step.result
  {
    Proxy.CallMissSuccess(entries, typeInit, url, now, status, body, later);
  }

  /** A failed fetch reaches the client as the bare 500, which the gate turns into `null`. */
  lemma FetchFailureIsNull(entries: map<string, ResponseCache.Entry>, typeInit: int, url: string, now: int,
                           deserialize: string -> Fetched<seq<Station>>)
    requires ResponseCache.Lookup(entries, url, now) == None
    ensures var step := Proxy.CallStep(entries, typeInit, url, now, Proxy.RequestFailed);
      step.result.Returned? && Gate(Some(step.result.response), deserialize) == Null
  {
  }
}
