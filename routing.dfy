/**
 * The itinerary server's decisions (`Serveur.RoutingService`): which requests
 * reach the itinerary computation, which are rejected and with what, how the
 * pickup and drop-off stations are chosen, and what a successful answer holds.
 *
 * The great-circle distance is the parameter `dist` (the haversine formula is
 * floating point); `parse` stands for `double.Parse` with the invariant
 * culture, failing with the exception's message. The `.env` file, the proxy's
 * answers and the JSON deserialiser are inputs as in the provider client.
 */
module Routing {
  import opened Wrappers
  import opened ProxyContract
  import opened Stations
  import Text
  import JCDecaux

  /** The two searches: a station to take a bike from, or one to leave it at. */
  datatype Need = Pickup | Dropoff

  /** The `Where` filters: total stands and their availabilities present, and a bike
      (for a pickup) or a free dock (for a drop-off) available. */
  predicate Qualifies(s: Station, need: Need) {
    && s.totalStands.Some?
    && s.totalStands.value.availabilities.Some?
    && match need
       case Pickup => s.totalStands.value.availabilities.value.bikes > 0
       case Dropoff => s.totalStands.value.availabilities.value.stands > 0
  }

  /** Outcome of `Where(...).OrderBy(distance).FirstOrDefault()`: the index of the station
      chosen, none (`FirstOrDefault` gives null), or a fault because a qualifying station has
      no position and computing its sort key dereferences null. */
  datatype Selection = Chosen(index: nat) | NoneAvailable | KeyFault

  /** Distance from the reference point to a station with a position. */
  function DistanceTo(s: Station, origin: Position, dist: (Position, Position) -> real): real
    requires s.position.Some?
  {
    dist(origin, s.position.value)
  }

  /** The selection over `stations`, scanning left to right and replacing the current choice only
      by a strictly nearer station, which is where a stable sort puts its first element. */
  function Select(stations: seq<Station>, need: Need, origin: Position, dist: (Position, Position) -> real): (r: Selection)
    ensures r.Chosen? ==>
      && r.index < |stations|
      && Qualifies(stations[r.index], need)
      && stations[r.index].position.Some?
    decreases |stations|
  {
    if stations == [] then NoneAvailable
    else
      var last := |stations| - 1;
      var s := stations[last];
      var prev := Select(stations[..last], need, origin, dist);
      if prev.KeyFault? then KeyFault
      else if !Qualifies(s, need) then prev
      else if s.position.None? then KeyFault
      else if prev.NoneAvailable? then Chosen(last)
      else if DistanceTo(s, origin, dist) < DistanceTo(stations[prev.index], origin, dist) then Chosen(last)
      else prev
  }

  /** Some qualifying station has no position. */
  predicate HasKeyFault(stations: seq<Station>, need: Need) {
    exists k :: 0 <= k < |stations| && Qualifies(stations[k], need) && stations[k].position.None?
  }

  /** The reference characterisation of the first element of the stable order by distance:
      a qualifying station no farther than any qualifying station, and strictly nearer than
      every qualifying station listed before it. */
  predicate IsFirstNearest(stations: seq<Station>, need: Need, origin: Position, dist: (Position, Position) -> real, i: nat) {
    && i < |stations|
    && Qualifies(stations[i], need)
    && stations[i].position.Some?
    && (forall k :: 0 <= k < |stations| && Qualifies(stations[k], need) && stations[k].position.Some? ==>
          DistanceTo(stations[i], origin, dist) <= DistanceTo(stations[k], origin, dist))
    && (forall k :: 0 <= k < i && Qualifies(stations[k], need) && stations[k].position.Some? ==>
          DistanceTo(stations[k], origin, dist) > DistanceTo(stations[i], origin, dist))
  }

  /** The selection faults exactly when some qualifying station lacks a position. */
  lemma {:induction false} SelectFaultsIff(stations: seq<Station>, need: Need, origin: Position, dist: (Position, Position) -> real)
    ensures Select(stations, need, origin, dist).KeyFault? <==> HasKeyFault(stations, need)
    decreases |stations|
  {
    if stations != [] {
      var last := |stations| - 1;
      var init := stations[..last];
      SelectFaultsIff(init, need, origin, dist);
      if HasKeyFault(init, need) {
        var k :| 0 <= k < |init| && Qualifies(init[k], need) && init[k].position.None?;
        assert stations[k] == init[k];
      }
      if HasKeyFault(stations, need) {
        var k :| 0 <= k < |stations| && Qualifies(stations[k], need) && stations[k].position.None?;
        if k < last { assert init[k] == stations[k]; }
      }
    }
  }

  /** The selection finds nothing exactly when no station passes the filter. */
  lemma {:induction false} SelectNoneIff(stations: seq<Station>, need: Need, origin: Position, dist: (Position, Position) -> real)
    ensures Select(stations, need, origin, dist).NoneAvailable? <==>
      forall k :: 0 <= k < |stations| ==> !Qualifies(stations[k], need)
    decreases |stations|
  {
    if stations != [] {
      var last := |stations| - 1;
      var init := stations[..last];
      SelectNoneIff(init, need, origin, dist);
      if !(forall k :: 0 <= k < |init| ==> !Qualifies(init[k], need)) {
        var k :| 0 <= k < |init| && Qualifies(init[k], need);
        assert stations[k] == init[k];
      }
      if forall k :: 0 <= k < |init| ==> !Qualifies(init[k], need) {
        forall k | 0 <= k < last ensures !Qualifies(stations[k], need) {
          assert stations[k] == init[k];
        }
      }
    }
  }

  /** A chosen station is the first nearest one: minimal distance, ties going to the earliest. */
  lemma {:induction false} SelectIsFirstNearest(stations: seq<Station>, need: Need, origin: Position, dist: (Position, Position) -> real)
    requires Select(stations, need, origin, dist).Chosen?
    ensures IsFirstNearest(stations, need, origin, dist, Select(stations, need, origin, dist).index)
    decreases |stations|
  {
    var last := |stations| - 1;
    var init := stations[..last];
    var prev := Select(init, need, origin, dist);
    var i := Select(stations, need, origin, dist).index;
    if prev.Chosen? {
      SelectIsFirstNearest(init, need, origin, dist);
      assert stations[prev.index] == init[prev.index];
      forall k | 0 <= k < last ensures stations[k] == init[k] { }
    } else {
      assert prev.NoneAvailable?;
      SelectNoneIff(init, need, origin, dist);
      assert i == last;
      forall k | 0 <= k < last ensures !Qualifies(stations[k], need) {
        assert stations[k] == init[k];
      }
    }
  }

  /** The first nearest station is unique. */
  lemma FirstNearestUnique(stations: seq<Station>, need: Need, origin: Position, dist: (Position, Position) -> real, i: nat, j: nat)
    requires IsFirstNearest(stations, need, origin, dist, i)
    requires IsFirstNearest(stations, need, origin, dist, j)
    ensures i == j
  {
  }

  /** The selection and the reference agree on every input: the result is `Chosen(i)` exactly when
      no qualifying station lacks a position and `i` is the first nearest qualifying station. */
  lemma {:induction false} SelectMatchesReference(stations: seq<Station>, need: Need, origin: Position, dist: (Position, Position) -> real, i: nat)
    ensures Select(stations, need, origin, dist) == Chosen(i) <==>
      !HasKeyFault(stations, need) && IsFirstNearest(stations, need, origin, dist, i)
  {
    var r := Select(stations, need, origin, dist);
    SelectFaultsIff(stations, need, origin, dist);
    SelectNoneIff(stations, need, origin, dist);
    if r.Chosen? {
      SelectIsFirstNearest(stations, need, origin, dist);
      if IsFirstNearest(stations, need, origin, dist, i) {
        FirstNearestUnique(stations, need, origin, dist, i, r.index);
      }
    }
  }

  /** The request's four coordinates once parsed. */
  datatype ItineraryRequest = ItineraryRequest(originLat: real, originLng: real, destLat: real, destLng: real)

  datatype LocationInfo = LocationInfo(latitude: real, longitude: real)

  datatype StationInfo = StationInfo(address: string, latitude: real, longitude: real,
                                     availableBikes: int, availableDropPlace: int)

  /** The JSON answer of a successful request. */
  datatype ItineraryStationsResponse = ItineraryStationsResponse(
    start: LocationInfo, pickup: StationInfo, dropoff: StationInfo, end: LocationInfo)

  /** Why `ComputeItinerary` threw (all are answered alike, with a 500). */
  datatype Failure =
    | NoApiKey            // LoadApiKey threw in the client's constructor
    | StationsFault       // the proxy call or the deserialiser threw
    | NoStationList       // GetStations returned null, and `Where` rejects a null source
    | NoPosition          // a station passing a filter has no position
    | NoStationFound      // one of the searches found nothing

  /** The contract whose stations are searched, whatever the coordinates. */
  const Contract: string := "lyon"

  /** A station with the fields the answer copies. */
  predicate HasInfo(s: Station) {
    s.position.Some? && s.totalStands.Some? && s.totalStands.value.availabilities.Some?
  }

  /** The `StationInfo` built from a chosen station. */
  function InfoOf(s: Station): StationInfo
    requires HasInfo(s)
  {
    var a := s.totalStands.value.availabilities.value;
    StationInfo(s.address, s.position.value.latitude, s.position.value.longitude, a.bikes, a.stands)
  }

  /** The first half of `ComputeItinerary`: the client's constructor loads the key, then
      `GetStations` fetches the stations of the fixed contract; each way this can throw or
      leave no list is a failure. */
  function FetchStations(env: JCDecaux.EnvFile, proxy: string -> Option<ApiResponse>,
                         deserialize: string -> JCDecaux.Fetched<seq<Station>>): Result<seq<Station>, Failure>
  {
    match JCDecaux.ApiKey(env)
    case Err(_) => Err(NoApiKey)
    case Ok(key) =>
      match JCDecaux.GetStations(key, Contract, proxy, deserialize)
      case Thrown => Err(StationsFault)
      case Null => Err(NoStationList)
      case Value(stations) => Ok(stations)
  }

  /** `ComputeItinerary(req)`: fetch the stations, run both searches and build the answer
      from the two stations found. */
  function ComputeItinerary(req: ItineraryRequest, env: JCDecaux.EnvFile, proxy: string -> Option<ApiResponse>,
                            deserialize: string -> JCDecaux.Fetched<seq<Station>>,
                            dist: (Position, Position) -> real): Result<ItineraryStationsResponse, Failure>
  {
    match FetchStations(env, proxy, deserialize)
    case Err(f) => Err(f)
    case Ok(stations) =>
      var origin := Position(req.originLat, req.originLng);
      var destination := Position(req.destLat, req.destLng);
      var pickup := Select(stations, Pickup, origin, dist);
      if pickup.KeyFault? then Err(NoPosition)
      else
        var dropoff := Select(stations, Dropoff, destination, dist);
        if dropoff.KeyFault? then Err(NoPosition)
        else if pickup.NoneAvailable? || dropoff.NoneAvailable? then Err(NoStationFound)
        else
          Ok(ItineraryStationsResponse(
            LocationInfo(req.originLat, req.originLng),
            InfoOf(stations[pickup.index]),
            InfoOf(stations[dropoff.index]),
            LocationInfo(req.destLat, req.destLng)))
  }

  /** A usable station list: none of the stations passing either filter lacks a position, and
      each filter passes at least one station. */
  predicate Usable(stations: seq<Station>) {
    && !HasKeyFault(stations, Pickup) && !HasKeyFault(stations, Dropoff)
    && (exists k :: 0 <= k < |stations| && Qualifies(stations[k], Pickup))
    && (exists k :: 0 <= k < |stations| && Qualifies(stations[k], Dropoff))
  }

  /** A successful computation echoes the request's coordinates and copies the two chosen
      stations: the pickup is the first nearest station to the origin with a bike, the drop-off
      the first nearest to the destination with a free dock. */
  lemma {:induction false} ComputeItineraryOk(req: ItineraryRequest, env: JCDecaux.EnvFile, proxy: string -> Option<ApiResponse>,
                           deserialize: string -> JCDecaux.Fetched<seq<Station>>,
                           dist: (Position, Position) -> real)
    requires ComputeItinerary(req, env, proxy, deserialize, dist).Ok?
    ensures FetchStations(env, proxy, deserialize).Ok?
    ensures var stations := FetchStations(env, proxy, deserialize).value;
      var resp := ComputeItinerary(req, env, proxy, deserialize, dist).value;
      var i := Select(stations, Pickup, Position(req.originLat, req.originLng), dist).index;
      var j := Select(stations, Dropoff, Position(req.destLat, req.destLng), dist).index;
      && resp.start == LocationInfo(req.originLat, req.originLng)
      && resp.end == LocationInfo(req.destLat, req.destLng)
      && !HasKeyFault(stations, Pickup) && !HasKeyFault(stations, Dropoff)
      && IsFirstNearest(stations, Pickup, Position(req.originLat, req.originLng), dist, i)
      && IsFirstNearest(stations, Dropoff, Position(req.destLat, req.destLng), dist, j)
      && HasInfo(stations[i]) && HasInfo(stations[j])
      && resp.pickup == InfoOf(stations[i]) && resp.pickup.availableBikes > 0
      && resp.dropoff == InfoOf(stations[j]) && resp.dropoff.availableDropPlace > 0
  {
    var stations := FetchStations(env, proxy, deserialize).value;
    SelectIsFirstNearest(stations, Pickup, Position(req.originLat, req.originLng), dist);
    SelectIsFirstNearest(stations, Dropoff, Position(req.destLat, req.destLng), dist);
    SelectFaultsIff(stations, Pickup, Position(req.originLat, req.originLng), dist);
    SelectFaultsIff(stations, Dropoff, Position(req.destLat, req.destLng), dist);
  }

  /** The computation succeeds exactly when the station list arrives and is usable; a failed
      fetch is passed on as it is, and a delivered list fails with `NoPosition` when a station
      passing a filter has no position, and otherwise with `NoStationFound` when a filter passes
      no station. */
  lemma {:induction false} ComputeItineraryFails(req: ItineraryRequest, env: JCDecaux.EnvFile, proxy: string -> Option<ApiResponse>,
                              deserialize: string -> JCDecaux.Fetched<seq<Station>>,
                              dist: (Position, Position) -> real)
    ensures ComputeItinerary(req, env, proxy, deserialize, dist).Ok? <==>
      FetchStations(env, proxy, deserialize).Ok? && Usable(FetchStations(env, proxy, deserialize).value)
    ensures var f := FetchStations(env, proxy, deserialize);
      f.Err? ==> ComputeItinerary(req, env, proxy, deserialize, dist) == Err(f.error)
    ensures var f := FetchStations(env, proxy, deserialize);
      f.Ok? && (HasKeyFault(f.value, Pickup) || HasKeyFault(f.value, Dropoff)) ==>
        ComputeItinerary(req, env, proxy, deserialize, dist) == Err(NoPosition)
    ensures var f := FetchStations(env, proxy, deserialize);
      f.Ok? && !HasKeyFault(f.value, Pickup) && !HasKeyFault(f.value, Dropoff) && !Usable(f.value) ==>
        ComputeItinerary(req, env, proxy, deserialize, dist) == Err(NoStationFound)
  {
    var f := FetchStations(env, proxy, deserialize);
    if f.Ok? {
      var origin := Position(req.originLat, req.originLng);
      var destination := Position(req.destLat, req.destLng);
      SelectFaultsIff(f.value, Pickup, origin, dist);
      SelectFaultsIff(f.value, Dropoff, destination, dist);
      SelectNoneIff(f.value, Pickup, origin, dist);
      SelectNoneIff(f.value, Dropoff, destination, dist);
    }
  }

  /** Nothing keeps the pickup and the drop-off apart: a station with both a bike and a free dock,
      alone in the list, is chosen for both. */
  lemma {:induction false} PickupMayEqualDropoff(req: ItineraryRequest, env: JCDecaux.EnvFile, s: Station, dist: (Position, Position) -> real)
    requires JCDecaux.ApiKey(env).Ok?
    requires Qualifies(s, Pickup) && Qualifies(s, Dropoff) && s.position.Some?
    ensures var proxy := (url: string) => Some(ApiResponse(200, Some("[...]")));
      var deserialize := (body: string) => JCDecaux.Fetched.Value([s]);
      var r := ComputeItinerary(req, env, proxy, deserialize, dist);
      r.Ok? && r.value.pickup == r.value.dropoff
  {
    var proxy := (url: string) => Some(ApiResponse(200, Some("[...]")));
    var deserialize := (body: string) => JCDecaux.Fetched.Value([s]);
    var key := JCDecaux.ApiKey(env).value;
    assert JCDecaux.GetStations(key, Contract, proxy, deserialize) == JCDecaux.Fetched.Value([s]);
    SelectSingle(s, Pickup, Position(req.originLat, req.originLng), dist);
    SelectSingle(s, Dropoff, Position(req.destLat, req.destLng), dist);
    var info := InfoOf(s);
    assert ComputeItinerary(req, env, proxy, deserialize, dist) == Ok(ItineraryStationsResponse(
      LocationInfo(req.originLat, req.originLng), info, info, LocationInfo(req.destLat, req.destLng)));
  }

  /** In a one-station list, a qualifying station with a position is chosen. */
  lemma {:induction false} SelectSingle(s: Station, need: Need, origin: Position, dist: (Position, Position) -> real)
    requires Qualifies(s, need) && s.position.Some?
    ensures Select([s], need, origin, dist) == Chosen(0)
  {
    assert [s][..0] == [];
  }

  /** A request as the listener hands it over: method, `Url.AbsolutePath`, and the query
      string's values by name (a missing name is a `null` value). */
  datatype HttpRequest = HttpRequest(httpMethod: string, absolutePath: string, query: map<string, string>)

  /** The body written back: none, plain text, or the serialised itinerary. */
  datatype Body = NoBody | Text(text: string) | Json(itinerary: ItineraryStationsResponse)

  datatype Reply = Reply(statusCode: int, body: Body)

  const MissingParameters: string := "Missing required query parameters (originLat, originLng, destLat, destLng)."
  const InvalidParameters: string := "Invalid or missing query parameters: "
  const InternalError: string := "Internal server error"

  /** Only `GET /itinerary`, with any number of trailing '/', is served. */
  predicate IsItineraryRoute(req: HttpRequest) {
    req.httpMethod == "GET" && Text.TrimEnd(req.absolutePath, {'/'}) == "/itinerary"
  }

  /** `string.IsNullOrEmpty(query[name])`. */
  predicate IsNullOrEmpty(query: map<string, string>, name: string) {
    name !in query || query[name] == ""
  }

  predicate MissingParameter(query: map<string, string>) {
    || IsNullOrEmpty(query, "originLat")
    || IsNullOrEmpty(query, "originLng")
    || IsNullOrEmpty(query, "destLat")
    || IsNullOrEmpty(query, "destLng")
  }

  /** The four `double.Parse` calls in order; the first failure's message is the error. */
  function ParseRequest(query: map<string, string>, parse: string -> Result<real, string>): Result<ItineraryRequest, string>
    requires !MissingParameter(query)
  {
    match parse(query["originLat"])
    case Err(m) => Err(m)
    case Ok(originLat) =>
      match parse(query["originLng"])
      case Err(m) => Err(m)
      case Ok(originLng) =>
        match parse(query["destLat"])
        case Err(m) => Err(m)
        case Ok(destLat) =>
          match parse(query["destLng"])
          case Err(m) => Err(m)
          case Ok(destLng) => Ok(ItineraryRequest(originLat, originLng, destLat, destLng))
  }

  /** The status and body one iteration of the accept loop produces for a request. */
  function HandleRequest(req: HttpRequest, env: JCDecaux.EnvFile, proxy: string -> Option<ApiResponse>,
                         deserialize: string -> JCDecaux.Fetched<seq<Station>>,
                         dist: (Position, Position) -> real, parse: string -> Result<real, string>): Reply
  {
    if !IsItineraryRoute(req) then Reply(404, NoBody)
    else if MissingParameter(req.query) then Reply(400, Text(InvalidParameters + MissingParameters))
    else
      match ParseRequest(req.query, parse)
      case Err(m) => Reply(400, Text(InvalidParameters + m))
      case Ok(itinerary) =>
        match ComputeItinerary(itinerary, env, proxy, deserialize, dist)
        case Err(_) => Reply(500, Text(InternalError))
        case Ok(resp) => Reply(200, Json(resp))
  }

  /** A request gets 404 exactly when it is not `GET /itinerary` (trailing '/' ignored),
      and then it gets nothing else. */
  lemma NotFoundIffOffRoute(req: HttpRequest, env: JCDecaux.EnvFile, proxy: string -> Option<ApiResponse>,
                            deserialize: string -> JCDecaux.Fetched<seq<Station>>,
                            dist: (Position, Position) -> real, parse: string -> Result<real, string>)
    ensures HandleRequest(req, env, proxy, deserialize, dist, parse).statusCode == 404 <==> !IsItineraryRoute(req)
    ensures !IsItineraryRoute(req) ==> HandleRequest(req, env, proxy, deserialize, dist, parse) == Reply(404, NoBody)
    ensures HandleRequest(req, env, proxy, deserialize, dist, parse).statusCode in {200, 400, 404, 500}
  {
  }

  /** Trailing slashes do not matter: "/itinerary", "/itinerary/", "/itinerary//" are one route. */
  lemma {:induction false} TrailingSlashesIgnored(req: HttpRequest, n: nat)
    requires req.httpMethod == "GET" && req.absolutePath == "/itinerary"
    ensures IsItineraryRoute(req.(absolutePath := req.absolutePath + Slashes(n)))
  {
    var p := req.absolutePath + Slashes(n);
    SlashesAreSlashes(n);
    var t := Text.TrimEnd(p, {'/'});
    assert p[|p| - 1 - n] == 'y';
    assert t == p[..|p| - n];
  }

  /** `n` slashes. */
  function Slashes(n: nat): (s: string)
    ensures |s| == n
  {
    if n == 0 then "" else "/" + Slashes(n - 1)
  }

  lemma {:induction false} SlashesAreSlashes(n: nat)
    ensures forall k :: 0 <= k < n ==> Slashes(n)[k] == '/'
  {
    if n > 0 {
      SlashesAreSlashes(n - 1);
      forall k | 0 < k < n ensures Slashes(n)[k] == '/' {
        assert Slashes(n)[k] == Slashes(n - 1)[k - 1];
      }
    }
  }

  /** A missing or empty parameter gets the fixed 400 answer, whatever the stations, the key file
      or the proxy: the computation is never reached. */
  lemma MissingParameterRejected(req: HttpRequest, env: JCDecaux.EnvFile, proxy: string -> Option<ApiResponse>,
                                 deserialize: string -> JCDecaux.Fetched<seq<Station>>,
                                 dist: (Position, Position) -> real, parse: string -> Result<real, string>)
    requires IsItineraryRoute(req) && MissingParameter(req.query)
    ensures HandleRequest(req, env, proxy, deserialize, dist, parse) ==
      Reply(400, Text(InvalidParameters + MissingParameters))
  {
  }

  /** A parameter that does not parse gets 400 with the parser's message, before any computation. */
  lemma {:induction false} ParseFailureRejected(req: HttpRequest, env: JCDecaux.EnvFile, proxy: string -> Option<ApiResponse>,
                             deserialize: string -> JCDecaux.Fetched<seq<Station>>,
                             dist: (Position, Position) -> real, parse: string -> Result<real, string>)
    requires IsItineraryRoute(req) && !MissingParameter(req.query)
    requires ParseRequest(req.query, parse).Err?
    ensures HandleRequest(req, env, proxy, deserialize, dist, parse) ==
      Reply(400, Text(InvalidParameters + ParseRequest(req.query, parse).error))
    ensures var m := ParseRequest(req.query, parse).error;
      exists name :: name in ["originLat", "originLng", "destLat", "destLng"] && parse(req.query[name]) == Err(m)
  {
    var q := req.query;
    if parse(q["originLat"]).Err? {
      assert "originLat" in ["originLat", "originLng", "destLat", "destLng"];
    } else if parse(q["originLng"]).Err? {
      assert "originLng" in ["originLat", "originLng", "destLat", "destLng"];
    } else if parse(q["destLat"]).Err? {
      assert "destLat" in ["originLat", "originLng", "destLat", "destLng"];
    } else {
      assert "destLng" in ["originLat", "originLng", "destLat", "destLng"];
    }
  }

  /** A well-formed request gets 500 with "Internal server error" exactly when the computation
      fails, and otherwise 200 with the computed itinerary. */
  lemma ComputedRequestOutcome(req: HttpRequest, env: JCDecaux.EnvFile, proxy: string -> Option<ApiResponse>,
                               deserialize: string -> JCDecaux.Fetched<seq<Station>>,
                               dist: (Position, Position) -> real, parse: string -> Result<real, string>)
    requires IsItineraryRoute(req) && !MissingParameter(req.query)
    requires ParseRequest(req.query, parse).Ok?
    ensures var c := ComputeItinerary(ParseRequest(req.query, parse).value, env, proxy, deserialize, dist);
      HandleRequest(req, env, proxy, deserialize, dist, parse) ==
        if c.Err? then Reply(500, Text(InternalError)) else Reply(200, Json(c.value))
  {
  }

  /** End to end: a 200 carries an itinerary whose start and end are the parsed request
      coordinates and whose stations are the first nearest ones with a bike and a free dock. */
  lemma {:induction false} SuccessfulReply(req: HttpRequest, env: JCDecaux.EnvFile, proxy: string -> Option<ApiResponse>,
                        deserialize: string -> JCDecaux.Fetched<seq<Station>>,
                        dist: (Position, Position) -> real, parse: string -> Result<real, string>)
    requires HandleRequest(req, env, proxy, deserialize, dist, parse).statusCode == 200
    ensures IsItineraryRoute(req) && !MissingParameter(req.query) && ParseRequest(req.query, parse).Ok?
    ensures FetchStations(env, proxy, deserialize).Ok?
    ensures var r := ParseRequest(req.query, parse).value;
      var stations := FetchStations(env, proxy, deserialize).value;
      var body := HandleRequest(req, env, proxy, deserialize, dist, parse).body;
      && body.Json?
      && parse(req.query["originLat"]) == Ok(r.originLat) && parse(req.query["originLng"]) == Ok(r.originLng)
      && parse(req.query["destLat"]) == Ok(r.destLat) && parse(req.query["destLng"]) == Ok(r.destLng)
      && body.itinerary.start == LocationInfo(r.originLat, r.originLng)
      && body.itinerary.end == LocationInfo(r.destLat, r.destLng)
      && (exists i: nat :: IsFirstNearest(stations, Pickup, Position(r.originLat, r.originLng), dist, i)
                      && HasInfo(stations[i]) && body.itinerary.pickup == InfoOf(stations[i]))
      && (exists j: nat :: IsFirstNearest(stations, Dropoff, Position(r.destLat, r.destLng), dist, j)
                      && HasInfo(stations[j]) && body.itinerary.dropoff == InfoOf(stations[j]))
  {
    var r := ParseRequest(req.query, parse).value;
    ComputeItineraryOk(r, env, proxy, deserialize, dist);
  }
}
