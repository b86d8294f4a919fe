/**
 * The search orchestrator (src/controllers/mapsController.js): request
 * checks, the call into the intent resolver, the override rules that build
 * the place search, failure surfacing, and the response layout. The two
 * other handlers validate and delegate. Outcomes of the outbound calls are
 * inputs, collected in `Services`.
 */
module MapsController {
  import opened Wrappers
  import opened JsValues
  import opened Http
  import opened LlmService
  import opened GoogleMapsService

  /** The outcomes of everything a handler may call, and the configuration it reads. */
  datatype Services = Services(
    probeOk: bool,
    post: PostOutcome,
    codec: JsonCodec,
    apiKey: Option<string>,
    maxResults: int,
    places: PlacesReply,
    directions: ProviderReply,
    details: ProviderReply)

  const QueryRequired := "Query parameter is required"
  const RadiusOutOfRange := "Radius must be a number between 1 and 50000 meters"
  const SearchFailed := "Failed to search for places"
  const InternalError := "Internal server error"
  const EndpointsRequired := "Origin and destination are required"
  const PlaceIdRequired := "Place ID is required"

  /** A place as returned to the client: the Place's fields plus its two URLs. */
  datatype MapsPlace = MapsPlace(place: Place, mapsUrl: string, embedUrl: string)

  datatype SearchMetadata = SearchMetadata(query: Option<Json>, location: Option<Json>, radius: Option<Json>, resultsCount: nat)

  datatype SearchBody =
    | Failure(error: string)
    | FailureWithMessage(error: string, message: string)
    | SearchSuccess(llmAnalysis: Analysis, places: seq<MapsPlace>, searchMetadata: SearchMetadata)

  /** The arguments handed to the place search. */
  datatype SearchArgs = SearchArgs(query: Option<Json>, location: Option<Json>, radius: Option<Json>)

  /**
   * One run of the search handler: the reply, the query passed to the
   * resolver (if it was called) and the arguments of the place search (if it
   * was called).
   */
  datatype SearchRun = SearchRun(response: Response<SearchBody>, resolved: Option<Json>, searched: Option<SearchArgs>)

  /** `radius && (isNaN(radius) || radius < 1 || radius > 50000)`. */
  predicate RadiusRejected(radius: Option<Json>) {
    Truthy(radius) &&
    match ToNumber(radius.value)
    case NaN => true
    case Finite(n) => n < 1 || n > 50000
  }

  /** Every reply the handler sends for a non-search intent or a search that succeeded. */
  function Success(analysis: Analysis, places: seq<MapsPlace>, query: Option<Json>, location: Option<Json>, radius: Option<Json>): Response<SearchBody> {
    Response(200, SearchSuccess(analysis, places, SearchMetadata(query, location, radius, |places|)))
  }

  function DecoratePlace(p: Place, apiKey: Option<string>): MapsPlace {
    MapsPlace(p, MapsUrl(p.lat, p.lng, p.name), EmbedUrl(apiKey, p.lat, p.lng))
  }

  /** The URL decoration: same places in the same order, each with URLs built from its own fields. */
  function DecoratePlaces(places: seq<Place>, apiKey: Option<string>): (r: seq<MapsPlace>)
    ensures |r| == |places|
    ensures forall i :: 0 <= i < |places| ==>
      && r[i].place == places[i]
      && r[i].mapsUrl == MapsUrl(places[i].lat, places[i].lng, places[i].name)
      && r[i].embedUrl == EmbedUrl(apiKey, places[i].lat, places[i].lng, 15)
  {
    seq(|places|, i requires 0 <= i < |places| => DecoratePlace(places[i], apiKey))
  }

  /** The search the resolver's analysis asks for: its query over the caller's, the caller's location over its. */
  function SearchFor(analysis: Analysis, query: Option<Json>, location: Option<Json>, radius: Option<Json>): SearchArgs {
    var llmQuery := analysis.Get("query");
    SearchArgs(if Truthy(llmQuery) then llmQuery else query,
               if Truthy(location) then location else analysis.Get("location"),
               radius)
  }

  /** `searchPlaces(req, res)` on a request body. */
  method SearchPlaces(body: JsonObject, env: Services) returns (run: SearchRun)
    ensures !Truthy(Lookup(body, "query")) ==>
      run == SearchRun(Response(400, Failure(QueryRequired)), None, None)
    ensures Truthy(Lookup(body, "query")) && RadiusRejected(Lookup(body, "radius")) ==>
      run == SearchRun(Response(400, Failure(RadiusOutOfRange)), None, None)
    ensures Truthy(Lookup(body, "query")) && !RadiusRejected(Lookup(body, "radius")) ==>
      var query, location, radius := Lookup(body, "query"), Lookup(body, "location"), Lookup(body, "radius");
      var resolved := ProcessQuery(query.value, env.probeOk, env.post, env.codec).result;
      && run.resolved == query
      && (resolved.Err? ==>
            run.response == Response(500, FailureWithMessage(InternalError, resolved.error)) && run.searched.None?)
      && (resolved.Ok? && resolved.value.Get("intent") != Some(JStr("search_places")) ==>
            run.response == Success(resolved.value, [], query, location, radius) && run.searched.None?)
      && (resolved.Ok? && resolved.value.Get("intent") == Some(JStr("search_places")) ==>
            var args := SearchFor(resolved.value, query, location, radius);
            var outcome := PlacesOutcome(env.places, env.maxResults);
            && run.searched == Some(args)
            && (outcome.Err? ==> run.response == Response(500, FailureWithMessage(SearchFailed, outcome.error)))
            && (outcome.Ok? ==>
                  run.response == Success(resolved.value, DecoratePlaces(outcome.value, env.apiKey), query, location, radius)))
  {
    var query, location, radius := Lookup(body, "query"), Lookup(body, "location"), Lookup(body, "radius");
    if !Truthy(query) {
      return SearchRun(Response(400, Failure(QueryRequired)), None, None);
    }
    if RadiusRejected(radius) {
      return SearchRun(Response(400, Failure(RadiusOutOfRange)), None, None);
    }

    var llmRun := ProcessQuery(query.value, env.probeOk, env.post, env.codec);
    if llmRun.result.Err? {
      return SearchRun(Response(500, FailureWithMessage(InternalError, llmRun.result.error)), query, None);
    }
    var llmResult := llmRun.result.value;

    var mapsData: seq<MapsPlace> := [];
    var searched: Option<SearchArgs> := None;
    if llmResult.Get("intent") == Some(JStr("search_places")) {
      var args := SearchFor(llmResult, query, location, radius);
      searched := Some(args);
      var _, searchResults := GoogleMapsService.SearchPlaces(args.query, args.location, args.radius,
                                                             env.apiKey, env.maxResults, env.places);
      if searchResults.Err? {
        return SearchRun(Response(500, FailureWithMessage(SearchFailed, searchResults.error)), query, searched);
      }
      mapsData := DecoratePlaces(searchResults.value, env.apiKey);
    }
    run := SearchRun(Success(llmResult, mapsData, query, location, radius), query, searched);
  }

  /** A property of the request body (`undefined` when absent). */
  function Lookup(body: JsonObject, key: string): Option<Json> {
    if key in body then Some(body[key]) else None
  }

  /** With the fallback analysis the search uses the caller's query, and the detected place unless a location was given. */
  lemma FallbackSearch(q: string, location: Option<Json>, radius: Option<Json>)
    requires q != ""
    ensures var args := SearchFor(Classify(q), Some(JStr(q)), location, radius);
      var detected := Classify(q).location;
      && args.query == Some(JStr(q))
      && args.radius == radius
      && args.location == (if Truthy(location) then location
                           else if detected.Some? then Some(JStr(detected.value)) else Some(JNull))
  {
  }

  /** A falsy radius, 0 included, is never checked against the bounds. */
  lemma FalsyRadiusSkipsCheck(radius: Option<Json>)
    requires !Truthy(radius)
    ensures !RadiusRejected(radius)
  {
  }

  /** A number radius passes exactly when it is 0 (falsy) or inside [1, 50000]. */
  lemma NumberRadiusBounds(n: int)
    ensures RadiusRejected(Some(JNum(n))) <==> n != 0 && (n < 1 || n > 50000)
  {
  }

  /** A radius given as decimal text passes exactly when its value lies inside [1, 50000]. */
  lemma TextRadiusBounds(n: int)
    ensures RadiusRejected(Some(JStr(IntToString(n)))) <==> n < 1 || n > 50000
  {
    var text := IntToString(n);
    IntToStringRoundTrip(n);
    assert |text| > 0;
    var radius := Some(JStr(text));
    assert Truthy(radius);
    assert ToNumber(radius.value) == Finite(n);
  }

  /** Successful replies count exactly the places they carry. */
  lemma ResultsCountIsLength(analysis: Analysis, places: seq<MapsPlace>, query: Option<Json>, location: Option<Json>, radius: Option<Json>)
    ensures Success(analysis, places, query, location, radius).body.searchMetadata.resultsCount == |places|
  {
  }

  // ---------------------------------------------------------------------------
  // Directions and details

  datatype DirectionsBody = DirectionsError(error: string) | DirectionsSuccess(directions: Json)

  datatype DirectionsRun = DirectionsRun(response: Response<DirectionsBody>, called: Option<DirectionsParams>)

  /** `getDirections(req, res)`: both endpoints required, then the provider's body or a fixed 500. */
  function GetDirectionsHandler(body: JsonObject, env: Services): (run: DirectionsRun)
    ensures var origin, destination := Lookup(body, "origin"), Lookup(body, "destination");
      && (!Truthy(origin) || !Truthy(destination) <==> run.called.None?)
      && (run.called.None? ==> run.response == Response(400, DirectionsError(EndpointsRequired)))
      && (run.called.Some? ==> run.called.value == DirectionsParams(origin, destination, env.apiKey))
      && (run.called.Some? && env.directions.RequestFailed? ==>
            run.response == Response(500, DirectionsError(DirectionsFailure)))
      && (run.called.Some? && env.directions.Replied? ==>
            run.response == Response(200, DirectionsSuccess(env.directions.data)))
  {
    var origin, destination := Lookup(body, "origin"), Lookup(body, "destination");
    if !Truthy(origin) || !Truthy(destination) then
      DirectionsRun(Response(400, DirectionsError(EndpointsRequired)), None)
    else
      var (sent, result) := GetDirections(origin, destination, env.apiKey, env.directions);
      if result.Err? then DirectionsRun(Response(500, DirectionsError(result.error)), Some(sent))
      else DirectionsRun(Response(200, DirectionsSuccess(result.value)), Some(sent))
  }

  datatype DetailsBody = DetailsError(error: string) | DetailsSuccess(place: Option<Json>)

  datatype DetailsRun = DetailsRun(response: Response<DetailsBody>, called: Option<DetailsParams>)

  /** `getPlaceDetails(req, res)` on the route parameter: required, then the provider's `result` or a fixed 500. */
  function GetPlaceDetailsHandler(placeId: string, env: Services): (run: DetailsRun)
    ensures placeId == "" <==> run.called.None?
    ensures run.called.None? ==> run.response == Response(400, DetailsError(PlaceIdRequired))
    ensures run.called.Some? ==> run.called.value.placeId == Some(JStr(placeId))
    ensures run.called.Some? && (env.details.RequestFailed? || env.details.data.JNull?) ==>
      run.response == Response(500, DetailsError(DetailsFailure))
    ensures run.called.Some? && env.details.Replied? && !env.details.data.JNull? ==>
      run.response == Response(200, DetailsSuccess(Prop(env.details.data, "result")))
  {
    if placeId == "" then DetailsRun(Response(400, DetailsError(PlaceIdRequired)), None)
    else
      var (sent, result) := GetPlaceDetails(Some(JStr(placeId)), env.apiKey, env.details);
      if result.Err? then DetailsRun(Response(500, DetailsError(result.error)), Some(sent))
      else DetailsRun(Response(200, DetailsSuccess(result.value)), Some(sent))
  }
}
