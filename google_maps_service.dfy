/**
 * The place-search normaliser (src/services/googleMapsService.js): the
 * outbound text-search request, the mapping of the provider's status to an
 * outcome, truncation to `maxResults`, the raw-to-Place mapping and the URL
 * builders. Provider replies are inputs; latitudes and longitudes are
 * carried as their already-rendered decimal text.
 */
module GoogleMapsService {
  import opened Wrappers
  import opened JsStrings
  import opened JsValues
  import opened UriComponent

  /** `geometry.location` of a raw result, as rendered numbers. */
  datatype LatLng = LatLng(lat: string, lng: string)

  /** One raw text-search result; every field may be missing. */
  datatype RawPlace = RawPlace(
    placeId: Option<Json>,
    name: Option<Json>,
    formattedAddress: Option<Json>,
    rating: Option<Json>,
    userRatingsTotal: Option<Json>,
    location: Option<LatLng>,
    types: Option<Json>,
    openingHours: Option<Json>)

  /** The normalised record handed to the controller. */
  datatype Place = Place(
    id: Option<Json>,
    name: Option<Json>,
    address: Option<Json>,
    rating: Option<Json>,
    totalRatings: Option<Json>,
    lat: string,
    lng: string,
    types: Option<Json>,
    openNow: Option<Json>)

  /** The query parameters of the text-search request; `radius` is None when not sent. */
  datatype PlacesParams = PlacesParams(query: Option<Json>, key: Option<string>, radius: Option<Json>)

  /** What the text-search request came back with. */
  datatype PlacesReply =
    | TransportFailure(message: string)
    | Answered(status: Option<Json>, errorMessage: Option<Json>, results: Option<seq<RawPlace>>)

  const SearchFailurePrefix := "Failed to search places: "
  const QuotaMessage := "Google Maps API quota exceeded"
  /** The TypeError a raw result without `geometry.location` raises during formatting. */
  const MissingLocationError := "Cannot read properties of undefined (reading 'location')"
  /** The TypeError an OK reply without `results` raises. */
  const MissingResultsError := "Cannot read properties of undefined (reading 'slice')"

  // ---------------------------------------------------------------------------
  // The outbound request

  /** The text sent as `query`: the query alone, or "<query> in <location>" when a location is given. */
  function SearchQuery(query: Option<Json>, location: Option<Json>): Option<Json> {
    if Truthy(location) then Some(JStr(RenderOpt(query) + " in " + RenderOpt(location))) else query
  }

  function OutboundParams(query: Option<Json>, location: Option<Json>, radius: Option<Json>, apiKey: Option<string>): PlacesParams {
    PlacesParams(SearchQuery(query, location), apiKey, if Truthy(radius) then radius else None)
  }

  /** A string query with a location is sent as "<query> in <location>". */
  lemma QueryWithLocation(query: string, location: string)
    requires location != ""
    ensures SearchQuery(Some(JStr(query)), Some(JStr(location))) == Some(JStr(query + " in " + location))
  {
  }

  /** `radius` is sent exactly when it is truthy, and then as given; the query and key always are. */
  lemma RadiusSentIffTruthy(query: Option<Json>, location: Option<Json>, radius: Option<Json>, apiKey: Option<string>)
    ensures var p := OutboundParams(query, location, radius, apiKey);
      && (p.radius.Some? <==> Truthy(radius))
      && (p.radius.Some? ==> p.radius == radius)
      && p.key == apiKey
      && (!Truthy(location) ==> p.query == query)
  {
  }

  // ---------------------------------------------------------------------------
  // Formatting

  /** `place.opening_hours?.open_now`. */
  function OpenNow(openingHours: Option<Json>): Option<Json> {
    if openingHours.None? || openingHours.value.JNull? then None else Prop(openingHours.value, "open_now")
  }

  function FormatPlace(p: RawPlace): (r: Place)
    requires p.location.Some?
  {
    Place(p.placeId, p.name, p.formattedAddress, p.rating, p.userRatingsTotal,
          p.location.value.lat, p.location.value.lng, p.types, OpenNow(p.openingHours))
  }

  /** The field renaming of `formatPlacesResponse`. */
  lemma FormatPlaceFields(p: RawPlace)
    requires p.location.Some?
    ensures var r := FormatPlace(p);
      && r.id == p.placeId && r.name == p.name && r.address == p.formattedAddress
      && r.rating == p.rating && r.totalRatings == p.userRatingsTotal && r.types == p.types
      && r.lat == p.location.value.lat && r.lng == p.location.value.lng
      && (p.openingHours.None? ==> r.openNow.None?)
  {
  }

  /** `formatPlacesResponse`: one Place per raw result, in order; a result without a location throws. */
  function FormatPlacesResponse(raws: seq<RawPlace>): (r: Result<seq<Place>, string>)
    ensures r.Ok? <==> forall i :: 0 <= i < |raws| ==> raws[i].location.Some?
    ensures r.Ok? ==> |r.value| == |raws| && forall i :: 0 <= i < |raws| ==> r.value[i] == FormatPlace(raws[i])
    ensures r.Err? ==> r.error == MissingLocationError
  {
    if forall i :: 0 <= i < |raws| ==> raws[i].location.Some? then
      Ok(seq(|raws|, i requires 0 <= i < |raws| => FormatPlace(raws[i])))
    else
      Err(MissingLocationError)
  }

  // ---------------------------------------------------------------------------
  // The provider's status

  /** The end index of `slice(0, maxResults)` on n items (a negative end counts from the back). */
  function SliceEnd(n: nat, maxResults: int): (k: nat)
    ensures k <= n
    ensures maxResults >= 0 ==> k == if maxResults < n then maxResults else n
  {
    if maxResults >= 0 then (if maxResults < n then maxResults else n)
    else if n + maxResults > 0 then n + maxResults else 0
  }

  /** The outcome of an answered request, before the outer error wrapping. */
  function ProviderOutcome(status: Option<Json>, errorMessage: Option<Json>, results: Option<seq<RawPlace>>, maxResults: int): Result<seq<Place>, string> {
    if status == Some(JStr("REQUEST_DENIED")) then Err("API Key rejected: " + RenderOpt(errorMessage))
    else if status == Some(JStr("OVER_QUERY_LIMIT")) then Err(QuotaMessage)
    else if status == Some(JStr("ZERO_RESULTS")) then Ok([])
    else if status != Some(JStr("OK")) then
      Err("Google Places API error: " + RenderOpt(status) + " - " + RenderOpt(errorMessage))
    else if results.None? then Err(MissingResultsError)
    else FormatPlacesResponse(results.value[..SliceEnd(|results.value|, maxResults)])
  }

  /** The outcome of `searchPlaces`: every error leaves with the outer prefix. */
  function PlacesOutcome(reply: PlacesReply, maxResults: int): (r: Result<seq<Place>, string>)
    ensures r.Err? ==> |r.error| >= |SearchFailurePrefix| && r.error[..|SearchFailurePrefix|] == SearchFailurePrefix
  {
    match reply
    case TransportFailure(message) => Err(SearchFailurePrefix + message)
    case Answered(status, errorMessage, results) =>
      var inner := ProviderOutcome(status, errorMessage, results, maxResults);
      if inner.Ok? then inner else Err(SearchFailurePrefix + inner.error)
  }

  /** `searchPlaces(query, location, radius)`: the request it sends and what it resolves or rejects with. */
  method SearchPlaces(query: Option<Json>, location: Option<Json>, radius: Option<Json>, apiKey: Option<string>,
                      maxResults: int, reply: PlacesReply)
    returns (sent: PlacesParams, r: Result<seq<Place>, string>)
    ensures sent == OutboundParams(query, location, radius, apiKey)
    ensures r == PlacesOutcome(reply, maxResults)
  {
    var searchQuery := query;
    if Truthy(location) {
      searchQuery := Some(JStr(RenderOpt(query) + " in " + RenderOpt(location)));
    }
    sent := PlacesParams(searchQuery, apiKey, None);
    if Truthy(radius) {
      sent := sent.(radius := radius);
    }
    assert sent == OutboundParams(query, location, radius, apiKey);

    if reply.TransportFailure? {
      r := Err(SearchFailurePrefix + reply.message);
      return;
    }
    var status := reply.status;
    if status == Some(JStr("REQUEST_DENIED")) {
      r := Err(SearchFailurePrefix + ("API Key rejected: " + RenderOpt(reply.errorMessage)));
      return;
    }
    if status == Some(JStr("OVER_QUERY_LIMIT")) {
      r := Err(SearchFailurePrefix + QuotaMessage);
      return;
    }
    if status == Some(JStr("ZERO_RESULTS")) {
      r := Ok([]);
      return;
    }
    if status != Some(JStr("OK")) {
      r := Err(SearchFailurePrefix + ("Google Places API error: " + RenderOpt(status) + " - " + RenderOpt(reply.errorMessage)));
      return;
    }
    if reply.results.None? {
      r := Err(SearchFailurePrefix + MissingResultsError);
      return;
    }
    var limited := reply.results.value[..SliceEnd(|reply.results.value|, maxResults)];
    r := FormatPlacesResponse(limited);
    if r.Err? {
      r := Err(SearchFailurePrefix + r.error);
    }
  }

  /** REQUEST_DENIED carries the provider's message; OVER_QUERY_LIMIT reports the quota. */
  lemma DeniedAndQuota(errorMessage: Option<Json>, results: Option<seq<RawPlace>>, maxResults: int)
    ensures PlacesOutcome(Answered(Some(JStr("REQUEST_DENIED")), errorMessage, results), maxResults)
         == Err(SearchFailurePrefix + ("API Key rejected: " + RenderOpt(errorMessage)))
    ensures PlacesOutcome(Answered(Some(JStr("OVER_QUERY_LIMIT")), errorMessage, results), maxResults)
         == Err(SearchFailurePrefix + QuotaMessage)
  {
  }

  /** ZERO_RESULTS is an empty success, whatever `results` holds. */
  lemma ZeroResultsIsEmpty(errorMessage: Option<Json>, results: Option<seq<RawPlace>>, maxResults: int)
    ensures PlacesOutcome(Answered(Some(JStr("ZERO_RESULTS")), errorMessage, results), maxResults) == Ok([])
  {
  }

  /** Any other status that is not OK fails with the status and message in the text. */
  lemma OtherStatusFails(status: Option<Json>, errorMessage: Option<Json>, results: Option<seq<RawPlace>>, maxResults: int)
    requires status !in {Some(JStr("REQUEST_DENIED")), Some(JStr("OVER_QUERY_LIMIT")), Some(JStr("ZERO_RESULTS")), Some(JStr("OK"))}
    ensures PlacesOutcome(Answered(status, errorMessage, results), maxResults)
         == Err(SearchFailurePrefix + ("Google Places API error: " + RenderOpt(status) + " - " + RenderOpt(errorMessage)))
  {
  }

  /** On OK the places are the first min(n, maxResults) results, in provider order, each formatted. */
  lemma OkKeepsProviderOrder(errorMessage: Option<Json>, results: seq<RawPlace>, maxResults: nat)
    requires forall i :: 0 <= i < |results| && i < maxResults ==> results[i].location.Some?
    ensures var r := PlacesOutcome(Answered(Some(JStr("OK")), errorMessage, Some(results)), maxResults);
      && r.Ok?
      && |r.value| == (if maxResults < |results| then maxResults else |results|)
      && forall i :: 0 <= i < |r.value| ==> r.value[i] == FormatPlace(results[i])
  {
    var kept := results[..SliceEnd(|results|, maxResults)];
    assert forall i :: 0 <= i < |kept| ==> kept[i] == results[i];
  }

  // ---------------------------------------------------------------------------
  // URL builders

  const MapsSearchPrefix := "https://www.google.com/maps/search/?api=1&query="
  const PlaceIdParam := "&query_place_id="

  /** A template-string rendering of the configured key (`undefined` when unset). */
  function KeyText(apiKey: Option<string>): string {
    if apiKey.Some? then apiKey.value else "undefined"
  }

  /** `generateMapsUrl(lat, lng, placeName)`. */
  function MapsUrl(lat: string, lng: string, placeName: Option<Json>): string {
    MapsSearchPrefix + lat + "," + lng + PlaceIdParam + EncodeUriComponent(RenderOpt(placeName))
  }

  /** The place-name parameter is the last one, holds no '&', and decodes back to the name. */
  lemma MapsUrlCarriesName(lat: string, lng: string, placeName: Option<Json>)
    ensures var name := RenderOpt(placeName);
      var e := EncodeUriComponent(name);
      && MapsUrl(lat, lng, placeName) == MapsSearchPrefix + lat + "," + lng + PlaceIdParam + e
      && (forall k :: 0 <= k < |e| ==> e[k] != '&')
      && DecodeUriComponent(e) == Some(name)
  {
    DecodeEncode(RenderOpt(placeName));
  }

  /** Different place names give different maps URLs for the same coordinates. */
  lemma MapsUrlInjective(lat: string, lng: string, a: string, b: string)
    requires MapsUrl(lat, lng, Some(JStr(a))) == MapsUrl(lat, lng, Some(JStr(b)))
    ensures a == b
  {
    var p := MapsSearchPrefix + lat + "," + lng + PlaceIdParam;
    var ea, eb := EncodeUriComponent(a), EncodeUriComponent(b);
    assert MapsUrl(lat, lng, Some(JStr(a))) == p + ea;
    assert MapsUrl(lat, lng, Some(JStr(b))) == p + eb;
    assert ea == (p + ea)[|p|..];
    assert eb == (p + eb)[|p|..];
    EncodeInjective(a, b);
  }

  /** `generateEmbedUrl(lat, lng, zoom = 15)`. */
  function EmbedUrl(apiKey: Option<string>, lat: string, lng: string, zoom: int := 15): string {
    "https://www.google.com/maps/embed/v1/view?key=" + KeyText(apiKey) + "&center=" + lat + "," + lng
      + "&zoom=" + IntToString(zoom)
  }

  /** The zoom parameter is the last one and reads back as the zoom given, 15 when none is. */
  lemma EmbedZoom(apiKey: Option<string>, lat: string, lng: string, zoom: int)
    ensures var u := EmbedUrl(apiKey, lat, lng, zoom);
      var z := IntToString(zoom);
      |u| >= |z| && u[|u| - |z|..] == z && StringToNumber(z) == Finite(zoom)
    ensures EmbedUrl(apiKey, lat, lng) == EmbedUrl(apiKey, lat, lng, 15)
  {
    IntToStringRoundTrip(zoom);
  }

  /** `generateStaticMapUrl(lat, lng, zoom = 15, width = 400, height = 300)`. */
  function StaticMapUrl(apiKey: Option<string>, lat: string, lng: string, zoom: int := 15, width: int := 400, height: int := 300): string {
    "https://maps.googleapis.com/maps/api/staticmap?center=" + lat + "," + lng
      + "&zoom=" + IntToString(zoom) + "&size=" + IntToString(width) + "x" + IntToString(height)
      + "&markers=color:red%7C" + lat + "," + lng + "&key=" + KeyText(apiKey)
  }

  lemma DefaultNumerals()
    ensures IntToString(15) == "15" && IntToString(400) == "400" && IntToString(300) == "300"
  {
    assert NatToString(4) == "4" && NatToString(3) == "3" && NatToString(0) == "0";
    assert NatToString(40) == "40" && NatToString(30) == "30";
    assert NatToString(1) == "1";
  }

  /** The defaults render as zoom 15 and size 400x300. */
  lemma StaticMapDefaults(apiKey: Option<string>, lat: string, lng: string)
    ensures StaticMapUrl(apiKey, lat, lng)
         == "https://maps.googleapis.com/maps/api/staticmap?center=" + lat + "," + lng
            + "&zoom=" + "15" + "&size=" + "400" + "x" + "300"
            + "&markers=color:red%7C" + lat + "," + lng + "&key=" + KeyText(apiKey)
  {
    DefaultNumerals();
  }

  // ---------------------------------------------------------------------------
  // Details and directions

  /** What a details or directions request came back with: a transport failure, or the reply body. */
  datatype ProviderReply = RequestFailed | Replied(data: Json)

  const DetailsFields := "name,formatted_address,geometry,rating,opening_hours,photos,website"
  const DetailsFailure := "Failed to get place details"
  const DirectionsFailure := "Failed to get directions"

  datatype DetailsParams = DetailsParams(placeId: Option<Json>, fields: string, key: Option<string>)
  datatype DirectionsParams = DirectionsParams(origin: Option<Json>, destination: Option<Json>, key: Option<string>)

  /** `getPlaceDetails(placeId)`: the reply's `result` (undefined when absent); a null body throws. */
  function GetPlaceDetails(placeId: Option<Json>, apiKey: Option<string>, reply: ProviderReply): (r: (DetailsParams, Result<Option<Json>, string>))
    ensures r.0 == DetailsParams(placeId, DetailsFields, apiKey)
    ensures r.1.Err? <==> reply.RequestFailed? || reply.data.JNull?
    ensures r.1.Err? ==> r.1.error == DetailsFailure
    ensures r.1.Ok? ==> r.1.value == Prop(reply.data, "result")
  {
    var sent := DetailsParams(placeId, DetailsFields, apiKey);
    if reply.RequestFailed? || reply.data.JNull? then (sent, Err(DetailsFailure))
    else (sent, Ok(Prop(reply.data, "result")))
  }

  /** `getDirections(origin, destination)`: the whole reply body, or the fixed failure. */
  function GetDirections(origin: Option<Json>, destination: Option<Json>, apiKey: Option<string>, reply: ProviderReply): (r: (DirectionsParams, Result<Json, string>))
    ensures r.0 == DirectionsParams(origin, destination, apiKey)
    ensures r.1.Err? <==> reply.RequestFailed?
    ensures r.1.Err? ==> r.1.error == DirectionsFailure
    ensures r.1.Ok? ==> r.1.value == reply.data
  {
    var sent := DirectionsParams(origin, destination, apiKey);
    if reply.RequestFailed? then (sent, Err(DirectionsFailure)) else (sent, Ok(reply.data))
  }
}
