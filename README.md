# llm-maps-backend, modelled in Dafny

The backend turns a free-text travel or food question ("I want to eat pizza in
Bali") into a list of nearby places:

- The **query resolver** (`LLMService`) asks a local chat-completion server to classify
  the question. If the server is down, the call fails, or the reply cannot be parsed,
  it falls back to a keyword classifier. That classifier uses a category table and a
  gazetteer of city names.
- The **place-search normaliser** (`GoogleMapsService`) sends a text search to the
  Places API. It maps the reply status to a result or an error, keeps at most
  `maxResults` results, normalises each result and builds Maps, Embed and Static Map URLs.
- The **controller** (`MapsController`) chains the two for `POST /search`. It also passes
  `POST /directions` and `GET /places/:placeId` through to the provider.
- The **input validator** (`validation.js`) checks and sanitises query, location,
  origin/destination and place ids. Its request-body middleware rewrites the body in place.
- `SimpleCache` is an in-memory TTL cache.
- `security.js` decides CORS origins and checks the optional client API key.

The Dafny modules follow the source files:

| module | file | source |
|---|---|---|
| `LlmService` | `llm_service.dfy` | `src/services/llmService.js` |
| `GoogleMapsService` | `google_maps_service.dfy` | `src/services/googleMapsService.js` |
| `MapsController` | `maps_controller.dfy` | `src/controllers/mapsController.js` |
| `Validation` | `validation.dfy` | `src/utils/validation.js` |
| `Cache` | `cache.dfy` | `src/utils/cache.js` |
| `Security` | `security.dfy` | `src/middleware/security.js` |

Four modules model the JavaScript built-ins that the core's behaviour depends on:

- `JsStrings`: `trim` with the ECMAScript whitespace set, `includes`, `toLowerCase`, and `length` in UTF-16 code units.
- `JsValues`: JSON values, truthiness, `String(x)` and `Number(x)`. `undefined` is `None`.
- `UriComponent`: `encodeURIComponent`, plus a decoder used to state its round trip.
- `Http`: a status-and-body response, and the middleware verdict `Next`/`Answer`.

`Wrappers` holds `Option` and `Result`.

Some effects become parameters and inputs:

- What each outbound HTTP call came back with is a parameter:
  - `probeOk` for the health probe;
  - `PostOutcome` for the classifier POST;
  - `PlacesReply` and `ProviderReply` for the Maps calls.
- The functions return the request they would have sent, so "no call before validation" can be stated.
- `JSON.parse` and `JSON.stringify` are a `JsonCodec` parameter. Nothing is assumed about them.
- `Date.now()` is a `now` parameter.
- `process.env` values (API keys, `maxResults`, allowed origins) are parameters.

The stateful parts are imperative Dafny:

- `fallbackParse` keeps its two early-exit loops. They are proved against the specification function `Classify`.
- `SimpleCache` is a class over a `map` field.
- `cleanup` iterates over the keys as the source does.
- The request-body middleware is a method that updates a `RequestBody` object in place.

Some behaviour of the code may surprise a reader. The model follows it:

- A `radius` of `0` (or `""`) is falsy, so it skips the bounds check and is not sent (`mapsController.js:16`, `googleMapsService.js:25`).
- The 500 answer of a failed search carries the provider's error text (`mapsController.js:37-40`).
- `processQuery` rejects when the query is not a string and the classifier reply was unusable, because the fallback calls `toLowerCase` on it (`llmService.js:122`). The TypeError reads "Cannot read properties of null (reading 'toLowerCase')" for `null` and "userQuery.toLowerCase is not a function" for any other non-string.
- `getPlaceDetails` returns `response.data.result` whatever the status; it fails only on transport errors and on a `null` body.
- Lengths are UTF-16 code units.

## Model

| member | source | states |
|---|---|---|
| LlmService.FallbackParse | src/services/llmService.js:119-158 | the method with both early-exit loops returns exactly `Classify(userQuery)` |
| LlmService.ScanCategories | src/services/llmService.js:133-139 | the category loop stops at the first table row with an occurring keyword; otherwise `point_of_interest` |
| LlmService.ScanGazetteer | src/services/llmService.js:142-149 | the location loop stops at the first gazetteer entry that occurs; otherwise null |
| LlmService.FirstCategoryRow | src/services/llmService.js:124-139 | returns the index of a row with a matching keyword, with no earlier row matching, or the table length |
| LlmService.FirstPlaceIndex | src/services/llmService.js:141-149 | returns the index of an occurring city, with no earlier city occurring, or the gazetteer length |
| LlmService.FirstCategoryRowIs | src/services/llmService.js:134-139 | any row that matches with no earlier row matching is the one the scan returns (uniqueness) |
| LlmService.FirstPlaceIndexIs | src/services/llmService.js:144-149 | any city that occurs with no earlier city occurring is the one the scan returns |
| LlmService.FallbackShape | src/services/llmService.js:151-157 | the fallback always has intent `search_places`, `query` equal to the original text and empty `suggestions` |
| LlmService.FallbackCategoryIsFirstMatch | src/services/llmService.js:122-139 | both directions: `point_of_interest` iff no keyword of any row occurs in the lower-cased query; otherwise the category is the first row, in table order, with an occurring keyword |
| LlmService.FallbackLocationIsFirstMatch | src/services/llmService.js:141-149 | both directions: null iff no city occurs; otherwise the first city in list order that occurs |
| LlmService.RowsNameCategories | src/services/llmService.js:124-131 | no table row carries the default category |
| LlmService.KeywordSelectsCategory | src/services/llmService.js:134-137 | an occurrence of a keyword of row i, with no earlier row matching, selects row i's category |
| LlmService.PlaceSelectsLocation | src/services/llmService.js:144-147 | an occurrence of city i, with no earlier city occurring, selects city i |
| LlmService.PizzaIsRestaurant | src/services/llmService.js:119-139 | "I want to eat pizza" is classified as restaurant |
| LlmService.SubstringKeywordWins | src/services/llmService.js:125-135 | "great museum" is a restaurant, because "eat" occurs inside "great" and the restaurant row comes first |
| LlmService.NewYorkIsDetected | src/services/llmService.js:119-158 | "Find restaurants in New York" gives restaurant and "new york", with the original text kept as `query` |
| LlmService.FallbackValue | src/services/llmService.js:119-122 | `fallbackParse` succeeds exactly on strings (otherwise `toLowerCase` throws) and then equals `Classify` |
| LlmService.FirstIndexOf | src/services/llmService.js:104 | the first position of a character, or none if it is absent |
| LlmService.LastIndexOf | src/services/llmService.js:104 | the last position of a character, or none if it is absent |
| LlmService.JsonSpan | src/services/llmService.js:104 | the greedy `/\{[\s\S]*\}/` match: none iff no `{` precedes a `}`; otherwise a brace-delimited span containing every other such span |
| LlmService.JsonSpanExists | src/services/llmService.js:104-112 | a span is found iff some `{` occurs before some `}` |
| LlmService.ExtractionFollowsOrder | src/services/llmService.js:91-99 | content comes from the first applicable path in the order choices[0].message, message.content, content; otherwise it is the stringified payload |
| LlmService.ParseLlmResponse | src/services/llmService.js:84-117 | both directions: it throws iff the payload is no string and has no usable answer text or a span `JSON.parse` rejects; for a string payload on that path, the inner catch classifies the raw payload |
| LlmService.UnparsableReplyFallsBack | src/services/llmService.js:62-71 | a non-string reply whose parse throws makes `processQuery` end in the fallback on the user's own query |
| LlmService.StringReplyIsClassified | src/services/llmService.js:113-116 | a string reply whose parse throws is classified by its own text, and `processQuery` resolves with that |
| LlmService.ParsedSpanIsReturned | src/services/llmService.js:104-108 | a span that parses is returned as the parsed object, unvalidated |
| LlmService.NoSpanClassifiesContent | src/services/llmService.js:109-112 | with no span, the fallback classifies the extracted reply text, not the user's query |
| LlmService.ProbeDownUsesFallback | src/services/llmService.js:15-18 | with the probe down, the result is the fallback and nothing is posted |
| LlmService.FailureUsesFallback | src/services/llmService.js:62-72 | a failed POST or an unusable reply gives the fallback for the user's query |
| LlmService.ProcessQueryTotalOnStrings | src/services/llmService.js:10-73 | for a string query, `processQuery` never rejects |
| LlmService.ProcessQueryRejects | src/services/llmService.js:10-73 | both directions: it rejects iff the query is no string and no usable classifier reply arrived; the error is the `toLowerCase` TypeError, with its distinct text for `null` |
| LlmService.PostedIffProbeOk | src/services/llmService.js:15-59 | the user's query is posted exactly when the probe succeeded |
| GoogleMapsService.SearchPlaces | src/services/googleMapsService.js:10-70 | the method sends `OutboundParams` and returns `PlacesOutcome` of the reply |
| GoogleMapsService.QueryWithLocation | src/services/googleMapsService.js:12-17 | with a location, the query sent is "<query> in <location>" |
| GoogleMapsService.RadiusSentIffTruthy | src/services/googleMapsService.js:19-27 | radius is sent iff truthy, and then unchanged; the key is always sent; without a location the query is unchanged |
| GoogleMapsService.DeniedAndQuota | src/services/googleMapsService.js:41-47 | REQUEST_DENIED fails with the provider's message; OVER_QUERY_LIMIT fails with the quota message; both carry the outer prefix |
| GoogleMapsService.ZeroResultsIsEmpty | src/services/googleMapsService.js:49-52 | ZERO_RESULTS is an empty success, whatever else the reply holds |
| GoogleMapsService.OtherStatusFails | src/services/googleMapsService.js:54-56 | any status other than the four named ones fails with its status and message |
| GoogleMapsService.OkKeepsProviderOrder | src/services/googleMapsService.js:58-62 | on OK, when the kept results all have a location: exactly min(n, maxResults) places, each the formatting of the raw result at the same position |
| GoogleMapsService.PlacesOutcome | src/services/googleMapsService.js:63-69 | every rejection message starts with "Failed to search places: " |
| GoogleMapsService.SliceEnd | src/services/googleMapsService.js:60 | `slice(0, maxResults)` keeps min(n, maxResults) items, never more than n; a negative end counts from the back |
| GoogleMapsService.FormatPlacesResponse | src/services/googleMapsService.js:114-128 | succeeds iff every result has a location; then one place per result, in order; otherwise the TypeError |
| GoogleMapsService.FormatPlaceFields | src/services/googleMapsService.js:115-127 | each output field is the corresponding raw field; no opening hours gives no `openNow` |
| GoogleMapsService.MapsUrlCarriesName | src/services/googleMapsService.js:130-133 | the URL is prefix, coordinates, then the encoded name, which holds no `&` and decodes back to the name |
| GoogleMapsService.MapsUrlInjective | src/services/googleMapsService.js:130-133 | for the same coordinates, different names give different URLs |
| GoogleMapsService.EmbedZoom | src/services/googleMapsService.js:135-137 | the URL ends with the zoom numeral, which reads back as the zoom; the default is 15 |
| GoogleMapsService.StaticMapDefaults | src/services/googleMapsService.js:140-142 | the defaults render as zoom 15 and size 400x300 |
| GoogleMapsService.GetPlaceDetails | src/services/googleMapsService.js:72-91 | sends place_id, the fixed field list and the key; fails iff transport fails or the body is null; otherwise returns `data.result` |
| GoogleMapsService.GetDirections | src/services/googleMapsService.js:93-112 | sends origin, destination and the key; fails iff transport fails; otherwise returns the body unchanged |
| MapsController.SearchPlaces | src/controllers/mapsController.js:5-73 | a missing query gives 400 and a bad radius gives 400, both before any call; a rejected resolve gives 500; a non-search intent gives empty places; a search failure gives 500 with its message; otherwise decorated places and metadata |
| MapsController.FallbackSearch | src/controllers/mapsController.js:28-34 | the caller's location overrides the detected one (null if neither); the query and radius are passed on |
| MapsController.FalsyRadiusSkipsCheck | src/controllers/mapsController.js:16 | a falsy radius is never rejected |
| MapsController.NumberRadiusBounds | src/controllers/mapsController.js:16-20 | both directions: a numeric radius is rejected iff it is nonzero and outside [1, 50000] |
| MapsController.TextRadiusBounds | src/controllers/mapsController.js:16-20 | both directions: a numeral string is rejected iff its value is outside [1, 50000] |
| MapsController.DecoratePlaces | src/controllers/mapsController.js:44-48 | same places in the same order, each with its maps URL and its zoom-15 embed URL |
| MapsController.ResultsCountIsLength | src/controllers/mapsController.js:54-64 | `resultsCount` equals the number of places returned |
| MapsController.GetDirectionsHandler | src/controllers/mapsController.js:75-98 | no call iff origin or destination is falsy (then 400); failure gives 500; success gives 200 with the directions |
| MapsController.GetPlaceDetailsHandler | src/controllers/mapsController.js:100-123 | no call iff the id is empty (then 400); failure gives 500; success gives 200 with the place |
| Validation.ValidateQuery | src/utils/validation.js:17-32 | accepts iff a non-empty string whose trimmed length is >= 2 and whose length is <= 500; the result is the sanitised text; errors name field "query" |
| Validation.QueryCheckOrder | src/utils/validation.js:18-28 | the checks fire in source order: required, then too short, then too long |
| Validation.QueryMustBeString | src/utils/validation.js:18-20 | a non-string query is refused as required |
| Validation.AnglesOnlyQuery | src/utils/validation.js:22-31 | a query made only of angle brackets passes the length checks and sanitises to "" |
| Validation.Sanitize | src/utils/validation.js:31 | the result has no `<` or `>` and no surrounding whitespace |
| Validation.StripAnglesKeepsOthers | src/utils/validation.js:31 | stripping removes exactly the angle brackets: the multiset of the result plus the removed brackets is the input's |
| Validation.StripAnglesAppend | src/utils/validation.js:31 | stripping commutes with concatenation |
| Validation.StripAnglesOne | src/utils/validation.js:31 | on one character, a bracket is dropped and anything else kept; with StripAnglesAppend, the kept characters stay in their order |
| Validation.SanitizeIdempotent | src/utils/validation.js:31 | sanitising twice equals sanitising once |
| Validation.ValidateLocation | src/utils/validation.js:37-49 | a falsy location gives null; a truthy one is accepted iff a string of length <= 200, sanitised; errors name field "location" |
| Validation.ValidateOriginDestination | src/utils/validation.js:54-72 | origin first, then destination, must be strings that are not blank; then both lengths must be <= 200; the result is the sanitised pair; the error fields are as in the source |
| Validation.ValidatePlaceId | src/utils/validation.js:77-87 | accepts iff a non-blank string of length <= 100; the result is trimmed only |
| Validation.PlaceIdKeepsAngles | src/utils/validation.js:77-87 | every place id that passes comes back trimmed only, with its angle brackets; so when it has one, the result differs from the sanitised text |
| Validation.RequestBody.constructor | src/utils/validation.js:93 | the body object holds the given fields |
| Validation.QueryStage | src/utils/validation.js:95-97 | fails iff the query is truthy and invalid; a truthy query is replaced by its sanitised text; a falsy one leaves the body unchanged |
| Validation.LocationStage | src/utils/validation.js:99-101 | the same for location |
| Validation.EndpointStage | src/utils/validation.js:103-110 | runs only if origin or destination is truthy; then both are replaced by their sanitised text |
| Validation.QueryStageFrame | src/utils/validation.js:95-97 | the query stage changes no other field |
| Validation.LocationStageFrame | src/utils/validation.js:99-101 | the location stage changes no other field |
| Validation.EndpointStageFrame | src/utils/validation.js:103-110 | the endpoint stage changes only origin and destination |
| Validation.ValidateRequestBody | src/utils/validation.js:93-123 | the in-place middleware gives the verdict and the new fields of `CheckBody` on the old fields |
| Validation.CheckBodyFrames | src/utils/validation.js:93-123 | fields other than the four it checks are never changed |
| Validation.PassedBodyIsSanitized | src/utils/validation.js:95-112 | a body that passes has each truthy checked field as a string replaced by its sanitised text, and each falsy one untouched |
| Validation.RefusedBodyIs400 | src/utils/validation.js:113-120 | a refusal is a 400 "Validation Error" naming one of the five fields |
| Cache.SimpleCache.constructor | src/utils/cache.js:5-7 | a new cache is empty |
| Cache.SimpleCache.Set | src/utils/cache.js:13-16 | stores the value with expiry now + ttl (default 300000), replacing any old entry |
| Cache.SimpleCache.Get | src/utils/cache.js:21-33 | returns the value iff present and not past expiry; an expired entry is deleted; nothing else changes |
| Cache.SimpleCache.Has | src/utils/cache.js:38-50 | true iff `Get` would return a value, with the same eviction |
| Cache.SimpleCache.Delete | src/utils/cache.js:55-57 | reports whether the key was present and removes only it |
| Cache.SimpleCache.Clear | src/utils/cache.js:62-64 | the cache becomes empty |
| Cache.SimpleCache.Cleanup | src/utils/cache.js:69-75 | removes exactly the entries past expiry and keeps the rest unchanged |
| Cache.Evict | src/utils/cache.js:27-30 | only the named key, and only when stale, is dropped |
| Cache.Purge | src/utils/cache.js:69-75 | exactly the stale keys are dropped; kept entries are unchanged |
| Cache.ReadAfterSet | src/utils/cache.js:13-33 | a read no later than the expiry returns the stored value and evicts nothing |
| Cache.ReadAfterExpiry | src/utils/cache.js:13-33 | a read after the expiry misses and evicts the key |
| Cache.SetIsolated | src/utils/cache.js:13-16 | setting one key does not change what another key reads |
| Cache.PurgeUnobservable | src/utils/cache.js:27-30 | eviction and cleanup never change what a read at the same or a later time returns |
| Cache.PurgeIdempotent | src/utils/cache.js:69-75 | cleaning up twice at the same time equals cleaning up once |
| Security.CorsOrigin | src/middleware/security.js:17-26 | allow iff no origin, an empty origin, or one in the allowed list; otherwise "Not allowed by CORS" |
| Security.DefaultOrigins | src/config.js:19-21 | with the default list, localhost:8080 is allowed and another site is denied |
| Security.ValidateApiKey | src/middleware/security.js:32-45 | passes iff no key is configured or the header equals it; otherwise 401 "Invalid API key" |
| JsStrings.TrimIsInfix | src/utils/validation.js:22 | `trim` returns an infix of its input with only whitespace before and after |
| JsStrings.TrimIdempotent | src/utils/validation.js:31 | trimming twice equals trimming once |
| JsStrings.TrimEmpty | src/utils/validation.js:55 | both directions: `trim` gives "" iff the string is all whitespace |
| JsStrings.IncludesIffOccurs | src/services/llmService.js:135 | both directions: `includes` holds iff the pattern occurs at some offset |
| JsStrings.Utf16LengthBmp | src/utils/validation.js:26 | both directions: the length equals the code-point count iff no code point is above U+FFFF |
| JsStrings.ToLower | src/services/llmService.js:122 | `toLowerCase` keeps the length and maps each character on its own |
| JsValues.IntToStringRoundTrip | src/controllers/mapsController.js:16 | `Number(String(n))` is n for every integer |
| JsValues.NumericStringToNumber | src/controllers/mapsController.js:16 | a numeral string and the number it renders coerce alike |
| UriComponent.EncodeChar | src/services/googleMapsService.js:131 | an unreserved character is kept as it is; any other becomes 3 characters per UTF-8 byte, a run of triples each made of '%' and two upper-case hex digits |
| UriComponent.EncodeUriComponent | src/services/googleMapsService.js:131 | the output contains only unreserved characters and '%' |
| UriComponent.EncodeAppend | src/services/googleMapsService.js:131 | the encoding of a concatenation is the concatenation of the encodings |
| UriComponent.EncodeSingle | src/services/googleMapsService.js:131 | a one-character string encodes as its character does; with EncodeAppend and EncodeChar, this fixes the whole output |
| UriComponent.ReadPercentBytes | src/services/googleMapsService.js:131 | the k-th escape of a byte string reads back as its k-th byte |
| UriComponent.DecodeEncode | src/services/googleMapsService.js:131 | decoding the encoding gives back the input |
| UriComponent.EncodeInjective | src/services/googleMapsService.js:131 | different inputs encode differently |
| UriComponent.EncodeUnreserved | src/services/googleMapsService.js:131 | a string of unreserved characters encodes to itself |

## Left out

- Floating-point numbers: latitudes, longitudes and ratings are passed through as rendered text or JSON values. `Number(x)` is modelled for integers and for strings of an optional `+` or `-` and digits, with surrounding whitespace. Other strings give `NaN`, including `1e3`, hex and decimals, which JavaScript would read as numbers.
- `toLowerCase` and the case mapping are modelled for ASCII letters only.
- Strings are sequences of Unicode scalar values. So lone surrogates cannot occur, and `String.prototype.length` counts two units for each code point above U+FFFF.
- `JSON.parse` and `JSON.stringify` are an uninterpreted codec parameter. Their own behaviour is not modelled.
- HTTP requests, their timeouts and their headers are not modelled. Each call's outcome is an input, and the request parameters are returned.
- The health probe `isOpenWebUIAvailable` is the input `probeOk`.
- The model name, temperature, `top_p` and the system prompt of the classifier request are not modelled. Neither is its bearer header.
- All logging (`console.log` and `console.error`) is left out.
- `Date.now()` is a `now` parameter. `SimpleCache.Cleanup` reads the clock once for the whole sweep, while the source reads it once per entry.
- `Map` insertion order is not modelled, and `cleanup` visits keys in an unspecified order. The result does not depend on the order.
- Cache.SimpleCache.Get: the source returns `null` both for a miss and for a fresh entry whose stored value is `null`. The model returns `None` for a miss and `Some(value)` for a hit, so it separates two cases that the caller of the source cannot tell apart.
- GoogleMapsService.FormatPlacesResponse: a result without `geometry` fails with the same TypeError text as one with `geometry` but no `location`.
- Validation.ValidateRequestBody: a `req.body` that is undefined or not an object is not modelled. The body is a map from field names to JSON values.
- Routing (`src/routes/maps.js`), `src/app.js`, the rate limiter and the parsing of `process.env` in `src/config.js` are not modelled. Configured values (API keys, `maxResults`, the allowed origins) are parameters.
- LlmService.NewYorkIsDetected, PizzaIsRestaurant, SubstringKeywordWins: these are the only literal fallback examples proved. The other example queries (the cafe and park queries) follow from FallbackCategoryIsFirstMatch and KeywordSelectsCategory but are not stated one by one.
- Validation.AnglesOnlyQuery: stated for strings made only of angle brackets, with 2 to 500 of them, rather than for one literal string.
- JsStrings.Utf16Length: the function's own contract gives only the bounds |s| to 2|s|. The exact characterisation is the lemma Utf16LengthBmp.
