/**
 * Input validators and the body-rewriting middleware (src/utils/validation.js).
 * Each validator checks in a fixed order, fails with a ValidationError that
 * names the offending field, and otherwise returns the sanitised text. Lengths
 * are JavaScript `length`s, i.e. UTF-16 code units.
 */
module Validation {
  import opened Wrappers
  import opened JsStrings
  import opened JsValues
  import opened Http

  datatype ValidationError = ValidationError(message: string, field: string)

  const QueryRequired := "Query is required and must be a string"
  const QueryTooShort := "Query must be at least 2 characters long"
  const QueryTooLong := "Query is too long (max 500 characters)"
  const LocationNotString := "Location must be a string"
  const LocationTooLong := "Location is too long (max 200 characters)"
  const OriginRequired := "Origin is required and must be a string"
  const DestinationRequired := "Destination is required and must be a string"
  const EndpointsTooLong := "Origin and destination must be less than 200 characters"
  const PlaceIdRequired := "Place ID is required"
  const PlaceIdTooLong := "Place ID is too long (max 100 characters)"

  // ---------------------------------------------------------------------------
  // Sanitising

  predicate IsAngle(c: char) {
    c == '<' || c == '>'
  }

  predicate NoAngles(s: string) {
    forall k :: 0 <= k < |s| ==> !IsAngle(s[k])
  }

  /** `s.replace(/[<>]/g, '')`: the other characters, in order. */
  function StripAngles(s: string): (r: string)
    ensures NoAngles(r)
    ensures |r| <= |s|
    ensures NoAngles(s) ==> r == s
  {
    if s == [] then []
    else if IsAngle(s[0]) then StripAngles(s[1..])
    else [s[0]] + StripAngles(s[1..])
  }

  /** Stripping works character by character: it commutes with concatenation ... */
  lemma {:induction false} StripAnglesAppend(a: string, b: string)
    ensures StripAngles(a + b) == StripAngles(a) + StripAngles(b)
  {
    if a == [] {
      assert a + b == b;
    } else {
      assert (a + b)[0] == a[0] && (a + b)[1..] == a[1..] + b;
      StripAnglesAppend(a[1..], b);
    }
  }

  /** ... and on one character it drops a bracket and keeps anything else, so the kept characters stay in order. */
  lemma StripAnglesOne(c: char)
    ensures StripAngles([c]) == if IsAngle(c) then [] else [c]
  {
    assert [c][1..] == [];
  }

  /** Stripping deletes exactly the angle brackets: the kept characters and the brackets together are the input's. */
  lemma {:induction false} StripAnglesKeepsOthers(s: string)
    ensures multiset(StripAngles(s)) + multiset(AnglesOf(s)) == multiset(s)
  {
    if s != [] {
      StripAnglesKeepsOthers(s[1..]);
      assert s == [s[0]] + s[1..];
    }
  }

  /** The angle brackets of `s`, in order. */
  function AnglesOf(s: string): (r: string)
    ensures forall k :: 0 <= k < |r| ==> IsAngle(r[k])
  {
    if s == [] then []
    else if IsAngle(s[0]) then [s[0]] + AnglesOf(s[1..])
    else AnglesOf(s[1..])
  }

  /** `trim` only removes characters, so it cannot introduce a bracket. */
  lemma TrimKeepsNoAngles(t: string)
    requires NoAngles(t)
    ensures NoAngles(Trim(t))
  {
    var a := TrimStart(t);
    var r := TrimEnd(a);
    var d := |t| - |a|;
    assert forall k :: 0 <= k < |r| ==> r[k] == a[k] == t[d + k];
  }

  /** Strip `<` and `>`, then `trim`. */
  function Sanitize(s: string): (r: string)
    ensures NoAngles(r) && NotPadded(r)
  {
    var t := StripAngles(s);
    TrimKeepsNoAngles(t);
    Trim(t)
  }

  /** Sanitising twice is sanitising once. */
  lemma SanitizeIdempotent(s: string)
    ensures Sanitize(Sanitize(s)) == Sanitize(s)
  {
    var r := Sanitize(s);
    assert StripAngles(r) == r;
    TrimOfNotPadded(r);
  }

  // ---------------------------------------------------------------------------
  // The four validators

  /** `validateAndSanitize.query`. */
  function ValidateQuery(query: Option<Json>): (r: Result<string, ValidationError>)
    ensures r.Err? ==> r.error.field == "query"
    ensures r.Ok? <==> && IsString(query) && query.value.s != ""
                       && Utf16Length(Trim(query.value.s)) >= 2 && Utf16Length(query.value.s) <= 500
    ensures r.Ok? ==> r.value == Sanitize(query.value.s)
  {
    if !Truthy(query) || !IsString(query) then Err(ValidationError(QueryRequired, "query"))
    else if Utf16Length(Trim(query.value.s)) < 2 then Err(ValidationError(QueryTooShort, "query"))
    else if Utf16Length(query.value.s) > 500 then Err(ValidationError(QueryTooLong, "query"))
    else Ok(Sanitize(query.value.s))
  }

  lemma ShortQueryRefused(s: string)
    requires s != "" && Utf16Length(Trim(s)) < 2
    ensures ValidateQuery(Some(JStr(s))) == Err(ValidationError(QueryTooShort, "query"))
  {
    var q := Some(JStr(s));
    assert Truthy(q) && IsString(q);
    var r := ValidateQuery(q);
    assert r.Err? && r.error.message == QueryTooShort;
  }

  lemma LongQueryRefused(s: string)
    requires Utf16Length(Trim(s)) >= 2 && Utf16Length(s) > 500
    ensures ValidateQuery(Some(JStr(s))) == Err(ValidationError(QueryTooLong, "query"))
  {
    var q := Some(JStr(s));
    assert Truthy(q) && IsString(q);
    var r := ValidateQuery(q);
    assert r.Err? && r.error.message == QueryTooLong;
  }

  /** The checks run in order: the first that fails names the message. */
  lemma QueryCheckOrder(s: string)
    ensures s == "" ==> ValidateQuery(Some(JStr(s))) == Err(ValidationError(QueryRequired, "query"))
    ensures s != "" && Utf16Length(Trim(s)) < 2 ==> ValidateQuery(Some(JStr(s))) == Err(ValidationError(QueryTooShort, "query"))
    ensures Utf16Length(Trim(s)) >= 2 && Utf16Length(s) > 500 ==> ValidateQuery(Some(JStr(s))) == Err(ValidationError(QueryTooLong, "query"))
  {
    if s != "" && Utf16Length(Trim(s)) < 2 {
      ShortQueryRefused(s);
    }
    if Utf16Length(Trim(s)) >= 2 && Utf16Length(s) > 500 {
      LongQueryRefused(s);
    }
  }

  /** A value that is not a string is refused whatever it holds. */
  lemma QueryMustBeString(query: Json)
    requires !query.JStr?
    ensures ValidateQuery(Some(query)) == Err(ValidationError(QueryRequired, "query"))
  {
  }

  predicate AllAngles(s: string) {
    forall k :: 0 <= k < |s| ==> IsAngle(s[k])
  }

  lemma {:induction false} StripAllAngles(s: string)
    requires AllAngles(s)
    ensures StripAngles(s) == []
  {
    if s != [] {
      assert AllAngles(s[1..]) by {
        forall k | 0 <= k < |s| - 1 ensures IsAngle(s[1..][k]) {
          assert s[1..][k] == s[k + 1];
        }
      }
      StripAllAngles(s[1..]);
    }
  }

  lemma SanitizeAllAngles(s: string)
    requires AllAngles(s)
    ensures Sanitize(s) == []
  {
    StripAllAngles(s);
    var t := StripAngles(s);
    assert TrimStart(t) == [];
  }

  /** Brackets are not whitespace, so `trim` leaves a string of them alone. */
  lemma TrimAllAngles(s: string)
    requires AllAngles(s) && s != []
    ensures Trim(s) == s
  {
    assert IsAngle(s[0]) && IsAngle(s[|s| - 1]);
    TrimOfNotPadded(s);
  }

  /** Brackets lie in the Basic Multilingual Plane: one UTF-16 unit each. */
  lemma AllAnglesUnits(s: string)
    requires AllAngles(s)
    ensures Utf16Length(s) == |s|
  {
    forall k | 0 <= k < |s| ensures s[k] as int <= 0xFFFF {
      assert IsAngle(s[k]);
    }
    Utf16LengthBmp(s);
  }

  lemma AllAnglesLength(s: string)
    requires AllAngles(s) && s != []
    ensures Utf16Length(Trim(s)) == |s| == Utf16Length(s)
  {
    TrimAllAngles(s);
    AllAnglesUnits(s);
  }

  /** Length is checked before stripping: a query such as "<>" passes and sanitises to "". */
  lemma AnglesOnlyQuery(s: string)
    requires AllAngles(s) && 2 <= |s| <= 500
    ensures ValidateQuery(Some(JStr(s))) == Ok("")
  {
    AllAnglesLength(s);
    SanitizeAllAngles(s);
    var r := ValidateQuery(Some(JStr(s)));
    assert r.Ok?;
    assert r.value == [];
  }

  /** `validateAndSanitize.location`: a falsy location is null, not an error. */
  function ValidateLocation(location: Option<Json>): (r: Result<Option<string>, ValidationError>)
    ensures r.Err? ==> r.error.field == "location"
    ensures !Truthy(location) ==> r == Ok(None)
    ensures Truthy(location) ==>
      (r.Ok? <==> IsString(location) && Utf16Length(location.value.s) <= 200)
    ensures Truthy(location) && r.Ok? ==> r.value == Some(Sanitize(location.value.s))
  {
    if !Truthy(location) then Ok(None)
    else if !IsString(location) then Err(ValidationError(LocationNotString, "location"))
    else if Utf16Length(location.value.s) > 200 then Err(ValidationError(LocationTooLong, "location"))
    else Ok(Some(Sanitize(location.value.s)))
  }

  /** Present and a string with something besides whitespace (`!x || typeof x !== 'string' || !x.trim()`). */
  predicate Filled(v: Option<Json>) {
    IsString(v) && Trim(v.value.s) != ""
  }

  /** `validateAndSanitize.originDestination`: origin first, then destination, then both lengths. */
  function ValidateOriginDestination(origin: Option<Json>, destination: Option<Json>): (r: Result<(string, string), ValidationError>)
    ensures !Filled(origin) ==> r == Err(ValidationError(OriginRequired, "origin"))
    ensures Filled(origin) && !Filled(destination) ==> r == Err(ValidationError(DestinationRequired, "destination"))
    ensures Filled(origin) && Filled(destination) ==>
      var o, d := origin.value.s, destination.value.s;
      if Utf16Length(o) > 200 || Utf16Length(d) > 200 then r == Err(ValidationError(EndpointsTooLong, "origin_destination"))
      else r == Ok((Sanitize(o), Sanitize(d)))
  {
    if !Filled(origin) then Err(ValidationError(OriginRequired, "origin"))
    else if !Filled(destination) then Err(ValidationError(DestinationRequired, "destination"))
    else if Utf16Length(origin.value.s) > 200 || Utf16Length(destination.value.s) > 200 then
      Err(ValidationError(EndpointsTooLong, "origin_destination"))
    else Ok((Sanitize(origin.value.s), Sanitize(destination.value.s)))
  }

  /** `validateAndSanitize.placeId`: trimmed only, angle brackets kept. */
  function ValidatePlaceId(placeId: Option<Json>): (r: Result<string, ValidationError>)
    ensures r.Err? ==> r.error.field == "placeId"
    ensures r.Ok? <==> Filled(placeId) && Utf16Length(placeId.value.s) <= 100
    ensures r.Ok? ==> r.value == Trim(placeId.value.s)
  {
    if !Filled(placeId) then Err(ValidationError(PlaceIdRequired, "placeId"))
    else if Utf16Length(placeId.value.s) > 100 then Err(ValidationError(PlaceIdTooLong, "placeId"))
    else Ok(Trim(placeId.value.s))
  }

  /** A place id that passes is only trimmed: its angle brackets survive, where sanitising would drop them. */
  lemma PlaceIdKeepsAngles(s: string)
    requires Trim(s) != [] && Utf16Length(s) <= 100
    ensures ValidatePlaceId(Some(JStr(s))) == Ok(Trim(s))
    ensures AnglesOf(ValidatePlaceId(Some(JStr(s))).value) == AnglesOf(Trim(s))
    ensures !NoAngles(Trim(s)) ==> ValidatePlaceId(Some(JStr(s))).value != Sanitize(s)
  {
    var r := ValidatePlaceId(Some(JStr(s)));
    assert r.Ok? && r.value == Trim(s);
    if !NoAngles(Trim(s)) {
      assert NoAngles(Sanitize(s));
    }
  }

  // ---------------------------------------------------------------------------
  // The middleware

  /** The 400 body of a refused request. */
  datatype ValidationBody = ValidationBody(error: string, message: string, field: string)

  const ValidationErrorTitle := "Validation Error"

  function Refuse(e: ValidationError): Gate<ValidationBody> {
    Answer(Response(400, ValidationBody(ValidationErrorTitle, e.message, e.field)))
  }

  /** `req.body`, rewritten in place. */
  class RequestBody {
    var fields: map<string, Json>

    constructor(fields: map<string, Json>)
      ensures this.fields == fields
    {
      this.fields := fields;
    }
  }

  function Field(fields: map<string, Json>, key: string): Option<Json> {
    if key in fields then Some(fields[key]) else None
  }

  /** A string value replaced by its sanitised text; anything else as it is. */
  function Sanitized(v: Option<Json>): (r: Option<Json>)
    ensures IsString(v) ==> r == Some(JStr(Sanitize(v.value.s)))
    ensures !IsString(v) ==> r == v
  {
    if IsString(v) then Some(JStr(Sanitize(v.value.s))) else v
  }

  /** Setting one key of the body leaves every other key as it was. */
  lemma SetLeavesOthers(fields: map<string, Json>, k: string, v: Json, key: string)
    requires key != k
    ensures Field(fields[k := v], key) == Field(fields, key)
  {
  }

  /** The first check: a truthy `query` is validated and replaced by its sanitised text. */
  function QueryStage(fields: map<string, Json>): (r: Result<map<string, Json>, ValidationError>)
    ensures r.Err? <==> Truthy(Field(fields, "query")) && ValidateQuery(Field(fields, "query")).Err?
    ensures r.Err? ==> r.error.field == "query"
    ensures r.Ok? && Truthy(Field(fields, "query")) ==>
      IsString(Field(fields, "query")) && Field(r.value, "query") == Sanitized(Field(fields, "query"))
    ensures r.Ok? && !Truthy(Field(fields, "query")) ==> r.value == fields
  {
    var query := Field(fields, "query");
    if !Truthy(query) then Ok(fields)
    else
      var q := ValidateQuery(query);
      if q.Err? then Err(q.error) else Ok(fields["query" := JStr(q.value)])
  }

  lemma QueryStageFrame(fields: map<string, Json>, key: string)
    requires QueryStage(fields).Ok? && key != "query"
    ensures Field(QueryStage(fields).value, key) == Field(fields, key)
  {
    var query := Field(fields, "query");
    if Truthy(query) {
      SetLeavesOthers(fields, "query", JStr(ValidateQuery(query).value), key);
    }
  }

  /** The second check: a truthy `location` is validated and replaced. */
  function LocationStage(fields: map<string, Json>): (r: Result<map<string, Json>, ValidationError>)
    ensures r.Err? <==> Truthy(Field(fields, "location")) && ValidateLocation(Field(fields, "location")).Err?
    ensures r.Err? ==> r.error.field == "location"
    ensures r.Ok? && Truthy(Field(fields, "location")) ==>
      IsString(Field(fields, "location")) && Field(r.value, "location") == Sanitized(Field(fields, "location"))
    ensures r.Ok? && !Truthy(Field(fields, "location")) ==> r.value == fields
  {
    var location := Field(fields, "location");
    if !Truthy(location) then Ok(fields)
    else
      var l := ValidateLocation(location);
      if l.Err? then Err(l.error)
      else Ok(fields["location" := if l.value.Some? then JStr(l.value.value) else JNull])
  }

  lemma LocationStageFrame(fields: map<string, Json>, key: string)
    requires LocationStage(fields).Ok? && key != "location"
    ensures Field(LocationStage(fields).value, key) == Field(fields, key)
  {
    var location := Field(fields, "location");
    if Truthy(location) {
      var l := ValidateLocation(location);
      SetLeavesOthers(fields, "location", if l.value.Some? then JStr(l.value.value) else JNull, key);
    }
  }

  /** The third check: if either endpoint is truthy, both are validated and replaced. */
  function EndpointStage(fields: map<string, Json>): (r: Result<map<string, Json>, ValidationError>)
    ensures var origin, destination := Field(fields, "origin"), Field(fields, "destination");
      r.Err? <==> (Truthy(origin) || Truthy(destination)) && ValidateOriginDestination(origin, destination).Err?
    ensures r.Ok? && (Truthy(Field(fields, "origin")) || Truthy(Field(fields, "destination"))) ==>
      && IsString(Field(fields, "origin")) && IsString(Field(fields, "destination"))
      && Field(r.value, "origin") == Sanitized(Field(fields, "origin"))
      && Field(r.value, "destination") == Sanitized(Field(fields, "destination"))
    ensures r.Ok? && !Truthy(Field(fields, "origin")) && !Truthy(Field(fields, "destination")) ==> r.value == fields
  {
    var origin, destination := Field(fields, "origin"), Field(fields, "destination");
    if !Truthy(origin) && !Truthy(destination) then Ok(fields)
    else
      var od := ValidateOriginDestination(origin, destination);
      if od.Err? then Err(od.error)
      else
        var withOrigin := fields["origin" := JStr(od.value.0)];
        SetLeavesOthers(withOrigin, "destination", JStr(od.value.1), "origin");
        Ok(withOrigin["destination" := JStr(od.value.1)])
  }

  lemma EndpointStageFrame(fields: map<string, Json>, key: string)
    requires EndpointStage(fields).Ok? && key != "origin" && key != "destination"
    ensures Field(EndpointStage(fields).value, key) == Field(fields, key)
  {
    var origin, destination := Field(fields, "origin"), Field(fields, "destination");
    if Truthy(origin) || Truthy(destination) {
      var od := ValidateOriginDestination(origin, destination);
      var withOrigin := fields["origin" := JStr(od.value.0)];
      SetLeavesOthers(fields, "origin", JStr(od.value.0), key);
      SetLeavesOthers(withOrigin, "destination", JStr(od.value.1), key);
    }
  }

  /**
   * The middleware's effect on a body, as a value: the gate and the body
   * afterwards. Fields are rewritten one check at a time, so a failure
   * leaves the rewrites made before it.
   */
  function CheckBody(fields: map<string, Json>): (Gate<ValidationBody>, map<string, Json>) {
    var s1 := QueryStage(fields);
    if s1.Err? then (Refuse(s1.error), fields)
    else
      var s2 := LocationStage(s1.value);
      if s2.Err? then (Refuse(s2.error), s1.value)
      else
        var s3 := EndpointStage(s2.value);
        if s3.Err? then (Refuse(s3.error), s2.value)
        else (Next, s3.value)
  }

  /** `validateRequestBody(req, res, next)`. */
  method ValidateRequestBody(body: RequestBody) returns (gate: Gate<ValidationBody>)
    modifies body
    ensures (gate, body.fields) == CheckBody(old(body.fields))
  {
    ghost var original := body.fields;
    ghost var s1 := QueryStage(original);
    var query := Field(body.fields, "query");
    if Truthy(query) {
      var q := ValidateQuery(query);
      if q.Err? {
        assert s1.Err? && s1.error == q.error;
        return Refuse(q.error);
      }
      body.fields := body.fields["query" := JStr(q.value)];
    }
    assert s1.Ok? && body.fields == s1.value;

    ghost var s2 := LocationStage(body.fields);
    var location := Field(body.fields, "location");
    if Truthy(location) {
      var l := ValidateLocation(location);
      if l.Err? {
        assert s2.Err? && s2.error == l.error;
        return Refuse(l.error);
      }
      body.fields := body.fields["location" := if l.value.Some? then JStr(l.value.value) else JNull];
    }
    assert s2.Ok? && body.fields == s2.value;

    ghost var s3 := EndpointStage(body.fields);
    var origin, destination := Field(body.fields, "origin"), Field(body.fields, "destination");
    if Truthy(origin) || Truthy(destination) {
      var od := ValidateOriginDestination(origin, destination);
      if od.Err? {
        assert s3.Err? && s3.error == od.error;
        return Refuse(od.error);
      }
      body.fields := body.fields["origin" := JStr(od.value.0)];
      body.fields := body.fields["destination" := JStr(od.value.1)];
    }
    assert s3.Ok? && body.fields == s3.value;
    gate := Next;
  }

  /** Keys other than the four checked ones are never touched. */
  lemma CheckBodyFrames(fields: map<string, Json>, key: string)
    requires key != "query" && key != "location" && key != "origin" && key != "destination"
    ensures Field(CheckBody(fields).1, key) == Field(fields, key)
  {
    var s1 := QueryStage(fields);
    if s1.Ok? {
      QueryStageFrame(fields, key);
      var s2 := LocationStage(s1.value);
      if s2.Ok? {
        LocationStageFrame(s1.value, key);
        if EndpointStage(s2.value).Ok? {
          EndpointStageFrame(s2.value, key);
        }
      }
    }
  }

  /** A body that passes holds sanitised text in every field that was truthy, and the rest as it was. */
  lemma PassedBodyIsSanitized(fields: map<string, Json>)
    requires CheckBody(fields).0 == Next
    ensures var after, query, location := CheckBody(fields).1, Field(fields, "query"), Field(fields, "location");
      && (Truthy(query) ==> IsString(query) && Field(after, "query") == Some(JStr(Sanitize(query.value.s))))
      && (!Truthy(query) ==> Field(after, "query") == query)
      && (Truthy(location) ==> IsString(location) && Field(after, "location") == Some(JStr(Sanitize(location.value.s))))
      && (!Truthy(location) ==> Field(after, "location") == location)
    ensures var after, origin, destination := CheckBody(fields).1, Field(fields, "origin"), Field(fields, "destination");
      && (Truthy(origin) || Truthy(destination) ==>
            && IsString(origin) && Field(after, "origin") == Some(JStr(Sanitize(origin.value.s)))
            && IsString(destination) && Field(after, "destination") == Some(JStr(Sanitize(destination.value.s))))
      && (!Truthy(origin) && !Truthy(destination) ==>
            Field(after, "origin") == origin && Field(after, "destination") == destination)
  {
    var s1 := QueryStage(fields);
    var s2 := LocationStage(s1.value);
    var s3 := EndpointStage(s2.value);
    assert CheckBody(fields).1 == s3.value;
    LocationStageFrame(s1.value, "query");
    EndpointStageFrame(s2.value, "query");
    QueryStageFrame(fields, "location");
    EndpointStageFrame(s2.value, "location");
    QueryStageFrame(fields, "origin");
    LocationStageFrame(s1.value, "origin");
    QueryStageFrame(fields, "destination");
    LocationStageFrame(s1.value, "destination");
  }

  /** A refused body is answered with 400 and the failing validator's message and field. */
  lemma RefusedBodyIs400(fields: map<string, Json>)
    requires CheckBody(fields).0.Answer?
    ensures var r := CheckBody(fields).0.response;
      && r.status == 400 && r.body.error == ValidationErrorTitle
      && r.body.field in {"query", "location", "origin", "destination", "origin_destination"}
  {
    var s1 := QueryStage(fields);
    if s1.Ok? {
      var s2 := LocationStage(s1.value);
      if s2.Ok? {
        var s3 := EndpointStage(s2.value);
        var origin, destination := Field(s2.value, "origin"), Field(s2.value, "destination");
        var od := ValidateOriginDestination(origin, destination);
        assert od.Err? ==> od.error.field in {"origin", "destination", "origin_destination"};
      }
    }
  }
}
