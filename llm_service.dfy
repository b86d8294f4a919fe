/**
 * The intent resolver (src/services/llmService.js): a remote classifier
 * behind an availability probe, the extraction of its reply, and the
 * keyword-table fallback used whenever the classifier is unavailable or its
 * reply is unusable. Network outcomes are inputs; JSON.parse and
 * JSON.stringify are supplied as a codec.
 */
module LlmService {
  import opened Wrappers
  import opened JsStrings
  import opened JsValues

  datatype Category = Restaurant | Cafe | Park | Museum | Hotel | Shopping | PointOfInterest {
    function Name(): string {
      match this
      case Restaurant => "restaurant"
      case Cafe => "cafe"
      case Park => "park"
      case Museum => "museum"
      case Hotel => "hotel"
      case Shopping => "shopping"
      case PointOfInterest => "point_of_interest"
    }
  }

  /** The fallback's category table, in the order it is scanned. */
  const CategoryTable: seq<(Category, seq<string>)> := [
    (Restaurant, ["restaurant", "eat", "food", "dinner", "lunch", "breakfast", "makan", "restoran", "warung", "kuliner"]),
    (Cafe, ["cafe", "coffee", "tea", "kopi", "kafe", "kedai", "warkop"]),
    (Park, ["park", "outdoor", "nature", "taman", "alam", "rekreasi"]),
    (Museum, ["museum", "gallery", "art", "galeri", "seni", "sejarah"]),
    (Hotel, ["hotel", "stay", "accommodation", "penginapan", "hotel"]),
    (Shopping, ["shop", "mall", "buy", "shopping", "belanja", "pusat perbelanjaan", "toko"])
  ]

  /** The fallback's gazetteer, in the order it is scanned. */
  const Gazetteer: seq<string> := [
    "jakarta", "bali", "bandung", "surabaya", "yogyakarta", "medan", "semarang",
    "manhattan", "new york", "london", "paris", "tokyo"
  ]

  /**
   * What the resolver hands to the controller: either the object parsed
   * from the classifier's reply, passed on without validation, or the
   * fallback's record.
   */
  datatype Analysis =
    | Classified(fields: JsonObject)
    | Keyword(category: Category, location: Option<string>, query: string)
  {
    /** The analysis as the JSON object the controller reads and echoes. */
    function Fields(): JsonObject {
      match this
      case Classified(f) => f
      case Keyword(c, loc, q) =>
        map[
          "intent" := JStr("search_places"),
          "category" := JStr(c.Name()),
          "location" := (if loc.Some? then JStr(loc.value) else JNull),
          "query" := JStr(q),
          "suggestions" := JArr([])
        ]
    }

    /** Property read on the analysis (`llmResult.<name>`). */
    function Get(name: string): Option<Json> {
      if name in Fields() then Some(Fields()[name]) else None
    }
  }

  // ---------------------------------------------------------------------------
  // Fallback classification

  /** `keywords.some(keyword => text.includes(keyword))`. */
  predicate AnyIncluded(text: string, keywords: seq<string>) {
    exists w :: w in keywords && Includes(text, w)
  }

  /** The first table row, from `from` on, with a keyword that occurs in `text`; |CategoryTable| if none. */
  function FirstCategoryRow(text: string, from: nat): (i: nat)
    requires from <= |CategoryTable|
    ensures from <= i <= |CategoryTable|
    ensures i < |CategoryTable| ==> AnyIncluded(text, CategoryTable[i].1)
    ensures forall j :: from <= j < i ==> !AnyIncluded(text, CategoryTable[j].1)
    decreases |CategoryTable| - from
  {
    if from == |CategoryTable| then from
    else if AnyIncluded(text, CategoryTable[from].1) then from
    else FirstCategoryRow(text, from + 1)
  }

  /** The first gazetteer index, from `from` on, whose name occurs in `text`; |Gazetteer| if none. */
  function FirstPlaceIndex(text: string, from: nat): (i: nat)
    requires from <= |Gazetteer|
    ensures from <= i <= |Gazetteer|
    ensures i < |Gazetteer| ==> Includes(text, Gazetteer[i])
    ensures forall j :: from <= j < i ==> !Includes(text, Gazetteer[j])
    decreases |Gazetteer| - from
  {
    if from == |Gazetteer| then from
    else if Includes(text, Gazetteer[from]) then from
    else FirstPlaceIndex(text, from + 1)
  }

  /** A row that matches, after rows that all miss, is the first matching row. */
  lemma FirstCategoryRowIs(text: string, i: nat)
    requires i <= |CategoryTable| && (i < |CategoryTable| ==> AnyIncluded(text, CategoryTable[i].1))
    requires forall j :: 0 <= j < i ==> !AnyIncluded(text, CategoryTable[j].1)
    ensures FirstCategoryRow(text, 0) == i
  {
    var r := FirstCategoryRow(text, 0);
    assert !(r < i) && !(i < r);
  }

  /** An entry that occurs, after entries that all miss, is the first occurring entry. */
  lemma FirstPlaceIndexIs(text: string, i: nat)
    requires i <= |Gazetteer| && (i < |Gazetteer| ==> Includes(text, Gazetteer[i]))
    requires forall j :: 0 <= j < i ==> !Includes(text, Gazetteer[j])
    ensures FirstPlaceIndex(text, 0) == i
  {
    var r := FirstPlaceIndex(text, 0);
    assert !(r < i) && !(i < r);
  }

  function DetectCategory(lowerQuery: string): Category {
    var i := FirstCategoryRow(lowerQuery, 0);
    if i < |CategoryTable| then CategoryTable[i].0 else PointOfInterest
  }

  function DetectLocation(lowerQuery: string): Option<string> {
    var i := FirstPlaceIndex(lowerQuery, 0);
    if i < |Gazetteer| then Some(Gazetteer[i]) else None
  }

  /** The fallback classification of a string query, as a value. */
  function Classify(userQuery: string): Analysis {
    var lowerQuery := ToLower(userQuery);
    Keyword(DetectCategory(lowerQuery), DetectLocation(lowerQuery), userQuery)
  }

  /** `fallbackParse(userQuery)`: two first-match scans over the lower-cased query. */
  method FallbackParse(userQuery: string) returns (r: Analysis)
    ensures r == Classify(userQuery)
  {
    var lowerQuery := ToLower(userQuery);
    var detectedCategory := ScanCategories(lowerQuery);
    var detectedLocation := ScanGazetteer(lowerQuery);
    r := Keyword(detectedCategory, detectedLocation, userQuery);
  }

  /** The category loop of `fallbackParse`: the first row with an occurring keyword wins. */
  method ScanCategories(lowerQuery: string) returns (detectedCategory: Category)
    ensures detectedCategory == DetectCategory(lowerQuery)
  {
    detectedCategory := PointOfInterest;
    var i := 0;
    while i < |CategoryTable|
      invariant 0 <= i <= |CategoryTable|
      invariant forall j :: 0 <= j < i ==> !AnyIncluded(lowerQuery, CategoryTable[j].1)
      invariant detectedCategory == PointOfInterest
    {
      if AnyIncluded(lowerQuery, CategoryTable[i].1) {
        detectedCategory := CategoryTable[i].0;
        break;
      }
      i := i + 1;
    }
    FirstCategoryRowIs(lowerQuery, i);
  }

  /** The location loop of `fallbackParse`: the first gazetteer entry that occurs wins. */
  method ScanGazetteer(lowerQuery: string) returns (detectedLocation: Option<string>)
    ensures detectedLocation == DetectLocation(lowerQuery)
  {
    detectedLocation := None;
    var k := 0;
    while k < |Gazetteer|
      invariant 0 <= k <= |Gazetteer|
      invariant forall j :: 0 <= j < k ==> !Includes(lowerQuery, Gazetteer[j])
      invariant detectedLocation == None
    {
      if Includes(lowerQuery, Gazetteer[k]) {
        detectedLocation := Some(Gazetteer[k]);
        break;
      }
      k := k + 1;
    }
    FirstPlaceIndexIs(lowerQuery, k);
  }

  /** The fallback always reports a place search for the query as given, with no suggestions. */
  lemma FallbackShape(userQuery: string)
    ensures Classify(userQuery).Get("intent") == Some(JStr("search_places"))
    ensures Classify(userQuery).Get("query") == Some(JStr(userQuery))
    ensures Classify(userQuery).Get("suggestions") == Some(JArr([]))
  {
  }

  /** The category is the first one in table order with an occurring keyword, else point_of_interest. */
  lemma FallbackCategoryIsFirstMatch(userQuery: string)
    ensures var lower, c := ToLower(userQuery), Classify(userQuery).category;
      && (c == PointOfInterest <==> forall j :: 0 <= j < |CategoryTable| ==> !AnyIncluded(lower, CategoryTable[j].1))
      && (c != PointOfInterest ==>
            exists j :: 0 <= j < |CategoryTable| && CategoryTable[j].0 == c && AnyIncluded(lower, CategoryTable[j].1)
                        && forall j' :: 0 <= j' < j ==> !AnyIncluded(lower, CategoryTable[j'].1))
  {
    var lower := ToLower(userQuery);
    var c := Classify(userQuery).category;
    var i := FirstCategoryRow(lower, 0);
    assert c == DetectCategory(lower);
    if i < |CategoryTable| {
      RowsNameCategories(i);
      assert c == CategoryTable[i].0 != PointOfInterest;
    } else {
      assert c == PointOfInterest;
    }
  }

  /** Every row of the table names a category other than the default. */
  lemma RowsNameCategories(i: nat)
    requires i < |CategoryTable|
    ensures CategoryTable[i].0 != PointOfInterest
  {
  }

  /** The location is the first gazetteer entry that occurs in the lower-cased query, else null. */
  lemma FallbackLocationIsFirstMatch(userQuery: string)
    ensures var lower, loc := ToLower(userQuery), Classify(userQuery).location;
      && (loc == None <==> forall j :: 0 <= j < |Gazetteer| ==> !Includes(lower, Gazetteer[j]))
      && (loc.Some? ==>
            exists j :: 0 <= j < |Gazetteer| && Gazetteer[j] == loc.value && Includes(lower, Gazetteer[j])
                        && forall j' :: 0 <= j' < j ==> !Includes(lower, Gazetteer[j']))
  {
  }

  /** A query whose lower-cased form holds keyword `w` of row `i`, and no keyword of an earlier row, gets row `i`'s category. */
  lemma KeywordSelectsCategory(lower: string, i: nat, w: string, at: nat)
    requires i < |CategoryTable| && w in CategoryTable[i].1 && OccursAt(lower, w, at)
    requires forall j :: 0 <= j < i ==> !AnyIncluded(lower, CategoryTable[j].1)
    ensures DetectCategory(lower) == CategoryTable[i].0
  {
    IncludesIffOccurs(lower, w);
    FirstCategoryRowIs(lower, i);
  }

  /** A query whose lower-cased form holds gazetteer entry `i`, and no earlier entry, gets that location. */
  lemma PlaceSelectsLocation(lower: string, i: nat, at: nat)
    requires i < |Gazetteer| && OccursAt(lower, Gazetteer[i], at)
    requires forall j :: 0 <= j < i ==> !Includes(lower, Gazetteer[j])
    ensures DetectLocation(lower) == Some(Gazetteer[i])
  {
    IncludesIffOccurs(lower, Gazetteer[i]);
    FirstPlaceIndexIs(lower, i);
  }

  lemma LowerPizzaQuery()
    ensures ToLower("I want to eat pizza") == "i want to eat pizza"
  {
    ToLowerPointwise("I want to eat pizza", "i want to eat pizza");
  }

  lemma PizzaCategory()
    ensures DetectCategory("i want to eat pizza") == Restaurant
  {
    KeywordSelectsCategory("i want to eat pizza", 0, "eat", 10);
  }

  lemma PizzaIsRestaurant()
    ensures Classify("I want to eat pizza").category == Restaurant
  {
    LowerPizzaQuery();
    PizzaCategory();
  }

  lemma GreatMuseumCategory()
    ensures DetectCategory("great museum") == Restaurant
  {
    KeywordSelectsCategory("great museum", 0, "eat", 2);
  }

  /** Keywords match as substrings: the "eat" in "great" makes this a restaurant search. */
  lemma SubstringKeywordWins()
    ensures Classify("great museum").category == Restaurant
  {
    ToLowerPointwise("great museum", "great museum");
    GreatMuseumCategory();
  }

  lemma LowerNewYorkQuery()
    ensures ToLower("Find restaurants in New York") == "find restaurants in new york"
  {
    ToLowerPointwise("Find restaurants in New York", "find restaurants in new york");
  }

  lemma NewYorkCategory()
    ensures DetectCategory("find restaurants in new york") == Restaurant
  {
    var lower := "find restaurants in new york";
    assert lower == "find " + "restaurant" + "s in new york";
    assert lower[5..15] == "restaurant";
    KeywordSelectsCategory(lower, 0, "restaurant", 5);
  }

  /** None of the first four gazetteer entries occurs in the lower-cased New York query. */
  lemma NewYorkSkipsFirstFour()
    ensures forall j :: 0 <= j < 4 ==> !Includes("find restaurants in new york", Gazetteer[j])
  {
    var lower := "find restaurants in new york";
    forall j | 0 <= j < 4
      ensures !Includes(lower, Gazetteer[j])
    {
      if j == 0 {
        AbsentCharExcludes(lower, Gazetteer[j], 'j');
      } else {
        AbsentCharExcludes(lower, Gazetteer[j], 'b');
      }
    }
  }

  /** Nor does any of the next four. */
  lemma NewYorkSkipsNextFour()
    ensures forall j :: 4 <= j < 8 ==> !Includes("find restaurants in new york", Gazetteer[j])
  {
    var lower := "find restaurants in new york";
    forall j | 4 <= j < 8
      ensures !Includes(lower, Gazetteer[j])
    {
      if j == 4 {
        AbsentCharExcludes(lower, Gazetteer[j], 'g');
      } else {
        AbsentCharExcludes(lower, Gazetteer[j], 'm');
      }
    }
  }

  lemma NewYorkLocation()
    ensures DetectLocation("find restaurants in new york") == Some("new york")
  {
    NewYorkSkipsFirstFour();
    NewYorkSkipsNextFour();
    PlaceSelectsLocation("find restaurants in new york", 8, 20);
  }

  lemma NewYorkIsDetected()
    ensures Classify("Find restaurants in New York")
         == Keyword(Restaurant, Some("new york"), "Find restaurants in New York")
  {
    LowerNewYorkQuery();
    NewYorkCategory();
    NewYorkLocation();
  }

  /** `fallbackParse` applied to an arbitrary JavaScript value: `toLowerCase` throws unless it is a string. */
  function FallbackValue(v: Json): (r: Option<Analysis>)
    ensures r.Some? <==> v.JStr?
    ensures v.JStr? ==> r == Some(Classify(v.s))
  {
    if v.JStr? then Some(Classify(v.s)) else None
  }

  // ---------------------------------------------------------------------------
  // The greedy JSON span `/\{[\s\S]*\}/`

  /** `s[i..j]` is a match of the pattern: it opens with '{' and closes with '}'. */
  predicate IsBraceMatch(s: string, i: int, j: int) {
    0 <= i && i + 2 <= j <= |s| && s[i] == '{' && s[j - 1] == '}'
  }

  datatype Span = Span(start: nat, end: nat)

  function FirstIndexOf(s: string, c: char): (r: Option<nat>)
    ensures r.Some? ==> r.value < |s| && s[r.value] == c && forall k :: 0 <= k < r.value ==> s[k] != c
    ensures r.None? ==> forall k :: 0 <= k < |s| ==> s[k] != c
  {
    if s == [] then None
    else if s[0] == c then Some(0)
    else
      var rest := FirstIndexOf(s[1..], c);
      if rest.None? then None else Some(rest.value + 1)
  }

  function LastIndexOf(s: string, c: char): (r: Option<nat>)
    ensures r.Some? ==> r.value < |s| && s[r.value] == c && forall k :: r.value < k < |s| ==> s[k] != c
    ensures r.None? ==> forall k :: 0 <= k < |s| ==> s[k] != c
  {
    if s == [] then None
    else if s[|s| - 1] == c then Some(|s| - 1)
    else LastIndexOf(s[..|s| - 1], c)
  }

  /**
   * The span `content.match(/\{[\s\S]*\}/)` selects: from the first '{' to
   * the last '}'. It is the leftmost match and, among matches, the longest.
   */
  function JsonSpan(s: string): (r: Option<Span>)
    ensures r.None? <==> !exists i, j :: IsBraceMatch(s, i, j)
    ensures r.Some? ==> IsBraceMatch(s, r.value.start, r.value.end)
    ensures r.Some? ==> forall i, j :: IsBraceMatch(s, i, j) ==> r.value.start <= i && j <= r.value.end
  {
    var open, close := FirstIndexOf(s, '{'), LastIndexOf(s, '}');
    if open.Some? && close.Some? && open.value < close.value then
      var r := Span(open.value, close.value + 1);
      assert IsBraceMatch(s, r.start, r.end);
      Some(r)
    else
      None
  }

  /** A span exists exactly when some '{' comes before some '}'. */
  lemma JsonSpanExists(s: string)
    ensures JsonSpan(s).Some? <==> exists i, j :: 0 <= i < j < |s| && s[i] == '{' && s[j] == '}'
  {
    if exists i, j :: 0 <= i < j < |s| && s[i] == '{' && s[j] == '}' {
      var i, j :| 0 <= i < j < |s| && s[i] == '{' && s[j] == '}';
      assert IsBraceMatch(s, i, j + 1);
    }
  }

  // ---------------------------------------------------------------------------
  // Reading the classifier's reply

  /** JSON.parse (on a `{...}` span, so the result is an object) and JSON.stringify. */
  datatype JsonCodec = JsonCodec(parse: string -> Option<JsonObject>, stringify: Json -> string)

  /** The answer text of a reply payload, checked along three paths in order. */
  function ExtractContent(payload: Json, stringify: Json -> string): Option<Json> {
    var choices := Prop(payload, "choices");
    var first := if Truthy(choices) then Index0(choices.value) else None;
    var message := if Truthy(first) then Prop(first.value, "message") else None;
    if Truthy(message) then Prop(message.value, "content")
    else
      var direct := Prop(payload, "message");
      var directContent := if Truthy(direct) then Prop(direct.value, "content") else None;
      if Truthy(directContent) then directContent
      else if Truthy(Prop(payload, "content")) then Prop(payload, "content")
      else Some(JStr(stringify(payload)))
  }

  /** The known places an answer may sit, as an ordered strategy chain. */
  datatype ContentPath = ChoicesMessageContent | MessageContent | DirectContent

  const ExtractionOrder: seq<ContentPath> := [ChoicesMessageContent, MessageContent, DirectContent]

  /** Whether a path is taken for this payload. */
  predicate PathApplies(p: ContentPath, payload: Json) {
    match p
    case ChoicesMessageContent =>
      var choices := Prop(payload, "choices");
      Truthy(choices) && Truthy(Index0(choices.value))
      && Truthy(Prop(Index0(choices.value).value, "message"))
    case MessageContent =>
      var m := Prop(payload, "message");
      Truthy(m) && Truthy(Prop(m.value, "content"))
    case DirectContent => Truthy(Prop(payload, "content"))
  }

  /** What a taken path yields (for the first path the content may be anything, even undefined). */
  function PathContent(p: ContentPath, payload: Json): Option<Json>
    requires PathApplies(p, payload)
  {
    match p
    case ChoicesMessageContent =>
      Prop(Prop(Index0(Prop(payload, "choices").value).value, "message").value, "content")
    case MessageContent => Prop(Prop(payload, "message").value, "content")
    case DirectContent => Prop(payload, "content")
  }

  /** Content extraction follows the first path in order that applies, else stringifies the payload. */
  lemma ExtractionFollowsOrder(payload: Json, stringify: Json -> string)
    ensures forall i :: 0 <= i < |ExtractionOrder| && PathApplies(ExtractionOrder[i], payload)
                        && (forall j :: 0 <= j < i ==> !PathApplies(ExtractionOrder[j], payload))
                        ==> ExtractContent(payload, stringify) == PathContent(ExtractionOrder[i], payload)
    ensures (forall i :: 0 <= i < |ExtractionOrder| ==> !PathApplies(ExtractionOrder[i], payload))
            ==> ExtractContent(payload, stringify) == Some(JStr(stringify(payload)))
  {
    assert ExtractionOrder[0] == ChoicesMessageContent;
    assert ExtractionOrder[1] == MessageContent;
    assert ExtractionOrder[2] == DirectContent;
  }

  /**
   * `parseLLMResponse(payload)`; None when it throws. A payload that is not a
   * string makes the inner catch's `fallbackParse(llmResponse)` throw as well.
   */
  function ParseLlmResponse(payload: Json, codec: JsonCodec): (r: Option<Analysis>)
    ensures r.None? <==> !payload.JStr? && (!HasTextContent(payload, codec) || SpanUnparsable(payload, codec))
    ensures payload.JStr? && (!HasTextContent(payload, codec) || SpanUnparsable(payload, codec)) ==>
      r == Some(Classify(payload.s))
  {
    if payload.JNull? then FallbackValue(payload)
    else
      var content := ExtractContent(payload, codec.stringify);
      if !IsString(content) then FallbackValue(payload)
      else
        var text := content.value.s;
        var span := JsonSpan(text);
        if span.None? then Some(Classify(text))
        else
          var parsed := codec.parse(text[span.value.start..span.value.end]);
          if parsed.Some? then Some(Classified(parsed.value)) else FallbackValue(payload)
  }

  /** The answer text, when extraction yields a string. */
  predicate HasTextContent(payload: Json, codec: JsonCodec) {
    !payload.JNull? && IsString(ExtractContent(payload, codec.stringify))
  }

  /** The answer text holds a brace span that the codec does not accept, so `JSON.parse` throws. */
  predicate SpanUnparsable(payload: Json, codec: JsonCodec)
    requires HasTextContent(payload, codec)
  {
    var text := ExtractContent(payload, codec.stringify).value.s;
    var span := JsonSpan(text);
    span.Some? && codec.parse(text[span.value.start..span.value.end]).None?
  }

  /** A reply whose text holds a span that parses is returned as the parsed object, unvalidated. */
  lemma ParsedSpanIsReturned(payload: Json, codec: JsonCodec)
    requires HasTextContent(payload, codec)
    requires var text := ExtractContent(payload, codec.stringify).value.s;
      JsonSpan(text).Some? && codec.parse(text[JsonSpan(text).value.start..JsonSpan(text).value.end]).Some?
    ensures var text := ExtractContent(payload, codec.stringify).value.s;
      ParseLlmResponse(payload, codec)
        == Some(Classified(codec.parse(text[JsonSpan(text).value.start..JsonSpan(text).value.end]).value))
  {
  }

  /** Without a span the fallback classifies the extracted text, not the user's query. */
  lemma NoSpanClassifiesContent(payload: Json, codec: JsonCodec)
    requires HasTextContent(payload, codec)
    requires JsonSpan(ExtractContent(payload, codec.stringify).value.s).None?
    ensures ParseLlmResponse(payload, codec) == Some(Classify(ExtractContent(payload, codec.stringify).value.s))
  {
  }

  // ---------------------------------------------------------------------------
  // processQuery

  /** What the classifier POST came back with. */
  datatype PostOutcome = PostFailed | PostReplied(data: Json)

  /** The TypeError that escapes `processQuery` when the fallback is applied to a query that is neither a string nor null. */
  const NotAStringError := "userQuery.toLowerCase is not a function"
  /** The TypeError that escapes `processQuery` when the fallback is applied to a null query. */
  const NullQueryError := "Cannot read properties of null (reading 'toLowerCase')"

  /**
   * The result of `processQuery` (Err = the promise rejects) and the user
   * message it posted to the classifier, if it posted at all.
   */
  datatype QueryRun = QueryRun(result: Result<Analysis, string>, posted: Option<Json>)

  function FallbackOutcome(userQuery: Json): Result<Analysis, string> {
    var f := FallbackValue(userQuery);
    if f.Some? then Ok(f.value)
    else if userQuery.JNull? then Err(NullQueryError)
    else Err(NotAStringError)
  }

  /** `processQuery(userQuery)` given the probe's verdict and the POST's outcome. */
  function ProcessQuery(userQuery: Json, probeOk: bool, post: PostOutcome, codec: JsonCodec): QueryRun {
    if !probeOk then QueryRun(FallbackOutcome(userQuery), None)
    else
      var parsed := if post.PostReplied? then ParseLlmResponse(post.data, codec) else None;
      QueryRun(if parsed.Some? then Ok(parsed.value) else FallbackOutcome(userQuery), Some(userQuery))
  }

  /** An unavailable classifier is never called and the fallback classifies the query. */
  lemma ProbeDownUsesFallback(userQuery: string, post: PostOutcome, codec: JsonCodec)
    ensures ProcessQuery(JStr(userQuery), false, post, codec) == QueryRun(Ok(Classify(userQuery)), None)
  {
  }

  /** A failed POST, or a reply that cannot be used, ends in the fallback on the user's query. */
  lemma FailureUsesFallback(userQuery: string, post: PostOutcome, codec: JsonCodec)
    requires post.PostFailed? || ParseLlmResponse(post.data, codec).None?
    ensures ProcessQuery(JStr(userQuery), true, post, codec).result == Ok(Classify(userQuery))
  {
  }

  /** `processQuery` never rejects for a string query. */
  lemma ProcessQueryTotalOnStrings(userQuery: string, probeOk: bool, post: PostOutcome, codec: JsonCodec)
    ensures ProcessQuery(JStr(userQuery), probeOk, post, codec).result.Ok?
  {
  }

  /** It rejects only for a non-string query whose classifier reply was not usable. */
  lemma ProcessQueryRejects(userQuery: Json, probeOk: bool, post: PostOutcome, codec: JsonCodec)
    ensures var run := ProcessQuery(userQuery, probeOk, post, codec);
      run.result.Err? <==>
        !userQuery.JStr? && !(probeOk && post.PostReplied? && ParseLlmResponse(post.data, codec).Some?)
    ensures var run := ProcessQuery(userQuery, probeOk, post, codec);
      run.result.Err? ==> run.result.error == (if userQuery.JNull? then NullQueryError else NotAStringError)
  {
  }

  /**
   * A reply that is not a string and whose parse throws (no usable answer text, or a span
   * `JSON.parse` rejects) makes the inner catch throw in turn, so `processQuery` ends in the
   * fallback on the user's own query.
   */
  lemma UnparsableReplyFallsBack(userQuery: Json, data: Json, codec: JsonCodec)
    requires !data.JStr? && (!HasTextContent(data, codec) || SpanUnparsable(data, codec))
    ensures ProcessQuery(userQuery, true, PostReplied(data), codec) == QueryRun(FallbackOutcome(userQuery), Some(userQuery))
  {
    assert ParseLlmResponse(data, codec).None?;
  }

  /** A string reply is always classified: the fallback on the reply's own text when its parse throws. */
  lemma StringReplyIsClassified(userQuery: Json, data: string, codec: JsonCodec)
    requires !HasTextContent(JStr(data), codec) || SpanUnparsable(JStr(data), codec)
    ensures ProcessQuery(userQuery, true, PostReplied(JStr(data)), codec) == QueryRun(Ok(Classify(data)), Some(userQuery))
  {
    assert ParseLlmResponse(JStr(data), codec) == Some(Classify(data));
  }

  /** The request is posted with the user's query exactly when the probe succeeded. */
  lemma PostedIffProbeOk(userQuery: Json, probeOk: bool, post: PostOutcome, codec: JsonCodec)
    ensures ProcessQuery(userQuery, probeOk, post, codec).posted == (if probeOk then Some(userQuery) else None)
  {
  }
}
