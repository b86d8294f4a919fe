/**
 * JavaScript values as they reach the core: request bodies, classifier
 * payloads and provider replies are JSON. `undefined` (a missing property) is
 * `None`. JSON numbers are modelled as integers.
 */
module JsValues {
  import opened Wrappers
  import opened JsStrings

  datatype Json =
    | JNull
    | JBool(b: bool)
    | JNum(n: int)
    | JStr(s: string)
    | JArr(items: seq<Json>)
    | JObj(fields: map<string, Json>)

  type JsonObject = map<string, Json>

  /** JavaScript truthiness of a possibly-undefined value. */
  predicate Truthy(v: Option<Json>) {
    match v
    case None => false
    case Some(JNull) => false
    case Some(JBool(b)) => b
    case Some(JNum(n)) => n != 0
    case Some(JStr(s)) => s != ""
    case Some(_) => true
  }

  /** The string held by a value, if it is `typeof 'string'`. */
  predicate IsString(v: Option<Json>) {
    v.Some? && v.value.JStr?
  }

  /** Reading a named property of a non-null value: only objects carry the names the core reads. */
  function Prop(v: Json, key: string): (r: Option<Json>)
    ensures r.Some? <==> v.JObj? && key in v.fields
  {
    if v.JObj? && key in v.fields then Some(v.fields[key]) else None
  }

  /** Reading `v[0]`: the first array element, the object property "0", or the first character. */
  function Index0(v: Json): Option<Json> {
    match v
    case JArr(items) => if items == [] then None else Some(items[0])
    case JObj(_) => Prop(v, "0")
    case JStr(s) => if s == [] then None else Some(JStr(s[..1]))
    case _ => None
  }

  function DigitChar(d: nat): (c: char)
    requires d < 10
    ensures IsDigit(c)
  {
    ('0' as int + d) as char
  }

  /** Decimal digits of a natural number, most significant first. */
  function NatToString(n: nat): (r: string)
    ensures |r| > 0
    ensures AllDigits(r)
    decreases n
  {
    if n < 10 then [DigitChar(n)] else NatToString(n / 10) + [DigitChar(n % 10)]
  }

  /** `String(n)` for an integral number. */
  function IntToString(n: int): string {
    if n < 0 then "-" + NatToString(-n) else NatToString(n)
  }

  /** `String(v)`, as template literals and `Array.prototype.join` apply it. */
  function Render(v: Json): string
    decreases v, 1
  {
    match v
    case JNull => "null"
    case JBool(b) => if b then "true" else "false"
    case JNum(n) => IntToString(n)
    case JStr(s) => s
    case JArr(items) => RenderItems(items, v)
    case JObj(_) => "[object Object]"
  }

  /** `items.join(',')`, where null elements render as "". */
  function RenderItems(items: seq<Json>, ghost parent: Json): string
    requires forall k :: 0 <= k < |items| ==> items[k] < parent
    decreases parent, 0, |items|
  {
    if items == [] then ""
    else
      var head := if items[0].JNull? then "" else Render(items[0]);
      if |items| == 1 then head else head + "," + RenderItems(items[1..], parent)
  }

  /** `${v}` for a possibly-undefined value. */
  function RenderOpt(v: Option<Json>): string {
    if v.None? then "undefined" else Render(v.value)
  }

  /** A JavaScript number restricted to integers, plus NaN. */
  datatype JsNumber = NaN | Finite(value: int)

  predicate IsDigit(c: char) {
    '0' <= c <= '9'
  }

  predicate AllDigits(s: string) {
    forall k :: 0 <= k < |s| ==> IsDigit(s[k])
  }

  /** `s[lo..hi]` is a run of decimal digits. */
  predicate DigitsBetween(s: string, lo: nat, hi: nat)
    requires lo <= hi <= |s|
  {
    forall k :: lo <= k < hi ==> IsDigit(s[k])
  }

  /** The value of the decimal digits `s[lo..hi]`, most significant first. */
  function DigitsValue(s: string, lo: nat, hi: nat): int
    requires lo <= hi <= |s|
    decreases hi
  {
    if hi == lo then 0 else 10 * DigitsValue(s, lo, hi - 1) + (s[hi - 1] as int - '0' as int)
  }

  /** `Number(s)` for the literals an optionally signed run of decimal digits can spell. */
  function StringToNumber(s: string): (r: JsNumber)
    ensures AllWhitespace(s) ==> r == Finite(0)
  {
    var t := Trim(s);
    TrimEmpty(s);
    if t == [] then Finite(0)
    else if (t[0] == '-' || t[0] == '+') && |t| > 1 && DigitsBetween(t, 1, |t|) then
      var d := DigitsValue(t, 1, |t|);
      Finite(if t[0] == '-' then -d else d)
    else if DigitsBetween(t, 0, |t|) then Finite(DigitsValue(t, 0, |t|))
    else NaN
  }

  /** `Number(v)`: objects and arrays go through their string form. */
  function ToNumber(v: Json): JsNumber {
    match v
    case JNull => Finite(0)
    case JBool(b) => Finite(if b then 1 else 0)
    case JNum(n) => Finite(n)
    case JStr(s) => StringToNumber(s)
    case _ => StringToNumber(Render(v))
  }

  /** Digits read from a prefix are not affected by what follows. */
  lemma {:induction false} DigitsValuePrefix(a: string, b: string, lo: nat, hi: nat)
    requires lo <= hi <= |a|
    ensures DigitsValue(a + b, lo, hi) == DigitsValue(a, lo, hi)
    decreases hi
  {
    if hi > lo {
      DigitsValuePrefix(a, b, lo, hi - 1);
      assert (a + b)[hi - 1] == a[hi - 1];
    }
  }

  /** Digits read after a prefix `p` are the digits of what follows it. */
  lemma {:induction false} DigitsValueAfter(p: string, d: string, hi: nat)
    requires hi <= |d|
    ensures DigitsValue(p + d, |p|, |p| + hi) == DigitsValue(d, 0, hi)
    decreases hi
  {
    if hi > 0 {
      DigitsValueAfter(p, d, hi - 1);
      assert (p + d)[|p| + hi - 1] == d[hi - 1];
    }
  }

  lemma {:induction false} NatToStringValue(n: nat)
    ensures DigitsValue(NatToString(n), 0, |NatToString(n)|) == n
    decreases n
  {
    if n >= 10 {
      var init := NatToString(n / 10);
      NatToStringValue(n / 10);
      DigitsValuePrefix(init, [DigitChar(n % 10)], 0, |init|);
    }
  }

  lemma DigitsNotPadded(d: string)
    requires d != [] && AllDigits(d)
    ensures Trim(d) == d
  {
    assert IsDigit(d[0]) && IsDigit(d[|d| - 1]);
    TrimOfNotPadded(d);
  }

  lemma ParseUnsigned(d: string)
    requires d != [] && AllDigits(d)
    ensures StringToNumber(d) == Finite(DigitsValue(d, 0, |d|))
  {
    DigitsNotPadded(d);
    assert IsDigit(d[0]);
  }

  lemma NegativeTextTrimmed(d: string)
    requires d != [] && AllDigits(d)
    ensures Trim("-" + d) == "-" + d
  {
    var t := "-" + d;
    assert IsDigit(d[|d| - 1]);
    assert t[0] == '-' && t[|t| - 1] == d[|d| - 1];
    TrimOfNotPadded(t);
  }

  lemma NegativeTextDigits(d: string)
    requires AllDigits(d)
    ensures DigitsBetween("-" + d, 1, |d| + 1)
  {
    var t := "-" + d;
    forall k | 1 <= k < |t| ensures IsDigit(t[k]) {
      assert t[k] == d[k - 1];
    }
  }

  lemma ParseNegative(d: string)
    requires d != [] && AllDigits(d)
    ensures StringToNumber("-" + d) == Finite(0 - DigitsValue(d, 0, |d|))
  {
    NegativeTextTrimmed(d);
    NegativeTextDigits(d);
    DigitsValueAfter("-", d, |d|);
    NegativeToken("-" + d);
  }

  lemma NegativeToken(t: string)
    requires Trim(t) == t && |t| > 1 && t[0] == '-' && DigitsBetween(t, 1, |t|)
    ensures StringToNumber(t) == Finite(0 - DigitsValue(t, 1, |t|))
  {
  }

  /** Parsing the decimal rendering of an integer gives the integer back. */
  lemma IntToStringRoundTrip(n: int)
    ensures StringToNumber(IntToString(n)) == Finite(n)
  {
    var m: nat := if n < 0 then -n else n;
    NatToStringValue(m);
    if n < 0 {
      ParseNegative(NatToString(m));
    } else {
      ParseUnsigned(NatToString(m));
    }
  }

  /** A string radius such as "1000" is read as the number it spells. */
  lemma NumericStringToNumber(n: int)
    ensures ToNumber(JStr(IntToString(n))) == ToNumber(JNum(n))
  {
    IntToStringRoundTrip(n);
  }
}
