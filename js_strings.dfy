/**
 * The JavaScript string built-ins the core relies on: `trim`, `includes`,
 * `toLowerCase` and the UTF-16 `length`. Strings are sequences of Unicode
 * scalar values.
 */
module JsStrings {

  /** The code points `String.prototype.trim` removes: ECMAScript WhiteSpace and LineTerminator. */
  predicate IsJsWhitespace(c: char) {
    || c == '\t' || c == '\n' || c == '\U{000B}' || c == '\U{000C}' || c == '\r' || c == ' '
    || c == '\U{00A0}' || c == '\U{1680}' || ('\U{2000}' <= c <= '\U{200A}')
    || c == '\U{2028}' || c == '\U{2029}' || c == '\U{202F}' || c == '\U{205F}'
    || c == '\U{3000}' || c == '\U{FEFF}'
  }

  /** No whitespace at either end (the shape of every `trim` result). */
  predicate NotPadded(s: string) {
    s == [] || (!IsJsWhitespace(s[0]) && !IsJsWhitespace(s[|s| - 1]))
  }

  predicate AllWhitespace(s: string) {
    forall k :: 0 <= k < |s| ==> IsJsWhitespace(s[k])
  }

  /** Length of the longest whitespace prefix. */
  function LeadingSpace(s: string): (n: nat)
    ensures n <= |s| && AllWhitespace(s[..n])
    ensures n < |s| ==> !IsJsWhitespace(s[n])
  {
    if s != [] && IsJsWhitespace(s[0]) then
      var m := LeadingSpace(s[1..]);
      assert forall k :: 1 <= k < m + 1 ==> s[k] == s[1..][k - 1];
      m + 1
    else 0
  }

  /** Length of the longest whitespace suffix. */
  function TrailingSpace(s: string): (n: nat)
    ensures n <= |s| && AllWhitespace(s[|s| - n..])
    ensures n < |s| ==> !IsJsWhitespace(s[|s| - n - 1])
  {
    if s != [] && IsJsWhitespace(s[|s| - 1]) then
      var init := s[..|s| - 1];
      var m := TrailingSpace(init);
      assert forall k :: |s| - 1 - m <= k < |s| - 1 ==> s[k] == init[k];
      m + 1
    else 0
  }

  /** Drops the longest whitespace prefix. */
  function TrimStart(s: string): (r: string)
    ensures |r| <= |s| && r == s[|s| - |r|..]
    ensures AllWhitespace(s[..|s| - |r|])
    ensures r != [] ==> !IsJsWhitespace(r[0])
  {
    s[LeadingSpace(s)..]
  }

  /** Drops the longest whitespace suffix. */
  function TrimEnd(s: string): (r: string)
    ensures |r| <= |s| && r == s[..|r|]
    ensures AllWhitespace(s[|r|..])
    ensures r != [] ==> !IsJsWhitespace(r[|r| - 1])
  {
    s[..|s| - TrailingSpace(s)]
  }

  /** `String.prototype.trim`. */
  function Trim(s: string): (r: string)
    ensures NotPadded(r)
    ensures |r| <= |s|
  {
    TrimEnd(TrimStart(s))
  }

  /** `r` sits at offset `i` of `s` with only whitespace before and after it. */
  predicate FramedAt(s: string, r: string, i: int) {
    0 <= i <= |s| - |r| && r == s[i..i + |r|] && AllWhitespace(s[..i]) && AllWhitespace(s[i + |r|..])
  }

  /** `trim` removes whitespace only, and only at the two ends: the result is an infix framed by whitespace. */
  lemma TrimIsInfix(s: string)
    ensures exists i :: FramedAt(s, Trim(s), i)
  {
    var a := TrimStart(s);
    var r := TrimEnd(a);
    var i := |s| - |a|;
    assert a == s[i..];
    assert s[i..i + |r|] == a[..|r|];
    assert s[i + |r|..] == a[|r|..];
    assert r == Trim(s) && FramedAt(s, r, i);
  }

  lemma {:induction false} TrimOfNotPadded(s: string)
    requires NotPadded(s)
    ensures Trim(s) == s
  {
  }

  /** `trim` is idempotent. */
  lemma TrimIdempotent(s: string)
    ensures Trim(Trim(s)) == Trim(s)
  {
    TrimOfNotPadded(Trim(s));
  }

  /** `trim` returns "" exactly for strings made of whitespace only. */
  lemma TrimEmpty(s: string)
    ensures Trim(s) == [] <==> AllWhitespace(s)
  {
  }

  /** `String.prototype.includes`: `pat` occurs in `text` (the empty pattern occurs everywhere). */
  predicate Includes(text: string, pat: string)
    decreases |text|
  {
    if |pat| > |text| then false
    else if text[..|pat|] == pat then true
    else text != [] && Includes(text[1..], pat)
  }

  /** `pat` occurs in `text` at offset `k`. */
  predicate OccursAt(text: string, pat: string, k: int) {
    0 <= k && k + |pat| <= |text| && text[k..k + |pat|] == pat
  }

  /** An occurrence at offset `k` is found by `Includes`. */
  lemma {:induction false} OccursIncluded(text: string, pat: string, k: nat)
    requires OccursAt(text, pat, k)
    ensures Includes(text, pat)
    decreases k
  {
    if k > 0 && text[..|pat|] != pat {
      var tail := text[1..];
      var u, w := tail[k - 1..k - 1 + |pat|], text[k..k + |pat|];
      assert forall i :: 0 <= i < |pat| ==> u[i] == w[i];
      OccursIncluded(tail, pat, k - 1);
    }
  }

  /** `Includes` agrees with the definition by offsets. */
  lemma {:induction false} IncludesIffOccurs(text: string, pat: string)
    ensures Includes(text, pat) <==> exists k :: OccursAt(text, pat, k)
    decreases |text|
  {
    if exists k :: OccursAt(text, pat, k) {
      var k :| OccursAt(text, pat, k);
      OccursIncluded(text, pat, k);
    }
    if Includes(text, pat) {
      if text[..|pat|] == pat {
        assert OccursAt(text, pat, 0);
      } else {
        IncludesIffOccurs(text[1..], pat);
        var k :| OccursAt(text[1..], pat, k);
        assert text[k + 1..k + 1 + |pat|] == text[1..][k..k + |pat|];
        assert OccursAt(text, pat, k + 1);
      }
    }
  }

  /** A pattern with a character the text lacks does not occur in it. */
  lemma AbsentCharExcludes(text: string, pat: string, c: char)
    requires c in pat && c !in text
    ensures !Includes(text, pat)
  {
    IncludesIffOccurs(text, pat);
  }

  /** The case mapping `toLowerCase` applies to one character (ASCII letters only here). */
  function LowerChar(c: char): char {
    if 'A' <= c <= 'Z' then (c as int + 32) as char else c
  }

  /** `String.prototype.toLowerCase`, character by character. */
  function ToLower(s: string): (r: string)
    ensures |r| == |s|
    ensures forall k :: 0 <= k < |s| ==> r[k] == LowerChar(s[k])
  {
    if s == [] then [] else [LowerChar(s[0])] + ToLower(s[1..])
  }

  /** Number of UTF-16 code units of one code point. */
  function CodeUnits(c: char): nat {
    if c as int > 0xFFFF then 2 else 1
  }

  /** `String.prototype.length`: the number of UTF-16 code units. */
  function Utf16Length(s: string): (n: nat)
    ensures |s| <= n <= 2 * |s|
  {
    if s == [] then 0 else CodeUnits(s[0]) + Utf16Length(s[1..])
  }

  /** The UTF-16 length is the number of code points exactly when none lies outside the Basic Multilingual Plane. */
  lemma {:induction false} Utf16LengthBmp(s: string)
    ensures Utf16Length(s) == |s| <==> forall k :: 0 <= k < |s| ==> s[k] as int <= 0xFFFF
  {
    if s != [] {
      Utf16LengthBmp(s[1..]);
      assert forall k :: 1 <= k < |s| ==> s[k] == s[1..][k - 1];
    }
  }

  lemma {:induction false} Utf16LengthAppend(a: string, b: string)
    ensures Utf16Length(a + b) == Utf16Length(a) + Utf16Length(b)
  {
    if a == [] {
      assert a + b == b;
    } else {
      assert (a + b)[1..] == a[1..] + b;
      Utf16LengthAppend(a[1..], b);
    }
  }

  /** `toLowerCase` is determined character by character. */
  lemma ToLowerPointwise(s: string, t: string)
    requires |s| == |t| && forall k :: 0 <= k < |s| ==> LowerChar(s[k]) == t[k]
    ensures ToLower(s) == t
  {
  }
}
