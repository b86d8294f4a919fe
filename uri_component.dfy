/**
 * `encodeURIComponent`: percent-encoding in the style of section 2.1 of
 * RFC 3986. The characters A-Z a-z 0-9 - _ . ! ~ * ' ( ) are kept; every other
 * code point is written as the "%XX" escapes of its UTF-8 bytes, with
 * upper-case hexadecimal digits. A decoder is given as its inverse.
 */
module UriComponent {
  import opened Wrappers

  predicate IsUnreserved(c: char) {
    || ('A' <= c <= 'Z') || ('a' <= c <= 'z') || ('0' <= c <= '9')
    || c == '-' || c == '_' || c == '.' || c == '!' || c == '~' || c == '*'
    || c == '\'' || c == '(' || c == ')'
  }

  predicate IsUpperHex(c: char) {
    ('0' <= c <= '9') || ('A' <= c <= 'F')
  }

  /** The characters `encodeURIComponent` can emit. */
  predicate IsUriSafe(c: char) {
    IsUnreserved(c) || c == '%' || IsUpperHex(c)
  }

  predicate AllUriSafe(s: string) {
    forall k :: 0 <= k < |s| ==> IsUriSafe(s[k])
  }

  lemma AllUriSafeAppend(a: string, b: string)
    requires AllUriSafe(a) && AllUriSafe(b)
    ensures AllUriSafe(a + b)
  {
    forall k | 0 <= k < |a + b| ensures IsUriSafe((a + b)[k]) {
      if k >= |a| {
        assert (a + b)[k] == b[k - |a|];
      }
    }
  }

  function HexDigit(d: nat): (c: char)
    requires d < 16
    ensures IsUpperHex(c)
  {
    "0123456789ABCDEF"[d]
  }

  /** The value of a hexadecimal digit of either case. */
  function HexValue(c: char): Option<nat> {
    if '0' <= c <= '9' then Some(c as int - '0' as int)
    else if 'A' <= c <= 'F' then Some(c as int - 'A' as int + 10)
    else if 'a' <= c <= 'f' then Some(c as int - 'a' as int + 10)
    else None
  }

  lemma HexValueOfDigit(d: nat)
    requires d < 16
    ensures HexValue(HexDigit(d)) == Some(d)
  {
  }

  type Byte = b: int | 0 <= b < 256

  /** The UTF-8 encoding of one Unicode scalar value. */
  function Utf8Bytes(c: char): (bs: seq<Byte>)
    ensures 1 <= |bs| <= 4
  {
    var n := c as int;
    var q1, r1 := n / 64, n % 64;
    var q2, r2 := q1 / 64, q1 % 64;
    var q3, r3 := q2 / 64, q2 % 64;
    if n < 0x80 then [n]
    else if n < 0x800 then [0xC0 + q1, 0x80 + r1]
    else if n < 0x10000 then [0xE0 + q2, 0x80 + r2, 0x80 + r1]
    else [0xF0 + q3, 0x80 + r3, 0x80 + r2, 0x80 + r1]
  }

  /** A run of "%XX" triples: '%' followed by two upper-case hexadecimal digits, again and again. */
  predicate Escapes(r: string) {
    r == [] || (|r| >= 3 && r[0] == '%' && IsUpperHex(r[1]) && IsUpperHex(r[2]) && Escapes(r[3..]))
  }

  function PercentByte(b: Byte): (r: string)
    ensures |r| == 3 && AllUriSafe(r)
    ensures r[0] == '%' && IsUpperHex(r[1]) && IsUpperHex(r[2])
  {
    ['%', HexDigit(b / 16), HexDigit(b % 16)]
  }

  function PercentBytes(bs: seq<Byte>): (r: string)
    ensures |r| == 3 * |bs| && AllUriSafe(r)
  {
    if bs == [] then ""
    else
      var r := PercentByte(bs[0]) + PercentBytes(bs[1..]);
      AllUriSafeAppend(PercentByte(bs[0]), PercentBytes(bs[1..]));
      r
  }

  /** The escapes of a byte string are "%XX" triples. */
  lemma {:induction false} PercentBytesEscapes(bs: seq<Byte>)
    ensures Escapes(PercentBytes(bs))
  {
    if bs != [] {
      var head, tail := PercentByte(bs[0]), PercentBytes(bs[1..]);
      PercentBytesEscapes(bs[1..]);
      assert (head + tail)[3..] == tail;
    }
  }

  /** One code point: an unreserved character stays as it is; any other becomes the escapes of its UTF-8 bytes. */
  function EncodeChar(c: char): (r: string)
    ensures AllUriSafe(r)
    ensures IsUnreserved(c) ==> r == [c]
    ensures !IsUnreserved(c) ==> |r| == 3 * |Utf8Bytes(c)| && Escapes(r)
  {
    if IsUnreserved(c) then [c]
    else
      PercentBytesEscapes(Utf8Bytes(c));
      PercentBytes(Utf8Bytes(c))
  }

  /** `encodeURIComponent(s)`: only unreserved characters and '%' appear; see EncodeAppend and EncodeSingle. */
  function EncodeUriComponent(s: string): (r: string)
    ensures AllUriSafe(r)
  {
    if s == [] then ""
    else
      var r := EncodeChar(s[0]) + EncodeUriComponent(s[1..]);
      AllUriSafeAppend(EncodeChar(s[0]), EncodeUriComponent(s[1..]));
      r
  }

  /** Each code point is encoded on its own: the encoding of a concatenation is the concatenation of the encodings. */
  lemma {:induction false} EncodeAppend(a: string, b: string)
    ensures EncodeUriComponent(a + b) == EncodeUriComponent(a) + EncodeUriComponent(b)
  {
    if a == [] {
      assert a + b == b;
    } else {
      assert (a + b)[0] == a[0] && (a + b)[1..] == a[1..] + b;
      EncodeAppend(a[1..], b);
    }
  }

  /** A one-character string encodes as that character does. */
  lemma EncodeSingle(c: char)
    ensures EncodeUriComponent([c]) == EncodeChar(c)
  {
    assert [c][1..] == [];
  }

  /** The byte written as "%XX" at offset `i` of `t`. */
  function ReadByte(t: string, i: nat): Option<Byte> {
    if i + 3 <= |t| && t[i] == '%' && HexValue(t[i + 1]).Some? && HexValue(t[i + 2]).Some? then
      var h, l := HexValue(t[i + 1]).value, HexValue(t[i + 2]).value;
      if h < 16 && l < 16 then Some(16 * h + l) else None
    else None
  }

  /** A UTF-8 continuation byte, and the six bits it carries. */
  function Continuation(t: string, i: nat): Option<int> {
    var b := ReadByte(t, i);
    if b.Some? && 0x80 <= b.value < 0xC0 then Some(b.value - 0x80) else None
  }

  /** A code point that is a Unicode scalar value. */
  function ScalarChar(n: int): Option<char> {
    if (0 <= n < 0xD800) || (0xE000 <= n < 0x11_0000) then Some(n as char) else None
  }

  /**
   * Decodes the escapes of one character at the start of `t` (which starts
   * with '%'): the character and the number of input characters consumed.
   * Overlong forms, surrogates and code points above U+10FFFF are rejected.
   */
  function DecodeEscaped(t: string): (r: Option<(char, nat)>)
    ensures r.Some? ==> 3 <= r.value.1 <= |t|
  {
    var lead := ReadByte(t, 0);
    if lead.None? then None
    else
      var b0 := lead.value;
      if b0 < 0x80 then ScalarOf(b0, 3, t)
      else if 0xC2 <= b0 < 0xE0 then
        var c1 := Continuation(t, 3);
        if c1.None? then None else ScalarOf((b0 - 0xC0) * 64 + c1.value, 6, t)
      else if 0xE0 <= b0 < 0xF0 then
        var c1, c2 := Continuation(t, 3), Continuation(t, 6);
        if c1.None? || c2.None? then None
        else
          var n := ((b0 - 0xE0) * 64 + c1.value) * 64 + c2.value;
          if n < 0x800 then None else ScalarOf(n, 9, t)
      else if 0xF0 <= b0 < 0xF5 then
        var c1, c2, c3 := Continuation(t, 3), Continuation(t, 6), Continuation(t, 9);
        if c1.None? || c2.None? || c3.None? then None
        else
          var n := (((b0 - 0xF0) * 64 + c1.value) * 64 + c2.value) * 64 + c3.value;
          if n < 0x1_0000 then None else ScalarOf(n, 12, t)
      else None
  }

  function ScalarOf(n: int, used: nat, t: string): (r: Option<(char, nat)>)
    ensures r.Some? ==> r.value.1 == used && r.value.0 as int == n
  {
    var c := ScalarChar(n);
    if c.None? || used > |t| then None else Some((c.value, used))
  }

  /** The inverse of `EncodeUriComponent`: literal characters stand for themselves. */
  function DecodeUriComponent(t: string): Option<string>
    decreases |t|
  {
    if t == [] then Some([])
    else if t[0] != '%' then Prepend(t[0], DecodeUriComponent(t[1..]))
    else
      var d := DecodeEscaped(t);
      if d.None? then None else Prepend(d.value.0, DecodeUriComponent(t[d.value.1..]))
  }

  function Prepend(c: char, rest: Option<string>): Option<string> {
    if rest.None? then None else Some([c] + rest.value)
  }

  lemma ReadPercentByte(b: Byte, rest: string)
    ensures ReadByte(PercentByte(b) + rest, 0) == Some(b)
  {
    var t := PercentByte(b) + rest;
    HexValueOfDigit(b / 16);
    HexValueOfDigit(b % 16);
    assert t[1] == HexDigit(b / 16) && t[2] == HexDigit(b % 16);
  }

  lemma ReadByteShift(t: string, d: nat, i: nat)
    requires d <= |t|
    ensures ReadByte(t, d + i) == ReadByte(t[d..], i)
  {
    if d + i + 3 <= |t| {
      assert t[d + i] == t[d..][i] && t[d + i + 1] == t[d..][i + 1] && t[d + i + 2] == t[d..][i + 2];
    }
  }

  lemma {:induction false} ReadPercentBytes(bs: seq<Byte>, rest: string, k: nat)
    requires k < |bs|
    ensures ReadByte(PercentBytes(bs) + rest, 3 * k) == Some(bs[k])
    decreases k
  {
    var t := PercentBytes(bs) + rest;
    var u := PercentBytes(bs[1..]) + rest;
    assert t == PercentByte(bs[0]) + u;
    if k == 0 {
      ReadPercentByte(bs[0], u);
    } else {
      ReadPercentBytes(bs[1..], rest, k - 1);
      assert t[3..] == u;
      ReadByteShift(t, 3, 3 * (k - 1));
    }
  }

  lemma DecodeOne(t: string, c: char)
    requires c as int < 0x80 && ReadByte(t, 0) == Some(c as int)
    ensures DecodeEscaped(t) == Some((c, 3))
  {
  }

  lemma DecodeTwo(t: string, c: char, q1: int, r1: int)
    requires 0x80 <= c as int < 0x800 && c as int == 64 * q1 + r1 && 0 <= r1 < 64
    requires ReadByte(t, 0) == Some(0xC0 + q1) && ReadByte(t, 3) == Some(0x80 + r1)
    ensures DecodeEscaped(t) == Some((c, 6))
  {
    assert Continuation(t, 3) == Some(r1);
  }

  lemma DecodeThree(t: string, c: char, q2: int, r2: int, r1: int)
    requires 0x800 <= c as int < 0x1_0000 && c as int == 64 * (64 * q2 + r2) + r1
    requires 0 <= r1 < 64 && 0 <= r2 < 64
    requires ReadByte(t, 0) == Some(0xE0 + q2)
    requires ReadByte(t, 3) == Some(0x80 + r2) && ReadByte(t, 6) == Some(0x80 + r1)
    ensures DecodeEscaped(t) == Some((c, 9))
  {
    assert Continuation(t, 3) == Some(r2) && Continuation(t, 6) == Some(r1);
  }

  lemma DecodeFour(t: string, c: char, q3: int, r3: int, r2: int, r1: int)
    requires 0x1_0000 <= c as int && c as int == 64 * (64 * (64 * q3 + r3) + r2) + r1
    requires 0 <= r1 < 64 && 0 <= r2 < 64 && 0 <= r3 < 64
    requires ReadByte(t, 0) == Some(0xF0 + q3) && ReadByte(t, 3) == Some(0x80 + r3)
    requires ReadByte(t, 6) == Some(0x80 + r2) && ReadByte(t, 9) == Some(0x80 + r1)
    ensures DecodeEscaped(t) == Some((c, 12))
  {
    assert Continuation(t, 3) == Some(r3) && Continuation(t, 6) == Some(r2);
    assert Continuation(t, 9) == Some(r1);
  }

  lemma EscapedOneByte(c: char, rest: string)
    requires c as int < 0x80
    ensures DecodeEscaped(PercentBytes(Utf8Bytes(c)) + rest) == Some((c, 3))
  {
    var bs := Utf8Bytes(c);
    assert bs == [c as int];
    ReadPercentBytes(bs, rest, 0);
    DecodeOne(PercentBytes(bs) + rest, c);
  }

  lemma EscapedTwoBytes(c: char, rest: string)
    requires 0x80 <= c as int < 0x800
    ensures DecodeEscaped(PercentBytes(Utf8Bytes(c)) + rest) == Some((c, 6))
  {
    var bs := Utf8Bytes(c);
    var n := c as int;
    var q1, r1 := n / 64, n % 64;
    assert bs == [0xC0 + q1, 0x80 + r1];
    ReadPercentBytes(bs, rest, 0);
    ReadPercentBytes(bs, rest, 1);
    DecodeTwo(PercentBytes(bs) + rest, c, q1, r1);
  }

  lemma EscapedThreeBytes(c: char, rest: string)
    requires 0x800 <= c as int < 0x1_0000
    ensures DecodeEscaped(PercentBytes(Utf8Bytes(c)) + rest) == Some((c, 9))
  {
    var bs := Utf8Bytes(c);
    var n := c as int;
    var q1, r1 := n / 64, n % 64;
    var q2, r2 := q1 / 64, q1 % 64;
    assert bs == [0xE0 + q2, 0x80 + r2, 0x80 + r1];
    ReadPercentBytes(bs, rest, 0);
    ReadPercentBytes(bs, rest, 1);
    ReadPercentBytes(bs, rest, 2);
    DecodeThree(PercentBytes(bs) + rest, c, q2, r2, r1);
  }

  lemma EscapedFourBytes(c: char, rest: string)
    requires 0x1_0000 <= c as int
    ensures DecodeEscaped(PercentBytes(Utf8Bytes(c)) + rest) == Some((c, 12))
  {
    var bs := Utf8Bytes(c);
    var n := c as int;
    var q1, r1 := n / 64, n % 64;
    var q2, r2 := q1 / 64, q1 % 64;
    var q3, r3 := q2 / 64, q2 % 64;
    assert bs == [0xF0 + q3, 0x80 + r3, 0x80 + r2, 0x80 + r1];
    ReadPercentBytes(bs, rest, 0);
    ReadPercentBytes(bs, rest, 1);
    ReadPercentBytes(bs, rest, 2);
    ReadPercentBytes(bs, rest, 3);
    DecodeFour(PercentBytes(bs) + rest, c, q3, r3, r2, r1);
  }

  lemma DecodeEscapedChar(c: char, rest: string)
    requires !IsUnreserved(c)
    ensures DecodeEscaped(EncodeChar(c) + rest) == Some((c, |EncodeChar(c)|))
  {
    var n := c as int;
    if n < 0x80 {
      EscapedOneByte(c, rest);
    } else if n < 0x800 {
      EscapedTwoBytes(c, rest);
    } else if n < 0x1_0000 {
      EscapedThreeBytes(c, rest);
    } else {
      EscapedFourBytes(c, rest);
    }
  }

  lemma {:induction false} DecodeEncodeChar(c: char, rest: string)
    ensures DecodeUriComponent(EncodeChar(c) + rest) == Prepend(c, DecodeUriComponent(rest))
  {
    var t := EncodeChar(c) + rest;
    if IsUnreserved(c) {
      assert t[0] == c && t[1..] == rest;
    } else {
      DecodeEscapedChar(c, rest);
      assert t[0] == '%';
      assert t[|EncodeChar(c)|..] == rest;
    }
  }

  /** Decoding undoes `encodeURIComponent` for every string. */
  lemma {:induction false} DecodeEncode(s: string)
    ensures DecodeUriComponent(EncodeUriComponent(s)) == Some(s)
  {
    if s != [] {
      DecodeEncode(s[1..]);
      DecodeEncodeChar(s[0], EncodeUriComponent(s[1..]));
      assert [s[0]] + s[1..] == s;
    }
  }

  /** So distinct names never encode to the same text. */
  lemma EncodeInjective(s: string, u: string)
    requires EncodeUriComponent(s) == EncodeUriComponent(u)
    ensures s == u
  {
    DecodeEncode(s);
    DecodeEncode(u);
  }

  /** Strings made of unreserved characters are left as they are. */
  lemma {:induction false} EncodeUnreserved(s: string)
    requires forall k :: 0 <= k < |s| ==> IsUnreserved(s[k])
    ensures EncodeUriComponent(s) == s
  {
    if s != [] {
      EncodeUnreserved(s[1..]);
    }
  }
}
