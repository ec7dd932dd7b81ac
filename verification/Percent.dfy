/** Percent-encoding (section 2.1 of RFC 3986) as the `urlencoding` crate applies it to
    user names and passwords. */
module Percent {
  import opened Text
  import opened Utf8

  const PERCENT: Byte := 37
  const COLON: Byte := 58

  function HexValue(b: Byte): Option<Byte> {
    if 48 <= b <= 57 then Some(b - 48)
    else if 65 <= b <= 70 then Some(b - 55)
    else if 97 <= b <= 102 then Some(b - 87)
    else None
  }

  predicate IsEscape(b: seq<Byte>) {
    |b| >= 3 && b[0] == PERCENT && HexValue(b[1]).Some? && HexValue(b[2]).Some?
  }

  /** Every `%XX` becomes one byte; a `%` that is not an escape stays. */
  function DecodeBytes(b: seq<Byte>): (r: seq<Byte>)
    ensures |r| <= |b|
  {
    if b == [] then []
    else if IsEscape(b) then [HexValue(b[1]).value * 16 + HexValue(b[2]).value] + DecodeBytes(b[3..])
    else [b[0]] + DecodeBytes(b[1..])
  }

  /** Decoded text; a result that is not UTF-8 leaves the input as it was. */
  function UrlDecode(s: string): string {
    match Utf8.Decode(DecodeBytes(Utf8.Encode(s)))
    case Some(t) => t
    case None => s
  }

  predicate IsUnreserved(b: Byte) {
    48 <= b <= 57 || 65 <= b <= 90 || 97 <= b <= 122 || b == 45 || b == 46 || b == 95 || b == 126
  }

  function HexDigit(n: nat): (c: char)
    requires n < 16
    ensures IsHexDigit(c)
  {
    if n < 10 then (48 + n) as char else (55 + n) as char
  }

  function EncodeByte(b: Byte): string {
    if IsUnreserved(b) then [b as char] else ['%', HexDigit(b / 16), HexDigit(b % 16)]
  }

  function EncodeBytes(b: seq<Byte>): string {
    if b == [] then "" else EncodeByte(b[0]) + EncodeBytes(b[1..])
  }

  function UrlEncode(s: string): string {
    EncodeBytes(Utf8.Encode(s))
  }

  /** The characters an encoded text can hold: none of them is a separator or a blank. */
  predicate IsSafe(c: char) {
    IsAsciiAlnum(c) || c == '-' || c == '.' || c == '_' || c == '~' || c == '%'
  }

  ghost predicate AllSafe(s: string) { forall k :: 0 <= k < |s| ==> IsSafe(s[k]) }

  lemma {:induction false} EncodeIsSafe(b: seq<Byte>)
    ensures AllSafe(EncodeBytes(b)) && (EncodeBytes(b) == "" <==> b == [])
  {
    if b != [] {
      EncodeIsSafe(b[1..]);
      assert AllSafe(EncodeByte(b[0]));
    }
  }

  lemma DecodeEncodedByte(b: Byte, rest: seq<Byte>)
    ensures DecodeBytes(Utf8.Encode(EncodeByte(b)) + rest) == [b] + DecodeBytes(rest)
  {
    var e := EncodeByte(b);
    Utf8.EncodeAscii(e);
    var x := Utf8.Encode(e) + rest;
    assert |Utf8.Encode(e)| == |e|;
    assert x[|e|..] == rest;
    if !IsUnreserved(b) {
      assert x[1] == HexDigit(b / 16) as int && x[2] == HexDigit(b % 16) as int;
    }
  }

  lemma {:induction false} DecodeEncodedBytes(b: seq<Byte>)
    ensures DecodeBytes(Utf8.Encode(EncodeBytes(b))) == b
  {
    if b != [] {
      Utf8.EncodeConcat(EncodeByte(b[0]), EncodeBytes(b[1..]));
      DecodeEncodedByte(b[0], Utf8.Encode(EncodeBytes(b[1..])));
      DecodeEncodedBytes(b[1..]);
    }
  }

  /** Decoding inverts encoding for every text. */
  lemma UrlRoundTrip(s: string)
    ensures UrlDecode(UrlEncode(s)) == s
    ensures AllSafe(UrlEncode(s)) && (UrlEncode(s) == "" <==> s == "")
  {
    DecodeEncodedBytes(Utf8.Encode(s));
    Utf8.EncodeRoundTrip(s);
    EncodeIsSafe(Utf8.Encode(s));
  }

  lemma EscapeBeforeColon(x: seq<Byte>, y: seq<Byte>)
    requires x != []
    ensures IsEscape(x + [COLON] + y) == IsEscape(x)
  {
    var b := x + [COLON] + y;
    assert b[0] == x[0] && b[|x|] == COLON && HexValue(COLON).None?;
    assert |x| >= 2 ==> b[1] == x[1];
    assert |x| >= 3 ==> b[2] == x[2];
  }

  /** A colon never sits inside an escape, so decoding works on its two sides separately. */
  lemma {:induction false} DecodeBytesAtColon(x: seq<Byte>, y: seq<Byte>)
    ensures DecodeBytes(x + [COLON] + y) == DecodeBytes(x) + [COLON] + DecodeBytes(y)
    decreases |x|
  {
    var b := x + [COLON] + y;
    if x == [] {
      assert b == [COLON] + y && b[1..] == y;
    } else {
      EscapeBeforeColon(x, y);
      var n := if IsEscape(x) then 3 else 1;
      DropBeforeColon(x, y, n);
      DecodeBytesAtColon(x[n..], y);
      var front := if n == 3 then [HexValue(x[1]).value * 16 + HexValue(x[2]).value] else [x[0]];
      FrontFirst(front, DecodeBytes(x[n..]), DecodeBytes(y));
    }
  }

  lemma DropBeforeColon(x: seq<Byte>, y: seq<Byte>, n: nat)
    requires n <= |x|
    ensures (x + [COLON] + y)[n..] == x[n..] + [COLON] + y
    ensures forall k :: 0 <= k < n ==> (x + [COLON] + y)[k] == x[k]
  {
  }

  lemma FrontFirst(f: seq<Byte>, a: seq<Byte>, b: seq<Byte>)
    ensures f + (a + [COLON] + b) == f + a + [COLON] + b
  {
  }

  /** The decoded form of `u:v` is never the decoded form of `u`: cutting a name at a colon
      it holds always changes it. */
  lemma CutNameDiffers(u: string, v: string)
    ensures UrlDecode(u + ":" + v) != UrlDecode(u)
  {
    var eu, ev := Utf8.Encode(u), Utf8.Encode(v);
    Utf8.EncodeAscii(":");
    assert Utf8.Encode(":") == [COLON];
    Utf8.EncodeConcat(u + ":", v);
    Utf8.EncodeConcat(u, ":");
    assert Utf8.Encode(u + ":" + v) == eu + [COLON] + ev;
    DecodeBytesAtColon(eu, ev);
    var whole := DecodeBytes(eu + [COLON] + ev);
    assert |Utf8.Encode(UrlDecode(u))| < |Utf8.Encode(UrlDecode(u + ":" + v))| by {
      if Utf8.Decode(whole).Some? {
        Utf8.DecodePrefix(DecodeBytes(eu), COLON, DecodeBytes(ev));
        Utf8.DecodeRoundTrip(whole);
        Utf8.DecodeRoundTrip(DecodeBytes(eu));
      } else if Utf8.Decode(DecodeBytes(eu)).Some? {
        Utf8.DecodeRoundTrip(DecodeBytes(eu));
      }
    }
  }
}
