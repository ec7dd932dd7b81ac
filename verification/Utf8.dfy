/** UTF-8 (RFC 3629), the bridge between text and the bytes that percent-encoding and
    base64 work on. */
module Utf8 {
  import opened Text

  type Byte = n: int | 0 <= n < 256

  /** The continuation byte holding the low six bits of `n`. */
  function Low(n: nat): Byte { 0x80 + n % 64 }

  /** The bytes of one character. */
  function EncodeChar(c: char): (b: seq<Byte>)
    ensures 1 <= |b| <= 4
  {
    var n := c as int;
    if n < 0x80 then [n]
    else if n < 0x800 then [0xC0 + n / 64, Low(n)]
    else if n < 0x10000 then [0xE0 + n / 64 / 64, Low(n / 64), Low(n)]
    else [0xF0 + n / 64 / 64 / 64, Low(n / 64 / 64), Low(n / 64), Low(n)]
  }

  function Encode(s: string): seq<Byte> {
    if s == "" then [] else EncodeChar(s[0]) + Encode(s[1..])
  }

  predicate IsContinuation(b: Byte) { 0x80 <= b < 0xC0 }

  /** Scalar values as characters; surrogates and numbers past U+10FFFF have none. */
  function ToChar(n: int): Option<char> {
    if 0 <= n < 0xD800 || 0xE000 <= n < 0x110000 then Some(n as char) else None
  }

  /** Append the six bits of a continuation byte. */
  function Push(n: nat, b: Byte): nat
    requires IsContinuation(b)
  {
    n * 64 + (b - 0x80)
  }

  lemma PushLow(n: nat, b: Byte)
    requires IsContinuation(b)
    ensures Push(n, b) / 64 == n && Low(Push(n, b)) == b
  {
  }

  lemma LowPush(n: nat)
    ensures IsContinuation(Low(n)) && Push(n / 64, Low(n)) == n
  {
  }

  function AtLeast(n: nat, floor: nat): Option<char> {
    if n < floor then None else ToChar(n)
  }

  /** The character at the front of `b`, when `b` starts with a well-formed sequence:
      no stray continuation byte, no overlong form, no surrogate. */
  function DecodeFirst(b: seq<Byte>): (c: Option<char>)
    requires b != []
  {
    var h: int := b[0];
    if h < 0x80 then ToChar(h)
    else if 0xC0 <= h < 0xE0 && |b| >= 2 && IsContinuation(b[1]) then
      AtLeast(Push(h - 0xC0, b[1]), 0x80)
    else if 0xE0 <= h < 0xF0 && |b| >= 3 && IsContinuation(b[1]) && IsContinuation(b[2]) then
      AtLeast(Push(Push(h - 0xE0, b[1]), b[2]), 0x800)
    else if 0xF0 <= h < 0xF8 && |b| >= 4 && IsContinuation(b[1]) && IsContinuation(b[2]) && IsContinuation(b[3]) then
      AtLeast(Push(Push(Push(h - 0xF0, b[1]), b[2]), b[3]), 0x10000)
    else None
  }

  /** A decoded front is exactly the encoding of the character it yields. */
  lemma DecodeFirstInverse(b: seq<Byte>)
    requires b != [] && DecodeFirst(b).Some?
    ensures var e := EncodeChar(DecodeFirst(b).value); |e| <= |b| && b[..|e|] == e
  {
    var h: int := b[0];
    if h < 0x80 {
    } else if h < 0xE0 {
      PushLow(h - 0xC0, b[1]);
    } else if h < 0xF0 {
      PushLow(h - 0xE0, b[1]);
      PushLow(Push(h - 0xE0, b[1]), b[2]);
    } else {
      PushLow(h - 0xF0, b[1]);
      PushLow(Push(h - 0xF0, b[1]), b[2]);
      PushLow(Push(Push(h - 0xF0, b[1]), b[2]), b[3]);
    }
  }

  lemma EncodeFirstInverse(c: char, rest: seq<Byte>)
    ensures DecodeFirst(EncodeChar(c) + rest) == Some(c)
  {
    var n := c as int;
    LowPush(n);
    LowPush(n / 64);
    LowPush(n / 64 / 64);
  }

  function Prepend(c: char, t: Option<string>): Option<string> {
    match t case None => None case Some(s) => Some([c] + s)
  }

  /** `String::from_utf8`: the text, or nothing when some part is malformed. */
  function Decode(b: seq<Byte>): Option<string> {
    if b == [] then Some("") else
      match DecodeFirst(b)
      case None => None
      case Some(c) =>
        DecodeFirstInverse(b);
        Prepend(c, Decode(b[|EncodeChar(c)|..]))
  }

  lemma DecodeStep(c: char, rest: seq<Byte>)
    ensures Decode(EncodeChar(c) + rest) == Prepend(c, Decode(rest))
  {
    EncodeFirstInverse(c, rest);
    assert (EncodeChar(c) + rest)[|EncodeChar(c)|..] == rest;
  }

  /** Encoding then decoding gives the text back. */
  lemma {:induction false} EncodeRoundTrip(s: string)
    ensures Decode(Encode(s)) == Some(s)
  {
    if s != "" {
      EncodeRoundTrip(s[1..]);
      DecodeStep(s[0], Encode(s[1..]));
      assert [s[0]] + s[1..] == s;
    }
  }

  /** A decodable byte string is its first character's bytes and a decodable rest. */
  lemma DecodeSplit(b: seq<Byte>) returns (c: char, rest: seq<Byte>)
    requires b != [] && Decode(b).Some?
    ensures b == EncodeChar(c) + rest && Decode(rest).Some? && Decode(b).value == [c] + Decode(rest).value
  {
    DecodeFirstInverse(b);
    c := DecodeFirst(b).value;
    rest := b[|EncodeChar(c)|..];
  }

  /** Whatever decodes was the encoding of the result. */
  lemma {:induction false} DecodeRoundTrip(b: seq<Byte>)
    requires Decode(b).Some?
    ensures Encode(Decode(b).value) == b
    decreases |b|
  {
    if b != [] {
      var c, rest := DecodeSplit(b);
      DecodeRoundTrip(rest);
      assert ([c] + Decode(rest).value)[1..] == Decode(rest).value;
    }
  }

  lemma {:induction false} EncodeConcat(s: string, t: string)
    ensures Encode(s + t) == Encode(s) + Encode(t)
  {
    if s == "" {
      assert s + t == t;
    } else {
      assert (s + t)[1..] == s[1..] + t;
      EncodeConcat(s[1..], t);
    }
  }

  predicate IsAscii(c: char) { (c as int) < 0x80 }

  ghost predicate AllAscii(s: string) { forall k :: 0 <= k < |s| ==> IsAscii(s[k]) }

  lemma {:induction false} EncodeAscii(s: string)
    requires AllAscii(s)
    ensures |Encode(s)| == |s| && forall k :: 0 <= k < |s| ==> Encode(s)[k] == s[k] as int
  {
    if s != "" {
      assert IsAscii(s[0]);
      EncodeAscii(s[1..]);
      assert forall k :: 0 < k < |s| ==> s[k] == s[1..][k - 1];
    }
  }

  lemma EncodeCharTail(c: char, k: nat)
    requires 0 < k < |EncodeChar(c)|
    ensures EncodeChar(c)[k] >= 0x80
  {
  }

  /** The front character of a byte string does not reach past an ASCII byte. */
  lemma FrontStopsAtAscii(x: seq<Byte>, a: Byte, y: seq<Byte>)
    requires x != [] && a < 0x80 && DecodeFirst(x + [a] + y).Some?
    ensures var c := DecodeFirst(x + [a] + y).value; var e := EncodeChar(c);
            |e| <= |x| && x == e + x[|e|..]
  {
    var b := x + [a] + y;
    var e := EncodeChar(DecodeFirst(b).value);
    DecodeFirstInverse(b);
    assert b[|x|] == a;
    assert forall k :: 0 <= k < |e| ==> e[k] == b[k];
    forall k | 0 < k < |e| ensures b[k] != a { EncodeCharTail(DecodeFirst(b).value, k); }
    assert |e| <= |x|;
  }

  /** A well-formed byte string stays well-formed when cut before an ASCII byte. */
  lemma {:induction false} DecodePrefix(x: seq<Byte>, a: Byte, y: seq<Byte>)
    requires a < 0x80 && Decode(x + [a] + y).Some?
    ensures Decode(x).Some?
    decreases |x|
  {
    if x != [] {
      var b := x + [a] + y;
      var c := DecodeFirst(b).value;
      var e := EncodeChar(c);
      FrontStopsAtAscii(x, a, y);
      var x' := x[|e|..];
      assert b == e + (x' + [a] + y);
      DecodeStep(c, x' + [a] + y);
      DecodePrefix(x', a, y);
      DecodeStep(c, x');
    }
  }
}
