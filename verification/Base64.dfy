/** The hand-written base64 decoder for share links, against sections 4 and 5 of RFC 4648. */
module Base64 {
  import opened Text
  import opened Utf8

  type Sextet = n: int | 0 <= n < 64

  const PAD: Byte := 61

  /** The value of one alphabet byte; both alphabets at once. */
  function SextetOf(c: Byte): Option<Sextet> {
    if 65 <= c <= 90 then Some(c - 65)
    else if 97 <= c <= 122 then Some(c - 97 + 26)
    else if 48 <= c <= 57 then Some(c - 48 + 52)
    else if c == 43 || c == 45 then Some(62)
    else if c == 47 || c == 95 then Some(63)
    else None
  }

  /** Padding and ASCII blanks, which the decoder drops wherever they stand. */
  predicate IsIgnored(c: Byte) {
    c == PAD || c == 32 || c == 9 || c == 10 || c == 12 || c == 13
  }

  function Significant(b: seq<Byte>): seq<Byte> {
    if b == [] then [] else (if IsIgnored(b[0]) then [] else [b[0]]) + Significant(b[1..])
  }

  /** One group of up to four sextets (missing ones are zero). The shifted parts of each
      byte occupy disjoint bits, so `|` is addition; the left shifts drop what leaves a byte. */
  function GroupBytes(s: seq<Sextet>): (b: seq<Byte>)
    requires 1 <= |s| <= 4
  {
    var s1, s2, s3 := if |s| > 1 then s[1] else 0, if |s| > 2 then s[2] else 0, if |s| > 3 then s[3] else 0;
    var h: int := s1;
    var m: int := s2;
    var t: int := s[0];
    [t * 4 + h / 16]
    + (if |s| > 2 then [h * 16 % 256 + m / 4] else [])
    + (if |s| > 3 then [m * 64 % 256 + s3] else [])
  }

  function Values(b: seq<Byte>): (r: Option<seq<Sextet>>)
    ensures r.Some? ==> |r.value| == |b|
  {
    if b == [] then Some([])
    else match (SextetOf(b[0]), Values(b[1..]))
      case (Some(v), Some(vs)) => Some([v] + vs)
      case _ => None
  }

  function Regroup(s: seq<Sextet>): seq<Byte> {
    if s == [] then []
    else if |s| <= 4 then GroupBytes(s)
    else GroupBytes(s[..4]) + Regroup(s[4..])
  }

  /** Loose decoding: drop padding and blanks, refuse any other foreign byte. */
  function DecodeLoose(b: seq<Byte>): Option<seq<Byte>> {
    match Values(Significant(b))
    case None => None
    case Some(vs) => Some(Regroup(vs))
  }

  // ---------- the loop form ----------

  lemma {:induction false} ValuesConcat(a: seq<Byte>, b: seq<Byte>)
    ensures Values(a + b) == match (Values(a), Values(b))
                             case (Some(x), Some(y)) => Some(x + y)
                             case _ => None
  {
    if a == [] {
      assert a + b == b;
      assert Values(b).Some? ==> [] + Values(b).value == Values(b).value;
    } else {
      assert (a + b)[1..] == a[1..] + b;
      ValuesConcat(a[1..], b);
      if Values(a).Some? && Values(b).Some? {
        assert [SextetOf(a[0]).value] + (Values(a[1..]).value + Values(b).value) == Values(a).value + Values(b).value;
      }
    }
  }

  lemma {:induction false} RegroupConcat(a: seq<Sextet>, b: seq<Sextet>)
    requires |a| % 4 == 0
    ensures Regroup(a + b) == Regroup(a) + Regroup(b)
  {
    if a == [] {
      assert a + b == b;
    } else if b == [] {
      assert a + b == a;
    } else {
      var group, tail := a[..4], a[4..];
      assert (a + b)[..4] == group && (a + b)[4..] == tail + b;
      RegroupConcat(tail, b);
      if tail == [] {
        assert group == a && tail + b == b;
      } else {
        assert GroupBytes(group) + (Regroup(tail) + Regroup(b)) == GroupBytes(group) + Regroup(tail) + Regroup(b);
      }
    }
  }

  /** Reading one byte further: a foreign byte spoils everything from there on. */
  lemma ValuesStep(b: seq<Byte>, i: nat)
    requires i < |b|
    ensures SextetOf(b[i]).None? ==> Values(b).None?
    ensures SextetOf(b[i]).Some? && Values(b[..i]).Some? ==>
              Values(b[..i + 1]) == Some(Values(b[..i]).value + [SextetOf(b[i]).value])
  {
    var c := b[i];
    assert [c][1..] == [];
    assert SextetOf(c).Some? ==> [SextetOf(c).value] + [] == [SextetOf(c).value];
    assert b[..i + 1] == b[..i] + [c] && b == b[..i + 1] + b[i + 1..];
    ValuesConcat(b[..i], [c]);
    ValuesConcat(b[..i + 1], b[i + 1..]);
  }

  /** The bytes that carry data. */
  method KeepSignificant(s: seq<Byte>) returns (bytes: seq<Byte>)
    ensures bytes == Significant(s)
  {
    bytes := [];
    for i := 0 to |s|
      invariant bytes + Significant(s[i..]) == Significant(s)
    {
      assert s[i..][1..] == s[i + 1..];
      if !IsIgnored(s[i]) { bytes := bytes + [s[i]]; }
    }
  }

  /** The values of one chunk, up to the first foreign byte. */
  method ReadChunk(chunk: seq<Byte>) returns (buf: Option<seq<Sextet>>)
    ensures buf == Values(chunk)
  {
    var group: seq<Sextet> := [];
    for i := 0 to |chunk|
      invariant |group| == i && Values(chunk[..i]) == Some(group)
    {
      ValuesStep(chunk, i);
      match SextetOf(chunk[i]) {
        case None => return None;
        case Some(v) => group := group + [v];
      }
    }
    assert chunk[..|chunk|] == chunk;
    return Some(group);
  }

  /** The chunks before `at` are read: their values are `done`, their bytes `acc`. */
  ghost predicate ReadTo(bytes: seq<Byte>, at: nat, done: seq<Sextet>, acc: seq<Byte>) {
    at <= |bytes| && |done| == at && Values(bytes[..at]) == Some(done) && acc == Regroup(done)
  }

  lemma ChunkStep(bytes: seq<Byte>, at: nat, n: nat, done: seq<Sextet>, acc: seq<Byte>)
    requires ReadTo(bytes, at, done, acc) && at + n <= |bytes| && at % 4 == 0 && 1 <= n <= 4
    ensures var v := Values(bytes[at..at + n]);
            if v.None? then Values(bytes).None? else ReadTo(bytes, at + n, done + v.value, acc + GroupBytes(v.value))
  {
    var chunk := bytes[at..at + n];
    assert bytes[..at + n] == bytes[..at] + chunk && bytes == bytes[..at + n] + bytes[at + n..];
    ValuesConcat(bytes[..at], chunk);
    ValuesConcat(bytes[..at + n], bytes[at + n..]);
    if Values(chunk).Some? { RegroupConcat(done, Values(chunk).value); }
  }

  lemma AllRead(bytes: seq<Byte>, done: seq<Sextet>, acc: seq<Byte>)
    requires ReadTo(bytes, |bytes|, done, acc)
    ensures Values(bytes) == Some(done) && acc == Regroup(done)
  {
    assert bytes[..|bytes|] == bytes;
  }

  /** The decoder as it runs: filter, then walk the bytes in chunks of four. */
  method Base64DecodeLoose(s: seq<Byte>) returns (out: Option<seq<Byte>>)
    ensures out == DecodeLoose(s)
  {
    var bytes := KeepSignificant(s);
    var acc: seq<Byte> := [];
    var at := 0;
    ghost var done: seq<Sextet> := [];
    while at < |bytes|
      invariant (at < |bytes| ==> at % 4 == 0) && ReadTo(bytes, at, done, acc)
    {
      var n := if |bytes| - at < 4 then |bytes| - at else 4;
      var buf := ReadChunk(bytes[at..at + n]);
      ChunkStep(bytes, at, n, done, acc);
      if buf.None? { return None; }
      acc := acc + GroupBytes(buf.value);
      done := done + buf.value;
      at := at + n;
    }
    AllRead(bytes, done, acc);
    return Some(acc);
  }

  // ---------- the standard encoder ----------

  function Letter(v: Sextet, urlSafe: bool): (c: char)
    ensures IsAscii(c)
  {
    if v < 26 then (65 + v) as char
    else if v < 52 then (71 + v) as char
    else if v < 62 then (v - 4) as char
    else if v == 62 then (if urlSafe then '-' else '+')
    else if urlSafe then '_' else '/'
  }

  /** The sextets of up to three bytes. */
  function SextetsOf(b: seq<Byte>): (s: seq<Sextet>)
    requires 1 <= |b| <= 3
    ensures |s| == |b| + 1
  {
    var b0: int := b[0];
    var b1: int := if |b| > 1 then b[1] else 0;
    var b2: int := if |b| > 2 then b[2] else 0;
    [b0 / 4, b0 % 4 * 16 + b1 / 16]
    + (if |b| > 1 then [b1 % 16 * 4 + b2 / 64] else [])
    + (if |b| > 2 then [b2 % 64] else [])
  }

  function Sextets(b: seq<Byte>): seq<Sextet> {
    if b == [] then []
    else if |b| <= 3 then SextetsOf(b)
    else SextetsOf(b[..3]) + Sextets(b[3..])
  }

  function Letters(s: seq<Sextet>, urlSafe: bool): (t: string)
    ensures |t| == |s| && forall k :: 0 <= k < |s| ==> t[k] == Letter(s[k], urlSafe)
  {
    if s == [] then "" else [Letter(s[0], urlSafe)] + Letters(s[1..], urlSafe)
  }

  /** Zero, one or two `=` complete the last group of four. */
  function Padding(n: nat): string {
    if n % 4 == 2 then "==" else if n % 4 == 3 then "=" else ""
  }

  /** Standard or URL-safe alphabet, padded or not. */
  function Encode64(b: seq<Byte>, urlSafe: bool, padded: bool): string {
    var letters := Letters(Sextets(b), urlSafe);
    letters + if padded then Padding(|letters|) else ""
  }

  lemma GroupRoundTrip(b: seq<Byte>)
    requires 1 <= |b| <= 3
    ensures GroupBytes(SextetsOf(b)) == b
  {
    var b0: int := b[0];
    var b1: int := if |b| > 1 then b[1] else 0;
    var b2: int := if |b| > 2 then b[2] else 0;
    assert (b0 % 4 * 16 + b1 / 16) / 16 == b0 % 4;
    assert (b0 % 4 * 16 + b1 / 16) * 16 % 256 == b1 / 16 * 16;
    assert (b1 % 16 * 4 + b2 / 64) / 4 == b1 % 16;
    assert (b1 % 16 * 4 + b2 / 64) * 64 % 256 == b2 / 64 * 64;
  }

  lemma {:induction false} RegroupSextets(b: seq<Byte>)
    ensures Regroup(Sextets(b)) == b
  {
    if b == [] {
    } else if |b| <= 3 {
      GroupRoundTrip(b);
    } else {
      GroupRoundTrip(b[..3]);
      RegroupSextets(b[3..]);
      RegroupConcat(SextetsOf(b[..3]), Sextets(b[3..]));
      assert b == b[..3] + b[3..];
    }
  }

  lemma LetterRoundTrip(v: Sextet, urlSafe: bool)
    ensures var c := Letter(v, urlSafe) as int; SextetOf(c) == Some(v) && !IsIgnored(c)
  {
  }

  lemma {:induction false} LettersDecode(s: seq<Sextet>, urlSafe: bool, rest: seq<Byte>)
    requires Significant(rest) == []
    ensures Values(Significant(Utf8.Encode(Letters(s, urlSafe)) + rest)) == Some(s)
  {
    var e := Utf8.Encode(Letters(s, urlSafe));
    if s == [] {
      assert e + rest == rest;
    } else {
      LetterRoundTrip(s[0], urlSafe);
      LettersDecode(s[1..], urlSafe, rest);
      var c: Byte := Letter(s[0], urlSafe) as int;
      var x := Utf8.Encode(Letters(s[1..], urlSafe)) + rest;
      assert e + rest == [c] + x;
      assert ([c] + x)[1..] == x;
      assert Significant([c] + x) == [c] + Significant(x);
      assert ([c] + Significant(x))[1..] == Significant(x);
      assert [s[0]] + s[1..] == s;
    }
  }

  /** Decoding inverts encoding for every byte string, in both alphabets, padded or not,
      and whatever extra padding follows. */
  lemma Base64RoundTrip(b: seq<Byte>, urlSafe: bool, padded: bool, more: seq<Byte>)
    requires forall k :: 0 <= k < |more| ==> more[k] == PAD
    ensures DecodeLoose(Utf8.Encode(Encode64(b, urlSafe, padded)) + more) == Some(b)
  {
    var letters := Letters(Sextets(b), urlSafe);
    var pad := if padded then Padding(|letters|) else "";
    Utf8.EncodeConcat(letters, pad);
    Utf8.EncodeAscii(pad);
    var tail := Utf8.Encode(pad) + more;
    AllPadIsNothing(tail);
    assert Utf8.Encode(Encode64(b, urlSafe, padded)) + more == Utf8.Encode(letters) + tail;
    LettersDecode(Sextets(b), urlSafe, tail);
    RegroupSextets(b);
  }

  lemma {:induction false} AllPadIsNothing(b: seq<Byte>)
    requires forall k :: 0 <= k < |b| ==> b[k] == PAD
    ensures Significant(b) == []
  {
    if b != [] { AllPadIsNothing(b[1..]); }
  }
}
