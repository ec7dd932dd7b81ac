/** Removing leaked DSML tool-protocol markers from a complete text. */
module Dsml {
  import opened Text

  const BAR: char := '\U{FF5C}'

  // ---------- markers ----------

  function SkipBlanks(s: string): string {
    if s != "" && IsWhitespace(s[0]) then SkipBlanks(s[1..]) else s
  }

  /** Case-insensitive in the text, as the keywords are lower case. */
  predicate StartsWithKeyword(s: string, kw: string) {
    |kw| <= |s| && forall k :: 0 <= k < |kw| ==> LowerChar(s[k]) == kw[k]
  }

  predicate StartsKeyword(s: string) {
    StartsWithKeyword(s, "dsml") || StartsWithKeyword(s, "tool") || StartsWithKeyword(s, "function")
  }

  /** Length of the opener `<|` or `</|` (with the full-width bar) at the front, 0 if none. */
  function OpenerLength(s: string): (n: nat)
    ensures n <= |s|
  {
    if |s| >= 3 && s[0] == '<' && s[1] == '/' && s[2] == BAR then 3
    else if |s| >= 2 && s[0] == '<' && s[1] == BAR then 2
    else 0
  }

  /** `looks_like_dsml_marker` behind an opener: blanks, line feeds included, may stand
      between the opener and the keyword. */
  predicate IsMarker(s: string) {
    OpenerLength(s) > 0 && StartsKeyword(SkipBlanks(s[OpenerLength(s)..]))
  }

  predicate EndsSpan(c: char) { c == '>' || c == '\n' }

  /** How much a marker at the front takes with it: through its first `>` or line feed. */
  function SpanLength(s: string): (n: nat)
    ensures n <= |s| && (s != "" ==> n > 0)
    ensures forall k :: 0 <= k < n - 1 ==> !EndsSpan(s[k])
    ensures n == |s| || EndsSpan(s[n - 1])
  {
    if s == "" then 0 else if EndsSpan(s[0]) then 1 else 1 + SpanLength(s[1..])
  }

  function Strip(s: string): string
    decreases |s|
  {
    if s == "" then ""
    else if IsMarker(s) then Strip(s[SpanLength(s)..])
    else [s[0]] + Strip(s[1..])
  }

  // ---------- the loop form ----------

  method LooksLikeDsmlMarker(chars: string, from: nat) returns (yes: bool)
    requires from <= |chars|
    ensures yes == StartsKeyword(SkipBlanks(chars[from..]))
  {
    var k := from;
    while k < |chars| && IsWhitespace(chars[k])
      invariant from <= k <= |chars| && SkipBlanks(chars[k..]) == SkipBlanks(chars[from..])
    {
      assert chars[k..][1..] == chars[k + 1..];
      k := k + 1;
    }
    yes := StartsKeyword(chars[k..]);
  }

  lemma SpanAt(s: string, rel: nat)
    requires rel <= |s| && (forall k :: 0 <= k < rel ==> !EndsSpan(s[k])) && (rel < |s| ==> EndsSpan(s[rel]))
    ensures SpanLength(s) == if rel < |s| then rel + 1 else |s|
  {
  }

  lemma NoMarkerWithoutOpener(s: string)
    requires '<' !in s
    ensures Strip(s) == s
  {
    if s != "" {
      NoMarkerWithoutOpener(s[1..]);
      assert [s[0]] + s[1..] == s;
    }
  }

  /** Distance from `i` to the first `>` or line feed, or to the end. */
  method FindSpanEnd(text: string, i: nat) returns (rel: nat)
    requires i < |text|
    ensures i + rel <= |text|
    ensures SpanLength(text[i..]) == if i + rel < |text| then rel + 1 else rel
  {
    rel := 0;
    ghost var s := text[i..];
    while i + rel < |text| && !EndsSpan(text[i + rel])
      invariant i + rel <= |text| && forall k :: 0 <= k < rel ==> !EndsSpan(s[k])
    {
      rel := rel + 1;
    }
    SpanAt(s, rel);
  }

  predicate IsOpenOpener(text: string, i: nat) { i + 1 < |text| && text[i] == '<' && text[i + 1] == BAR }

  predicate IsCloseOpener(text: string, i: nat) {
    i + 2 < |text| && text[i] == '<' && text[i + 1] == '/' && text[i + 2] == BAR
  }

  lemma OpenerAt(text: string, i: nat)
    requires i < |text|
    ensures OpenerLength(text[i..]) == if IsCloseOpener(text, i) then 3 else if IsOpenOpener(text, i) then 2 else 0
    ensures var n := OpenerLength(text[i..]); i + n <= |text| && text[i..][n..] == text[i + n..]
  {
  }

  /** The scan stands at `i` with `out` behind it. */
  ghost predicate StripsFrom(text: string, i: nat, out: string) {
    i <= |text| && out + Strip(text[i..]) == Strip(text)
  }

  lemma Dropped(text: string, i: nat, out: string, n: nat)
    requires StripsFrom(text, i, out) && i < |text| && IsMarker(text[i..]) && n == SpanLength(text[i..])
    ensures StripsFrom(text, i + n, out)
  {
    assert text[i..][n..] == text[i + n..];
  }

  lemma Kept(text: string, i: nat, out: string)
    requires StripsFrom(text, i, out) && i < |text| && !IsMarker(text[i..])
    ensures StripsFrom(text, i + 1, out + [text[i]])
  {
    assert text[i..][1..] == text[i + 1..];
    assert out + ([text[i]] + Strip(text[i + 1..])) == out + [text[i]] + Strip(text[i + 1..]);
  }

  lemma NothingScanned(text: string)
    ensures StripsFrom(text, 0, "")
  {
    assert text[0..] == text && "" + Strip(text) == Strip(text);
  }

  lemma AllScanned(text: string, out: string)
    requires StripsFrom(text, |text|, out)
    ensures out == Strip(text)
  {
    assert text[|text|..] == "" && out + "" == out;
  }

  /** How much goes at position `i`: the whole marker that starts there, or nothing. */
  method MarkerSpan(text: string, i: nat) returns (n: nat)
    requires i < |text|
    ensures n > 0 <==> IsMarker(text[i..])
    ensures n > 0 ==> n == SpanLength(text[i..])
  {
    OpenerAt(text, i);
    var isClose := IsCloseOpener(text, i);
    if !IsOpenOpener(text, i) && !isClose { return 0; }
    var marker := LooksLikeDsmlMarker(text, if isClose then i + 3 else i + 2);
    if !marker { return 0; }
    var rel := FindSpanEnd(text, i);
    return if i + rel < |text| then rel + 1 else rel;
  }

  /** `strip_dsml_from_complete_text`. */
  method StripDsmlFromCompleteText(text: string) returns (out: string)
    ensures out == Strip(text)
  {
    if '<' !in text {
      NoMarkerWithoutOpener(text);
      return text;
    }
    out := "";
    var i := 0;
    NothingScanned(text);
    while i < |text|
      invariant StripsFrom(text, i, out)
    {
      var n := MarkerSpan(text, i);
      if n > 0 {
        Dropped(text, i, out, n);
        i := i + n;
      } else {
        Kept(text, i, out);
        out := out + [text[i]];
        i := i + 1;
      }
    }
    AllScanned(text, out);
  }

  // ---------- what stripping removes ----------

  /** A kept character or a dropped stretch. */
  datatype Piece = Keep(c: char) | Drop(span: string)
  {
    function Source(): string { match this case Keep(c) => [c] case Drop(span) => span }
    function Shown(): string { match this case Keep(c) => [c] case Drop(_) => "" }
  }

  function Source(ps: seq<Piece>): string {
    if ps == [] then "" else ps[0].Source() + Source(ps[1..])
  }

  function Shown(ps: seq<Piece>): string {
    if ps == [] then "" else ps[0].Shown() + Shown(ps[1..])
  }

  /** At the front of `rest`, a dropped stretch is a real marker up to its first `>` or line
      feed, or to the end of the text, and a kept character starts no marker. Markers are
      judged in the whole rest of the text, not only in the stretch. */
  ghost predicate Fits(p: Piece, rest: string) {
    if p.Keep? then !IsMarker(rest) else IsMarker(rest) && p.span == rest[..SpanLength(rest)]
  }

  ghost predicate Exact(ps: seq<Piece>) {
    ps == [] || (Exact(ps[1..]) && Fits(ps[0], Source(ps)))
  }

  function Pieces(s: string): seq<Piece>
    decreases |s|
  {
    if s == "" then []
    else if IsMarker(s) then [Drop(s[..SpanLength(s)])] + Pieces(s[SpanLength(s)..])
    else [Keep(s[0])] + Pieces(s[1..])
  }

  /** The first piece of a text. */
  function FirstPiece(s: string): Piece
    requires s != ""
  {
    if IsMarker(s) then Drop(s[..SpanLength(s)]) else Keep(s[0])
  }

  lemma Unfolded(s: string, n: nat)
    requires s != "" && n == |FirstPiece(s).Source()|
    ensures 0 < n <= |s| && s[..n] == FirstPiece(s).Source()
    ensures Pieces(s) == [FirstPiece(s)] + Pieces(s[n..])
    ensures Strip(s) == FirstPiece(s).Shown() + Strip(s[n..])
  {
  }

  lemma ConsPiece(p: Piece, rest: seq<Piece>)
    ensures Source([p] + rest) == p.Source() + Source(rest)
    ensures Shown([p] + rest) == p.Shown() + Shown(rest)
    ensures Exact([p] + rest) <==> Exact(rest) && Fits(p, p.Source() + Source(rest))
  {
    assert ([p] + rest)[1..] == rest;
  }

  lemma ConsExact(s: string, n: nat, p: Piece, rest: seq<Piece>)
    requires n <= |s| && s[..n] == p.Source() && Fits(p, s)
    requires Source(rest) == s[n..] && Exact(rest)
    ensures Source([p] + rest) == s && Exact([p] + rest) && Shown([p] + rest) == p.Shown() + Shown(rest)
  {
    ConsPiece(p, rest);
    assert s == s[..n] + s[n..];
  }

  /** The input splits into kept characters and dropped markers, and the output is what is
      kept. */
  lemma {:induction false} StripIsExact(s: string)
    ensures var ps := Pieces(s); Source(ps) == s && Shown(ps) == Strip(s) && Exact(ps)
    decreases |s|
  {
    if s != "" {
      var p := FirstPiece(s);
      var n := |p.Source()|;
      Unfolded(s, n);
      StripIsExact(s[n..]);
      ConsExact(s, n, p, Pieces(s[n..]));
    }
  }

  lemma PiecesOfFirst(p: Piece, rest: string)
    requires Fits(p, p.Source() + rest)
    ensures Pieces(p.Source() + rest) == [p] + Pieces(rest)
  {
    var s := p.Source() + rest;
    assert s[|p.Source()|..] == rest;
  }

  /** There is only one such split, so these clauses determine the output. */
  lemma StripIsUnique(ps: seq<Piece>)
    requires Exact(ps)
    ensures Pieces(Source(ps)) == ps && Strip(Source(ps)) == Shown(ps)
  {
    SplitIsUnique(ps);
    StripIsExact(Source(ps));
  }

  lemma {:induction false} SplitIsUnique(ps: seq<Piece>)
    requires Exact(ps)
    ensures Pieces(Source(ps)) == ps
    decreases |ps|
  {
    if ps != [] {
      SplitIsUnique(ps[1..]);
      UniqueStep(ps[0], ps[1..]);
      assert ps == [ps[0]] + ps[1..];
    }
  }

  lemma UniqueStep(p: Piece, rest: seq<Piece>)
    requires Fits(p, p.Source() + Source(rest)) && Pieces(Source(rest)) == rest
    ensures Pieces(Source([p] + rest)) == [p] + rest
  {
    ConsPiece(p, rest);
    PiecesOfFirst(p, Source(rest));
  }

  // ---------- stripping line by line ----------

  ghost predicate AllBlank(s: string) { forall k :: 0 <= k < |s| ==> IsWhitespace(s[k]) }

  /** An opener with nothing but blanks behind it. */
  ghost predicate IsDangling(s: string) { OpenerLength(s) > 0 && AllBlank(s[OpenerLength(s)..]) }

  lemma {:induction false} SkipBlanksOver(a: string, b: string)
    ensures AllBlank(a) ==> SkipBlanks(a + b) == SkipBlanks(b)
    ensures !AllBlank(a) ==> SkipBlanks(a) != "" && SkipBlanks(a + b) == SkipBlanks(a) + b
  {
    if a == "" {
      assert a + b == b;
    } else {
      assert (a + b)[1..] == a[1..] + b && (a + b)[0] == a[0];
      if IsWhitespace(a[0]) {
        SkipBlanksOver(a[1..], b);
        assert AllBlank(a) <==> AllBlank(a[1..]);
      }
    }
  }

  lemma KeywordBeforeLineFeed(s: string, b: string)
    ensures StartsKeyword(s + "\n" + b) <==> StartsKeyword(s)
  {
    KeywordCut(s, b, "dsml");
    KeywordCut(s, b, "tool");
    KeywordCut(s, b, "function");
  }

  lemma KeywordCut(s: string, b: string, kw: string)
    requires forall k :: 0 <= k < |kw| ==> kw[k] != '\n'
    ensures StartsWithKeyword(s + "\n" + b, kw) <==> StartsWithKeyword(s, kw)
  {
    var t := s + "\n" + b;
    assert t[|s|] == '\n' && LowerChar('\n') == '\n';
    assert forall k :: 0 <= k < |s| ==> t[k] == s[k];
  }

  lemma KeywordNotBlank(s: string)
    ensures StartsKeyword(s) ==> s != ""
  {
  }

  lemma OpenerBeforeLineFeed(a: string, b: string)
    requires a != ""
    ensures OpenerLength(a + "\n" + b) == OpenerLength(a)
    ensures OpenerLength(a) > 0 ==> (a + "\n" + b)[OpenerLength(a)..] == a[OpenerLength(a)..] + "\n" + b
  {
    var t := a + "\n" + b;
    assert t[|a|] == '\n' && forall k :: 0 <= k < |a| ==> t[k] == a[k];
  }

  lemma KeywordAfterBlanks(x: string, b: string)
    ensures StartsKeyword(SkipBlanks(x + "\n" + b)) <==>
            if AllBlank(x) then StartsKeyword(SkipBlanks(b)) else StartsKeyword(SkipBlanks(x))
  {
    if AllBlank(x) {
      assert AllBlank(x + "\n");
      SkipBlanksOver(x + "\n", b);
    } else {
      assert x + "\n" + b == x + ("\n" + b);
      SkipBlanksOver(x, "\n" + b);
      KeywordBeforeLineFeed(SkipBlanks(x), b);
      assert SkipBlanks(x) + ("\n" + b) == SkipBlanks(x) + "\n" + b;
    }
  }

  lemma MarkerBeforeLineFeed(a: string, b: string)
    requires a != ""
    ensures IsMarker(a + "\n" + b) <==>
            OpenerLength(a) > 0 && StartsKeyword(SkipBlanks(if IsDangling(a) then b else a[OpenerLength(a)..]))
  {
    OpenerBeforeLineFeed(a, b);
    KeywordAfterBlanks(a[OpenerLength(a)..], b);
  }

  /** What follows a line feed matters to a marker before it only if the opener dangles and
      the keyword comes in the text behind. */
  lemma MarkerAcross(a: string, b: string)
    requires a != ""
    ensures IsMarker(a + "\n" + b) <==>
            if IsDangling(a) then StartsKeyword(SkipBlanks(b)) else IsMarker(a + "\n")
    ensures IsDangling(a) ==> !IsMarker(a + "\n")
  {
    MarkerBeforeLineFeed(a, b);
    MarkerBeforeLineFeed(a, "");
    assert a + "\n" + "" == a + "\n";
    KeywordNotBlank(SkipBlanks(""));
  }

  lemma {:induction false} SpanStopsAtLineFeed(a: string, b: string)
    ensures SpanLength(a + "\n" + b) == SpanLength(a + "\n") <= |a| + 1
  {
    if a == "" {
    } else {
      assert (a + "\n" + b)[1..] == a[1..] + "\n" + b;
      assert (a + "\n")[1..] == a[1..] + "\n";
      SpanStopsAtLineFeed(a[1..], b);
    }
  }

  /** The scan of `s` reaches position `i` and keeps the character there. */
  ghost predicate KeptAt(s: string, i: nat)
    decreases |s|
  {
    if s == "" then false
    else if IsMarker(s) then i >= SpanLength(s) && KeptAt(s[SpanLength(s)..], i - SpanLength(s))
    else i == 0 || KeptAt(s[1..], i - 1)
  }

  /** The one way two texts interact across a line break: the first keeps a dangling opener
      and the second begins, after blanks, with a keyword. */
  ghost predicate Interacts(a: string, b: string) {
    StartsKeyword(SkipBlanks(b)) && exists i: nat :: i < |a| && KeptAt(a + "\n", i) && IsDangling(a[i..])
  }

  lemma {:induction false} BlanksStay(x: string, y: string)
    requires AllBlank(x)
    ensures Strip(x + y) == x + Strip(y)
  {
    if x == "" {
      assert x + y == y && "" + Strip(y) == Strip(y);
    } else {
      assert (x + y)[0] == x[0] && IsWhitespace(x[0]) && (x + y)[1..] == x[1..] + y;
      BlanksStay(x[1..], y);
      assert [x[0]] + (x[1..] + Strip(y)) == x + Strip(y);
    }
  }

  lemma DanglingStays(a: string)
    requires IsDangling(a)
    ensures Strip(a + "\n") == a + "\n"
  {
    var u := a + "\n";
    MarkerAcross(a, "");
    var k := OpenerLength(a);
    assert u[1..] == a[1..k] + a[k..] + "\n";
    assert '<' !in a[1..k] && '<' !in a[k..];
    NoMarkerWithoutOpener(u[1..]);
    assert [u[0]] + u[1..] == u;
  }

  lemma DanglingTaken(a: string, b: string)
    requires IsDangling(a) && StartsKeyword(SkipBlanks(b))
    ensures |Strip(a + "\n" + b)| <= |a| + |Strip(b)|
  {
    var t := a + "\n" + b;
    MarkerAcross(a, b);
    SpanStopsAtLineFeed(a, b);
    OpenerBeforeLineFeed(a, b);
    var n := SpanLength(t);
    if n == |a| + 1 {
      assert t[n..] == b;
    } else {
      var k := OpenerLength(t);
      assert n > k by { assert EndsSpan(t[n - 1]) && forall j :: 0 <= j < k ==> !EndsSpan(t[j]); }
      BlankRest(a, b, k, n);
      BlanksStay(a[n..] + "\n", b);
    }
  }

  lemma BlankRest(a: string, b: string, k: nat, n: nat)
    requires k < n <= |a| && AllBlank(a[k..])
    ensures AllBlank(a[n..] + "\n") && (a + "\n" + b)[n..] == (a[n..] + "\n") + b
  {
    assert a[n..] == a[k..][n - k..];
  }

  /** A dangling opener stays by itself, and goes once a keyword follows. */
  lemma DanglingLoses(a: string, b: string)
    requires IsDangling(a) && StartsKeyword(SkipBlanks(b))
    ensures !LineByLine(a, b)
  {
    DanglingStays(a);
    DanglingTaken(a, b);
  }

  ghost predicate LineByLine(a: string, b: string) {
    Strip(a + "\n" + b) == Strip(a + "\n") + Strip(b)
  }

  lemma KeepStep(a: string, b: string)
    requires a != "" && !IsMarker(a + "\n" + b) && !IsMarker(a + "\n")
    ensures LineByLine(a, b) <==> LineByLine(a[1..], b)
  {
    var t, u := a + "\n" + b, a + "\n";
    assert t[1..] == a[1..] + "\n" + b && u[1..] == a[1..] + "\n";
    var x, y, z := Strip(t[1..]), Strip(u[1..]), Strip(b);
    assert ([a[0]] + y) + z == [a[0]] + (y + z);
    assert ([a[0]] + x)[1..] == x && ([a[0]] + (y + z))[1..] == y + z;
  }

  lemma StripMarker(s: string, n: nat, rest: string)
    requires IsMarker(s) && n == SpanLength(s) && s[n..] == rest
    ensures Strip(s) == Strip(rest)
  {
  }

  lemma RestOfLine(a: string, b: string, n: nat)
    requires n <= |a| + 1
    ensures n == |a| + 1 ==> (a + "\n" + b)[n..] == b && (a + "\n")[n..] == ""
    ensures n <= |a| ==> (a + "\n" + b)[n..] == a[n..] + "\n" + b && (a + "\n")[n..] == a[n..] + "\n"
  {
  }

  lemma DropStep(a: string, b: string, n: nat)
    requires IsMarker(a + "\n" + b) && IsMarker(a + "\n")
             && n == SpanLength(a + "\n") == SpanLength(a + "\n" + b) <= |a| + 1
    ensures LineByLine(a, b) <==> n == |a| + 1 || LineByLine(a[n..], b)
  {
    RestOfLine(a, b, n);
    StripMarker(a + "\n" + b, n, (a + "\n" + b)[n..]);
    StripMarker(a + "\n", n, (a + "\n")[n..]);
    assert "" + Strip(b) == Strip(b);
  }

  /** One scanning step of `n` characters shifts the interaction. */
  lemma InteractsShift(a: string, b: string, n: nat)
    requires 0 < n <= |a|
    requires forall i: nat :: i < |a| ==> (KeptAt(a + "\n", i) && IsDangling(a[i..]) && StartsKeyword(SkipBlanks(b))
                                           <==> i >= n && KeptAt(a[n..] + "\n", i - n) && IsDangling(a[i..])
                                                && StartsKeyword(SkipBlanks(b)))
    ensures Interacts(a, b) <==> Interacts(a[n..], b)
  {
    var a' := a[n..];
    if Interacts(a, b) {
      var i: nat :| i < |a| && KeptAt(a + "\n", i) && IsDangling(a[i..]);
      assert a'[i - n..] == a[i..];
    }
    if Interacts(a', b) {
      var j: nat :| j < |a'| && KeptAt(a' + "\n", j) && IsDangling(a'[j..]);
      assert a'[j..] == a[j + n..];
      assert KeptAt(a + "\n", j + n);
    }
  }

  lemma KeptShift(a: string, n: nat, i: nat)
    requires a != "" && i < |a| && n == if IsMarker(a + "\n") then SpanLength(a + "\n") else 1
    requires n <= |a|
    ensures KeptAt(a + "\n", i) <==>
            (n == 1 && i == 0 && !IsMarker(a + "\n")) || (i >= n && KeptAt(a[n..] + "\n", i - n))
  {
    assert (a + "\n")[n..] == a[n..] + "\n";
  }

  /** Stripping can be done line by line exactly when the two parts do not interact: only a
      kept opener left dangling at the end of the first part, taken up by a keyword at the
      start of the second, makes a difference. */
  lemma {:induction false} StripAcross(a: string, b: string)
    ensures Strip(a + "\n" + b) == Strip(a + "\n") + Strip(b) <==> !Interacts(a, b)
    decreases |a|
  {
    var u := a + "\n";
    if a == "" {
      var t := "\n" + b;
      assert a + "\n" + b == t && t[1..] == b && u == "\n" && u[1..] == "";
    } else {
      MarkerAcross(a, b);
      assert a[0..] == a;
      if IsDangling(a) && StartsKeyword(SkipBlanks(b)) {
        assert KeptAt(u, 0);
        DanglingLoses(a, b);
      } else {
        var n := if IsMarker(u) then SpanLength(u) else 1;
        SpanStopsAtLineFeed(a, b);
        if IsMarker(u) { DropStep(a, b, n); } else { KeepStep(a, b); }
        if n <= |a| {
          StripAcross(a[n..], b);
          forall i: nat | i < |a| { KeptShift(a, n, i); }
          InteractsShift(a, b, n);
        }
      }
    }
  }

  /** What a caller can see without scanning: a first part in which no opener stands before
      nothing but blanks can be stripped on its own. */
  lemma LineByLineUnlessDangling(a: string, b: string)
    requires forall i: nat :: i < |a| ==> !IsDangling(a[i..])
    ensures Strip(a + "\n" + b) == Strip(a + "\n") + Strip(b)
  {
    StripAcross(a, b);
  }

  /** Or a second part that does not begin with a keyword. */
  lemma LineByLineUnlessKeyword(a: string, b: string)
    requires !StartsKeyword(SkipBlanks(b))
    ensures Strip(a + "\n" + b) == Strip(a + "\n") + Strip(b)
  {
    StripAcross(a, b);
  }

  /** For one pair it cannot: an opener alone on its line and `tool>` on the next. */
  lemma DanglingExample()
    ensures var a := ['<', BAR]; Strip(a + "\n" + "tool>") != Strip(a + "\n") + Strip("tool>")
  {
    var a: string := ['<', BAR];
    assert a[0..] == a && OpenerLength(a) == 2 && a[2..] == "";
    assert StartsWithKeyword("tool>", "tool");
    MarkerAcross(a, "tool>");
    assert KeptAt(a + "\n", 0);
    StripAcross(a, "tool>");
  }
}
