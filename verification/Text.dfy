/** Text as sequences of Unicode scalar values, with the slicing operations the proxy-line
    parser is made of. */
module Text {

  datatype Option<+T> = None | Some(value: T)

  /** The outcome of cutting a text at a separator. */
  datatype Cut = Whole | Parts(left: string, right: string)

  function NonEmpty(s: string): Option<string> {
    if s == "" then None else Some(s)
  }

  /** The White_Space property of Unicode, which is what `char::is_whitespace` tests. */
  predicate IsWhitespace(c: char) {
    var n := c as int;
    || 0x09 <= n <= 0x0D || n == 0x20 || n == 0x85 || n == 0xA0 || n == 0x1680
    || 0x2000 <= n <= 0x200A || n == 0x2028 || n == 0x2029 || n == 0x202F || n == 0x205F || n == 0x3000
  }

  ghost predicate AllWhitespace(s: string) {
    forall k :: 0 <= k < |s| ==> IsWhitespace(s[k])
  }

  // ---------- trimming ----------

  function TrimStart(s: string): string {
    if s != "" && IsWhitespace(s[0]) then TrimStart(s[1..]) else s
  }

  function TrimEnd(s: string): string {
    if s != "" && IsWhitespace(s[|s| - 1]) then TrimEnd(s[..|s| - 1]) else s
  }

  function Trim(s: string): string {
    TrimEnd(TrimStart(s))
  }

  ghost predicate HeadTrimmed(s: string) { s == "" || !IsWhitespace(s[0]) }
  ghost predicate TailTrimmed(s: string) { s == "" || !IsWhitespace(s[|s| - 1]) }

  lemma TrimmedIsFixed(s: string)
    requires HeadTrimmed(s) && TailTrimmed(s)
    ensures Trim(s) == s && TrimStart(s) == s && TrimEnd(s) == s
  {
  }

  /** Trimming the front drops blanks and nothing else. */
  lemma {:induction false} TrimStartSpec(s: string)
    ensures var r := TrimStart(s);
            HeadTrimmed(r) && |r| <= |s| && r == s[|s| - |r|..] && AllWhitespace(s[..|s| - |r|])
  {
    if s != "" && IsWhitespace(s[0]) {
      TrimStartSpec(s[1..]);
      var d := |s| - |TrimStart(s)|;
      assert s[..d] == [s[0]] + s[1..][..d - 1];
    }
  }

  lemma {:induction false} TrimEndSpec(s: string)
    ensures var r := TrimEnd(s); TailTrimmed(r) && |r| <= |s| && r == s[..|r|] && AllWhitespace(s[|r|..])
  {
    if s != "" && IsWhitespace(s[|s| - 1]) {
      var t := s[..|s| - 1];
      TrimEndSpec(t);
      var n := |TrimEnd(s)|;
      assert s[n..] == t[n..] + [s[|s| - 1]];
    }
  }

  lemma TrimIsTrimmed(s: string)
    ensures HeadTrimmed(Trim(s)) && TailTrimmed(Trim(s))
  {
    TrimStartSpec(s);
    TrimEndSpec(TrimStart(s));
  }

  lemma {:induction false} TrimStartJoin(a: string, c: char, b: string)
    requires !IsWhitespace(c)
    ensures TrimStart(a + [c] + b) == TrimStart(a) + [c] + b
  {
    if a == "" {
      assert a + [c] + b == [c] + b;
    } else {
      assert (a + [c] + b)[0] == a[0];
      if IsWhitespace(a[0]) {
        assert (a + [c] + b)[1..] == a[1..] + [c] + b;
        TrimStartJoin(a[1..], c, b);
      }
    }
  }

  lemma {:induction false} TrimEndJoin(a: string, c: char, b: string)
    requires !IsWhitespace(c)
    ensures TrimEnd(a + [c] + b) == a + [c] + TrimEnd(b)
  {
    var s := a + [c] + b;
    if b == "" {
      assert s[|s| - 1] == c;
    } else {
      assert s[|s| - 1] == b[|b| - 1];
      if IsWhitespace(b[|b| - 1]) {
        assert s[..|s| - 1] == a + [c] + b[..|b| - 1];
        TrimEndJoin(a, c, b[..|b| - 1]);
      }
    }
  }

  /** Trimming around a visible separator trims the two sides separately. */
  lemma TrimJoin(a: string, c: char, b: string)
    requires !IsWhitespace(c)
    ensures Trim(a + [c] + b) == TrimStart(a) + [c] + TrimEnd(b)
  {
    TrimStartJoin(a, c, b);
    TrimEndJoin(TrimStart(a), c, b);
  }

  lemma {:induction false} TrimOfTrimStart(s: string)
    ensures Trim(TrimStart(s)) == Trim(s)
  {
    TrimStartSpec(s);
  }

  lemma {:induction false} TrimOfTrimEnd(s: string)
    ensures Trim(TrimEnd(s)) == Trim(s)
    decreases |s|
  {
    if s != "" && IsWhitespace(s[|s| - 1]) {
      var t := s[..|s| - 1];
      TrimOfTrimEnd(t);
      TrimDropLast(s);
    } else {
      assert TrimEnd(s) == s;
    }
  }

  lemma {:induction false} TrimDropLast(s: string)
    requires s != "" && IsWhitespace(s[|s| - 1])
    ensures Trim(s[..|s| - 1]) == Trim(s)
  {
    if |s| > 1 && IsWhitespace(s[0]) {
      assert s[..|s| - 1][1..] == s[1..][..|s| - 2];
      TrimDropLast(s[1..]);
    } else if |s| == 1 {
      assert s[1..] == "" && s[..0] == "";
    }
  }

  // ---------- cutting at one character ----------

  /** The first position of `c`, or the length when there is none. */
  function IndexOf(s: string, c: char): (i: nat)
    ensures i <= |s|
  {
    if s == "" || s[0] == c then 0 else 1 + IndexOf(s[1..], c)
  }

  lemma {:induction false} IndexOfSpec(s: string, c: char)
    ensures var i := IndexOf(s, c); c !in s[..i] && (i < |s| ==> s[i] == c)
  {
    if s != "" && s[0] != c {
      IndexOfSpec(s[1..], c);
      var j := IndexOf(s[1..], c);
      assert s[..j + 1] == [s[0]] + s[1..][..j];
    }
  }

  /** The last position of `c`, or the length when there is none. */
  function LastIndexOf(s: string, c: char): (i: nat)
    ensures i <= |s|
  {
    if s == "" then 0
    else if s[|s| - 1] == c then |s| - 1
    else
      var j := LastIndexOf(s[..|s| - 1], c);
      if j == |s| - 1 then |s| else j
  }

  lemma {:induction false} LastIndexOfSpec(s: string, c: char)
    ensures var i := LastIndexOf(s, c);
            if i < |s| then s[i] == c && c !in s[i + 1..] else c !in s
  {
    if s != "" && s[|s| - 1] != c {
      var t := s[..|s| - 1];
      LastIndexOfSpec(t, c);
      assert s == t + [s[|s| - 1]];
      var j := LastIndexOf(t, c);
      if j < |t| { assert s[j + 1..] == t[j + 1..] + [s[|s| - 1]]; }
    }
  }

  function SplitOnce(s: string, c: char): Cut {
    var i := IndexOf(s, c);
    if i == |s| then Whole else Parts(s[..i], s[i + 1..])
  }

  function RSplitOnce(s: string, c: char): Cut {
    var i := LastIndexOf(s, c);
    if i == |s| then Whole else Parts(s[..i], s[i + 1..])
  }

  lemma SplitOnceAt(a: string, c: char, b: string)
    requires c !in a
    ensures SplitOnce(a + [c] + b, c) == Parts(a, b)
  {
    var s := a + [c] + b;
    IndexOfSpec(s, c);
    assert s[|a|] == c;
    assert forall k :: 0 <= k < |a| ==> s[k] == a[k];
    assert forall k :: |a| < k <= |s| ==> c in s[..k];
  }

  lemma RSplitOnceAt(a: string, c: char, b: string)
    requires c !in b
    ensures RSplitOnce(a + [c] + b, c) == Parts(a, b)
  {
    var s := a + [c] + b;
    LastIndexOfSpec(s, c);
    assert s[|a|] == c;
    assert forall k :: |a| < k < |s| ==> s[k] == b[k - |a| - 1];
    forall k | 0 < k <= |a| ensures c in s[k..] { assert s[k..][|a| - k] == c; }
  }

  lemma SplitOnceNone(s: string, c: char)
    requires c !in s
    ensures SplitOnce(s, c) == Whole && RSplitOnce(s, c) == Whole
  {
    IndexOfSpec(s, c);
    LastIndexOfSpec(s, c);
  }

  /** What a cut says about the text it came from. */
  lemma SplitOnceParts(s: string, c: char)
    ensures SplitOnce(s, c).Whole? <==> c !in s
    ensures SplitOnce(s, c).Parts? ==>
              var p := SplitOnce(s, c); s == p.left + [c] + p.right && c !in p.left
  {
    IndexOfSpec(s, c);
    var i := IndexOf(s, c);
    if i < |s| { assert s == s[..i] + [c] + s[i + 1..]; } else { assert s[..i] == s; }
  }

  lemma RSplitOnceParts(s: string, c: char)
    ensures RSplitOnce(s, c).Whole? <==> c !in s
    ensures RSplitOnce(s, c).Parts? ==>
              var p := RSplitOnce(s, c); s == p.left + [c] + p.right && c !in p.right
  {
    LastIndexOfSpec(s, c);
    var i := LastIndexOf(s, c);
    if i < |s| { assert s == s[..i] + [c] + s[i + 1..]; }
  }

  // ---------- cutting at the scheme separator ----------

  predicate SepAt(s: string, i: nat) {
    i + 3 <= |s| && s[i] == ':' && s[i + 1] == '/' && s[i + 2] == '/'
  }

  ghost predicate HasSep(s: string) {
    exists i: nat :: SepAt(s, i)
  }

  function SepIndex(s: string, from: nat): (i: nat)
    requires from <= |s|
    ensures from <= i <= |s| && (i < |s| ==> i + 3 <= |s|)
    decreases |s| - from
  {
    if from == |s| || SepAt(s, from) then from else SepIndex(s, from + 1)
  }

  lemma {:induction false} SepIndexSpec(s: string, from: nat)
    requires from <= |s|
    ensures var i := SepIndex(s, from);
            (forall k: nat :: from <= k < i ==> !SepAt(s, k)) && (i < |s| ==> SepAt(s, i))
    decreases |s| - from
  {
    if from < |s| && !SepAt(s, from) { SepIndexSpec(s, from + 1); }
  }

  /** Cut at the first `://`. */
  function SplitScheme(s: string): Cut {
    var i := SepIndex(s, 0);
    if i == |s| then Whole else Parts(s[..i], s[i + 3..])
  }

  lemma SplitSchemeAt(a: string, b: string)
    requires !HasSep(a)
    ensures SplitScheme(a + "://" + b) == Parts(a, b)
  {
    var s := a + "://" + b;
    SepIndexSpec(s, 0);
    assert SepAt(s, |a|);
    assert forall k :: 0 <= k < |a| ==> s[k] == a[k];
    assert forall k: nat :: k < |a| && SepAt(s, k) ==> SepAt(a, k);
  }

  lemma SplitSchemeNone(s: string)
    requires !HasSep(s)
    ensures SplitScheme(s) == Whole
  {
    SepIndexSpec(s, 0);
  }

  lemma SplitSchemeParts(s: string)
    ensures SplitScheme(s).Whole? <==> !HasSep(s)
    ensures SplitScheme(s).Parts? ==>
              var p := SplitScheme(s); s == p.left + "://" + p.right && !HasSep(p.left)
  {
    SepIndexSpec(s, 0);
    var i := SepIndex(s, 0);
    if i < |s| {
      assert s == s[..i] + "://" + s[i + 3..];
      forall k: nat ensures !SepAt(s[..i], k) {
        if SepAt(s[..i], k) { assert SepAt(s, k); }
      }
    }
  }

  // ---------- ASCII letters and digits ----------

  predicate IsDigit(c: char) { '0' <= c <= '9' }

  predicate IsAsciiAlnum(c: char) { IsDigit(c) || 'a' <= c <= 'z' || 'A' <= c <= 'Z' }

  predicate IsHexDigit(c: char) { IsDigit(c) || 'a' <= c <= 'f' || 'A' <= c <= 'F' }

  function LowerChar(c: char): char {
    if 'A' <= c <= 'Z' then (c as int + 32) as char else c
  }

  /** `to_ascii_lowercase`. */
  function Lower(s: string): (r: string)
    ensures |r| == |s| && forall k :: 0 <= k < |s| ==> r[k] == LowerChar(s[k])
  {
    if s == "" then "" else [LowerChar(s[0])] + Lower(s[1..])
  }

  lemma LowerTwice(s: string)
    ensures Lower(Lower(s)) == Lower(s)
  {
  }

  function DigitsValue(s: string): (n: nat)
    requires forall k :: 0 <= k < |s| ==> IsDigit(s[k])
  {
    if s == "" then 0 else
      assert IsDigit(s[|s| - 1]);
      DigitsValue(s[..|s| - 1]) * 10 + (s[|s| - 1] as int - '0' as int)
  }
}
