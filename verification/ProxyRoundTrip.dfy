/** Printing and parsing of proxy links: canonical lines pass normalisation untouched, every
    parsed link survives printing, and base64 share links give back their user and password. */
module ProxyRoundTrip {
  import opened Text
  import opened ProxyLink
  import opened ProxyNormalize
  import opened ProxyAgreement
  import Percent
  import Base64
  import Utf8

  // ---------- canonical lines stay ----------

  lemma HostAtom(h: string)
    requires IsHost(h)
    ensures IsAtom(h)
  {
    if IsBracketed(h) {
      var inner := h[1..|h| - 1];
      assert h == "[" + inner + "]";
      BracketAtom(inner);
    } else {
      assert forall k :: 0 <= k < |h| ==> IsHostChar(h[k]);
      PlainAtom(h);
    }
  }

  /** No brackets in a port text. */
  lemma PortTextAtom(p: string)
    requires IsPort(p)
    ensures IsAtom(p)
  {
    var digits := if p[0] == '+' then p[1..] else p;
    assert forall k :: 0 <= k < |p| ==> p[k] == '+' || IsDigit(p[k]) by {
      assert forall k :: 1 <= k < |p| && p[0] == '+' ==> p[k] == digits[k - 1];
    }
    PlainAtom(p);
  }

  lemma AddressIsShort(h: string, p: string)
    requires IsHost(h) && IsPort(p)
    ensures ReadColons(h + ":" + p) == NotOurs
  {
    HostAtom(h);
    PortTextAtom(p);
    AtomThen(h, p);
  }

  lemma AddressParses(h: string, p: string)
    requires IsHost(h) && IsPort(p)
    ensures ParseStrict(h + ":" + p).Ok?
  {
    var l := Line(None, None, h, p, None);
    ParseRendered(l);
    assert l.Render() == h + ":" + p;
  }

  lemma CutRest(l: Line)
    requires '@' !in l.Address()
    ensures RSplitOnce(l.Rest(), '@') ==
            if l.userinfo.Some? then Parts(l.userinfo.value, l.Address()) else Whole
  {
    if l.userinfo.Some? {
      assert l.Rest() == l.userinfo.value + ['@'] + l.Address();
      RSplitOnceAt(l.userinfo.value, '@', l.Address());
    } else {
      assert l.Rest() == l.Address();
      SplitOnceNone(l.Address(), '@');
    }
  }

  /** The middle of a canonical line is no vendor spelling, even when its userinfo holds
      colons, brackets or another `@`. */
  lemma CanonicalRest(l: Line)
    requires l.WellFormed()
    ensures ReadRest(l.Rest()) == NotOurs
  {
    assert '@' !in l.Address() by { AddressChars(l.host, l.port); }
    CutRest(l);
    if l.userinfo.Some? {
      AddressParses(l.host, l.port);
    } else {
      assert l.Rest() == l.Address();
      AddressIsShort(l.host, l.port);
    }
  }

  lemma CanonicalMiddle(l: Line)
    requires l.WellFormed() && HeadTrimmed(l.Body())
    ensures IsMiddle(l.scheme, l.Rest())
  {
    BodyChars(l);
    assert l.Rest()[|l.Rest()| - 1] == l.Body()[|l.Body()| - 1] == l.port[|l.port| - 1];
    if l.scheme.None? {
      assert l.Body() == l.Rest();
      RestHasNoSep(l);
    } else {
      assert l.Body() == l.scheme.value + "://" + l.Rest();
    }
  }

  lemma TrimmedUntouched(l: Line)
    requires l.WellFormed() && HeadTrimmed(l.Body())
    ensures Normalize(l.Render()) == AsIs
  {
    CanonicalMiddle(l);
    CanonicalRest(l);
    CutPasted(l.scheme, l.Rest(), l.frag);
    assert l.Render() == PastedLine(l.scheme, l.Rest(), l.frag);
  }

  /** Normalisation leaves every canonical line as it is, so both halves of the parser read it
      as its parts say. */
  lemma CanonicalUntouched(l: Line)
    requires l.WellFormed()
    ensures Normalize(l.Render()) == AsIs && ParseLink(l.Render()) == Some(l.Meaning())
  {
    if l.scheme.None? && l.userinfo.Some? {
      UnindentedIsTrimmed(l);
      TrimmedUntouched(Unindented(l));
      UnindentedText(l);
      TrimOfTrimStart(l.Render());
    } else {
      BodyChars(l);
      TrimmedUntouched(l);
    }
    ParseRendered(l);
  }

  // ---------- printing ----------

  /** `enc(user):enc(pass)`, the colon kept when only one of the two is there. */
  function PrintLogin(username: Option<string>, password: Option<string>): Option<string> {
    if username.None? && password.None? then None
    else Some((if username.Some? then Percent.UrlEncode(username.value) else "")
              + ":" + (if password.Some? then Percent.UrlEncode(password.value) else ""))
  }

  /** A link as a share line. */
  function Print(l: Link): string {
    match SplitScheme(l.url)
    case Whole => l.url
    case Parts(scheme, address) =>
      var ui := PrintLogin(l.username, l.password);
      scheme + "://" + (if ui.Some? then ui.value + "@" else "") + address
      + (if l.name.Some? then "#" + l.name.value else "")
  }

  /** What the parser can produce: a lower-case scheme other than `socks`, an acceptable host
      and port, no empty user, password or name, no blanks around the name. */
  ghost predicate IsLink(l: Link, scheme: string, h: string, p: string) {
    && l.url == scheme + "://" + (h + ":" + p)
    && IsHost(h) && IsPort(p)
    && '#' !in scheme && !HasSep(scheme) && HeadTrimmed(scheme) && Lower(scheme) == scheme && scheme != "socks"
    && l.username != Some("") && l.password != Some("") && l.name != Some("")
    && (l.name.Some? ==> HeadTrimmed(l.name.value) && TailTrimmed(l.name.value))
  }

  lemma SafeText(s: string)
    requires Percent.AllSafe(s)
    ensures ':' !in s && '@' !in s && '#' !in s && HeadTrimmed(s) && TailTrimmed(s)
  {
    assert forall c :: Percent.IsSafe(c) ==> !IsWhitespace(c);
  }

  lemma PrintedLogin(username: Option<string>, password: Option<string>)
    requires username != Some("") && password != Some("")
    ensures var ui := PrintLogin(username, password);
            ParseUserinfo(ui) == Login(username, password) && (ui.Some? ==> '#' !in ui.value)
  {
    if username.Some? || password.Some? {
      var u := if username.Some? then username.value else "";
      var p := if password.Some? then password.value else "";
      Percent.UrlRoundTrip(u);
      Percent.UrlRoundTrip(p);
      var eu, ep := Percent.UrlEncode(u), Percent.UrlEncode(p);
      SafeText(eu);
      SafeText(ep);
      var ui := eu + ":" + ep;
      assert ui == eu + [':'] + ep;
      TrimJoin(eu, ':', ep);
      TrimmedIsFixed(eu);
      TrimmedIsFixed(ep);
      UserinfoCut(ui, eu, ep);
    }
  }

  /** The canonical line that printing produces. */
  function PrintedLine(l: Link, scheme: string, h: string, p: string): Line {
    Line(Some(scheme), PrintLogin(l.username, l.password), h, p, l.name)
  }

  lemma PrintedText(l: Link, scheme: string, h: string, p: string)
    requires IsLink(l, scheme, h, p)
    ensures Print(l) == PrintedLine(l, scheme, h, p).Render()
  {
    SplitSchemeAt(scheme, h + ":" + p);
  }

  lemma LowerKeepsHash(s: string)
    ensures '#' in Lower(s) <==> '#' in s
    ensures HasSep(Lower(s)) <==> HasSep(s)
    ensures HeadTrimmed(Lower(s)) <==> HeadTrimmed(s)
  {
    assert forall k :: 0 <= k < |s| ==> (Lower(s)[k] == '#' <==> s[k] == '#');
    assert forall i: nat :: SepAt(Lower(s), i) <==> SepAt(s, i);
    assert forall c :: IsWhitespace(LowerChar(c)) <==> IsWhitespace(c);
  }

  /** Printing any link and parsing it gives the same link; normalisation does not touch the
      printed line. */
  lemma PrintThenParse(l: Link, scheme: string, h: string, p: string)
    requires IsLink(l, scheme, h, p)
    ensures ParseStrict(Print(l)) == Ok(l) && Normalize(Print(l)) == AsIs && ParseLink(Print(l)) == Some(l)
  {
    var line := PrintedLine(l, scheme, h, p);
    PrintedLogin(l.username, l.password);
    PrintedText(l, scheme, h, p);
    if l.name.Some? { TrimmedIsFixed(l.name.value); }
    CanonicalUntouched(line);
    ParseRendered(line);
  }

  // ---------- every parsed link is a link ----------

  lemma HostPortIsLink(scheme: string, login: Login, hp: string, name: Option<string>)
    returns (h: string, p: string)
    requires ParseHostPort(scheme, login, hp, name).Ok?
    ensures IsHost(h) && IsPort(p)
    ensures ParseHostPort(scheme, login, hp, name)
            == Ok(Link(scheme + "://" + (h + ":" + p), login.username, login.password, name))
  {
    var cut := RSplitOnce(Trim(hp), ':');
    h, p := Trim(cut.left), Trim(cut.right);
  }

  lemma LoginNotEmpty(ui: Option<string>)
    ensures ParseUserinfo(ui).username != Some("") && ParseUserinfo(ui).password != Some("")
  {
  }

  lemma SchemeNameIsLower(s: string)
    requires '#' !in s && !HasSep(s) && HeadTrimmed(s)
    ensures var n := SchemeName(s);
            '#' !in n && !HasSep(n) && HeadTrimmed(n) && Lower(n) == n && n != "socks"
  {
    LowerTwice(s);
    LowerKeepsHash(s);
    Socks5IsScheme();
  }

  lemma Socks5IsScheme()
    ensures '#' !in SOCKS5 && !HasSep(SOCKS5) && HeadTrimmed(SOCKS5) && Lower(SOCKS5) == SOCKS5 && SOCKS5 != "socks"
  {
    assert |SOCKS5| == 6;
  }

  lemma RestIsLink(scheme: string, rest: string, name: Option<string>) returns (h: string, p: string)
    requires ParseRest(scheme, rest, name).Ok?
    ensures IsHost(h) && IsPort(p)
    ensures var l := ParseRest(scheme, rest, name).link;
            && l.url == scheme + "://" + (h + ":" + p) && l.name == name
            && l.username != Some("") && l.password != Some("")
  {
    match RSplitOnce(rest, '@') {
      case Parts(ui, hp) =>
        LoginNotEmpty(Some(ui));
        h, p := HostPortIsLink(scheme, ParseUserinfo(Some(ui)), hp, name);
      case Whole =>
        h, p := HostPortIsLink(scheme, ParseUserinfo(None), rest, name);
    }
  }

  lemma BodyIsLink(body: string, name: Option<string>) returns (scheme: string, h: string, p: string)
    requires ParseBody(body, name).Ok? && '#' !in body && HeadTrimmed(body)
    requires name != Some("") && (name.Some? ==> HeadTrimmed(name.value) && TailTrimmed(name.value))
    ensures IsLink(ParseBody(body, name).link, scheme, h, p)
  {
    SplitSchemeParts(body);
    match SplitScheme(body) {
      case Parts(s, r) =>
        assert s != "" ==> s[0] == body[0];
        SchemeNameIsLower(s);
        scheme := SchemeName(s);
        h, p := RestIsLink(scheme, r, name);
      case Whole =>
        Socks5IsScheme();
        scheme := SOCKS5;
        h, p := RestIsLink(scheme, body, name);
    }
  }

  lemma ParsedIsLink(raw: string) returns (scheme: string, h: string, p: string)
    requires ParseStrict(raw).Ok?
    ensures IsLink(ParseStrict(raw).link, scheme, h, p)
  {
    var t := Trim(raw);
    TrimIsTrimmed(raw);
    SplitOnceParts(t, '#');
    match SplitOnce(t, '#') {
      case Parts(b, n) =>
        TrimIsTrimmed(n);
        assert b != "" && b[0] == t[0];
        scheme, h, p := BodyIsLink(b, NonEmpty(Trim(n)));
      case Whole =>
        scheme, h, p := BodyIsLink(t, None);
    }
  }

  /** Whatever any line parses to, printing it and parsing again gives the same link. */
  lemma ParsePrintParse(raw: string)
    requires ParseLink(raw).Some?
    ensures var l := ParseLink(raw).value;
            ParseStrict(Print(l)) == Ok(l) && Normalize(Print(l)) == AsIs && ParseLink(Print(l)) == Some(l)
  {
    var text := match Normalize(raw) case Rewritten(s) => s case AsIs => raw case Rejected(_) => raw;
    var scheme, h, p := ParsedIsLink(text);
    PrintThenParse(ParseLink(raw).value, scheme, h, p);
  }

  // ---------- base64 share links ----------

  /** The share-link userinfo of `user:pass`. */
  function Base64Userinfo(user: string, pass: string, urlSafe: bool, padded: bool): string {
    Base64.Encode64(Utf8.Encode(user + ":" + pass), urlSafe, padded)
  }

  predicate IsBase64Char(c: char) { IsAsciiAlnum(c) || c == '+' || c == '/' || c == '-' || c == '_' || c == '=' }

  lemma Base64Chars(b: seq<Utf8.Byte>, urlSafe: bool, padded: bool)
    ensures var e := Base64.Encode64(b, urlSafe, padded);
            && (forall k :: 0 <= k < |e| ==> IsBase64Char(e[k]))
            && ':' !in e && '#' !in e && '@' !in e && HeadTrimmed(e) && TailTrimmed(e) && !HasSep(e)
            && (b != [] ==> e != "")
  {
    var e := Base64.Encode64(b, urlSafe, padded);
    assert forall v: Base64.Sextet :: IsBase64Char(Base64.Letter(v, urlSafe));
    assert forall c :: IsBase64Char(c) ==> !IsWhitespace(c) && c != ':';
    assert b != [] ==> |Base64.Sextets(b)| > 0;
  }

  lemma Base64TextOf(user: string, pass: string, urlSafe: bool, padded: bool)
    ensures Base64Text(Base64Userinfo(user, pass, urlSafe, padded)) == Some(user + ":" + pass)
  {
    var d := user + ":" + pass;
    var e := Utf8.Encode(Base64Userinfo(user, pass, urlSafe, padded));
    var more := PadTo4(e)[|e|..];
    assert PadTo4(e) == e + more;
    Base64.Base64RoundTrip(Utf8.Encode(d), urlSafe, padded, more);
    Utf8.EncodeRoundTrip(d);
    assert d[|user|] == ':';
  }

  lemma Base64Login(user: string, pass: string, urlSafe: bool, padded: bool)
    requires ':' !in user
    ensures ParseUserinfo(Some(Base64Userinfo(user, pass, urlSafe, padded))) == Login(NonEmpty(user), NonEmpty(pass))
  {
    var d := user + ":" + pass;
    var e := Base64Userinfo(user, pass, urlSafe, padded);
    assert Utf8.Encode(d) != [] by { assert d != ""; }
    Base64Chars(Utf8.Encode(d), urlSafe, padded);
    TrimmedIsFixed(e);
    SplitOnceNone(e, ':');
    Base64TextOf(user, pass, urlSafe, padded);
    assert d == user + [':'] + pass;
    SplitOnceAt(user, ':', pass);
  }

  /** Every base64 `user:pass` link, in either alphabet and padded or not, parses to that user
      and that password, whatever bytes they are made of. */
  lemma Base64Link(l: Line, user: string, pass: string, urlSafe: bool, padded: bool)
    requires ':' !in user && l.userinfo == Some(Base64Userinfo(user, pass, urlSafe, padded))
    requires l.(userinfo := None).WellFormed()
    ensures Normalize(l.Render()) == AsIs
    ensures ParseLink(l.Render()) == Some(l.Meaning().(username := NonEmpty(user), password := NonEmpty(pass)))
  {
    Base64Chars(Utf8.Encode(user + ":" + pass), urlSafe, padded);
    Base64Login(user, pass, urlSafe, padded);
    BodyChars(l);
    CanonicalUntouched(l);
  }
}
