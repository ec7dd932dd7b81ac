/** The strict half of the proxy-line parser: `[scheme://][userinfo@]host:port[#name]`. */
module ProxyLink {
  import opened Text
  import Utf8
  import Percent
  import Base64

  datatype Issue = NotProxy | NoHostPort | BadHost | BadPort | AmbiguousColonForm

  datatype Link = Link(url: string, username: Option<string>, password: Option<string>, name: Option<string>)

  datatype Login = Login(username: Option<string>, password: Option<string>)

  datatype Parse = Ok(link: Link) | Err(issue: Issue)

  // ---------- host and port ----------

  predicate IsHostChar(c: char) { IsAsciiAlnum(c) || c == '.' || c == '-' || c == '_' }

  predicate IsBracketChar(c: char) { IsHexDigit(c) || c == ':' || c == '.' }

  predicate IsBracketed(h: string) { |h| >= 2 && h[0] == '[' && h[|h| - 1] == ']' }

  predicate AllBracketChars(h: string) { forall k :: 0 <= k < |h| ==> IsBracketChar(h[k]) }

  predicate AllHostChars(h: string) { forall k :: 0 <= k < |h| ==> IsHostChar(h[k]) }

  predicate IsHost(h: string) {
    if IsBracketed(h) then |h| > 2 && AllBracketChars(h[1..|h| - 1])
    else h != "" && AllHostChars(h)
  }

  predicate AllDigits(s: string) { forall k :: 0 <= k < |s| ==> IsDigit(s[k]) }

  /** `str::parse::<u32>`: one optional `+`, then at least one digit, no overflow. */
  function ParseU32(s: string): Option<nat> {
    var digits := if s != "" && s[0] == '+' then s[1..] else s;
    if digits != "" && AllDigits(digits) && DigitsValue(digits) < 0x1_0000_0000
    then Some(DigitsValue(digits)) else None
  }

  predicate IsPort(p: string) {
    ParseU32(p).Some? && 1 <= ParseU32(p).value <= 65535
  }

  // ---------- user name and password ----------

  /** `=` appended until the byte length is a multiple of four. */
  function PadTo4(b: seq<Utf8.Byte>): (r: seq<Utf8.Byte>)
    ensures |r| % 4 == 0 && b <= r && forall k :: |b| <= k < |r| ==> r[k] == Base64.PAD
    decreases (4 - |b| % 4) % 4
  {
    if |b| % 4 == 0 then b else PadTo4(b + [Base64.PAD])
  }

  /** The colon-bearing text inside a base64 userinfo, if that is what it is. */
  function Base64Text(ui: string): (d: Option<string>)
    ensures d.Some? ==> ':' in d.value
  {
    match Base64.DecodeLoose(PadTo4(Utf8.Encode(ui)))
    case None => None
    case Some(bytes) =>
      match Utf8.Decode(bytes)
      case None => None
      case Some(d) => if ':' in d then Some(d) else None
  }

  function ParseTrimmedUserinfo(ui: string): Login {
    match SplitOnce(ui, ':')
    case Parts(u, p) => Login(NonEmpty(Percent.UrlDecode(u)), NonEmpty(Percent.UrlDecode(p)))
    case Whole =>
      match Base64Text(ui)
      case None => Login(Some(ui), None)
      case Some(d) =>
        match SplitOnce(d, ':')
        case Parts(u, p) => Login(NonEmpty(u), NonEmpty(p))
        case Whole => Login(Some(ui), None)
  }

  function ParseUserinfo(ui: Option<string>): Login {
    match ui
    case None => Login(None, None)
    case Some(raw) =>
      var t := Trim(raw);
      if t == "" then Login(None, None) else ParseTrimmedUserinfo(t)
  }

  // ---------- the whole line ----------

  const SOCKS5 := "socks5"

  /** Lower-cased, with the share-link alias `socks` spelled out. */
  function SchemeName(s: string): string {
    if Lower(s) == "socks" then SOCKS5 else Lower(s)
  }

  function ParseHostPort(scheme: string, login: Login, hostport: string, name: Option<string>): Parse {
    match RSplitOnce(Trim(hostport), ':')
    case Whole => Err(NoHostPort)
    case Parts(h, p) =>
      var host, port := Trim(h), Trim(p);
      if !IsHost(host) then Err(BadHost)
      else if !IsPort(port) then Err(BadPort)
      else Ok(Link(scheme + "://" + (host + ":" + port), login.username, login.password, name))
  }

  function ParseRest(scheme: string, rest: string, name: Option<string>): Parse {
    match RSplitOnce(rest, '@')
    case Parts(ui, hp) => ParseHostPort(scheme, ParseUserinfo(Some(ui)), hp, name)
    case Whole => ParseHostPort(scheme, ParseUserinfo(None), rest, name)
  }

  function ParseBody(body: string, name: Option<string>): Parse {
    match SplitScheme(body)
    case Parts(s, r) => ParseRest(SchemeName(s), r, name)
    case Whole => ParseRest(SOCKS5, body, name)
  }

  /** `parse_proxy_link_strict`. */
  function ParseStrict(raw: string): Parse {
    ParseTrimmed(Trim(raw))
  }

  function ParseTrimmed(t: string): Parse {
    if t == "" || t[0] == '#' then Err(NotProxy)
    else
      match SplitOnce(t, '#')
      case Parts(b, n) => ParseBody(b, NonEmpty(Trim(n)))
      case Whole => ParseBody(t, None)
  }

  // ---------- lines by their parts ----------

  /** The parts of a canonical line. */
  datatype Line = Line(scheme: Option<string>, userinfo: Option<string>, host: string, port: string,
                       frag: Option<string>)
  {
    function Prefix(): string { if scheme.Some? then scheme.value + "://" else "" }

    function Address(): string { host + ":" + port }

    function Rest(): string { (if userinfo.Some? then userinfo.value + "@" else "") + Address() }

    function Body(): string { Prefix() + Rest() }

    /** The text of the line. */
    function Render(): string { Body() + (if frag.Some? then "#" + frag.value else "") }

    /** The parts say where they were cut: no separator hides in an earlier part. */
    ghost predicate WellFormed() {
      && IsHost(host) && IsPort(port)
      && (userinfo.Some? ==> '#' !in userinfo.value)
      && (scheme.Some? ==> '#' !in scheme.value && !HasSep(scheme.value) && HeadTrimmed(scheme.value))
      && (scheme.None? && userinfo.Some? ==> !HasSep(userinfo.value))
    }

    /** What the line says. */
    function Meaning(): Link {
      var login := ParseUserinfo(userinfo);
      Link((if scheme.Some? then SchemeName(scheme.value) else SOCKS5) + "://" + Address(),
           login.username, login.password, if frag.Some? then NonEmpty(Trim(frag.value)) else None)
    }
  }

  /** The characters of an address: visible, and no `@`, `#` or `/`. */
  predicate IsAddressChar(c: char) {
    IsHostChar(c) || c == ':' || c == '[' || c == ']' || c == '+'
  }

  lemma AddressChars(h: string, p: string)
    requires IsHost(h) && IsPort(p)
    ensures forall k :: 0 <= k < |h + ":" + p| ==> IsAddressChar((h + ":" + p)[k])
    ensures ':' !in p && HeadTrimmed(h) && TailTrimmed(h) && HeadTrimmed(p) && TailTrimmed(p)
  {
    assert forall k :: 0 <= k < |h| ==> IsAddressChar(h[k]) by {
      if IsBracketed(h) {
        var inner := h[1..|h| - 1];
        assert forall k :: 0 < k < |h| - 1 ==> h[k] == inner[k - 1];
      }
    }
    var digits := if p[0] == '+' then p[1..] else p;
    assert forall k :: 0 <= k < |p| ==> p[k] == '+' || IsDigit(p[k]) by {
      assert forall k :: 1 <= k < |p| && p[0] == '+' ==> p[k] == digits[k - 1];
    }
    assert forall c :: IsAddressChar(c) ==> !IsWhitespace(c);
    assert p != "" && h != "";
  }

  lemma NoSepWithout(s: string)
    requires forall k :: 0 <= k < |s| ==> s[k] != '/'
    ensures !HasSep(s)
  {
  }

  lemma SepAcross(a: string, c: char, b: string)
    requires c != ':' && c != '/' && HasSep(a + [c] + b)
    ensures HasSep(a) || HasSep(b)
  {
    var s := a + [c] + b;
    var i: nat :| SepAt(s, i);
    assert s[|a|] == c;
    assert forall k :: 0 <= k < |a| ==> s[k] == a[k];
    assert forall k :: |a| < k < |s| ==> s[k] == b[k - |a| - 1];
    if i < |a| { assert SepAt(a, i); } else { assert SepAt(b, i - |a| - 1); }
  }

  lemma CutAddress(h: string, p: string)
    requires IsHost(h) && IsPort(p)
    ensures Trim(h + ":" + p) == h + ":" + p && RSplitOnce(h + ":" + p, ':') == Parts(h, p)
    ensures Trim(h) == h && Trim(p) == p
  {
    AddressChars(h, p);
    assert h + ":" + p == h + [':'] + p;
    TrimmedIsFixed(h + ":" + p);
    RSplitOnceAt(h, ':', p);
    TrimmedIsFixed(h);
    TrimmedIsFixed(p);
  }

  lemma ParseAddress(scheme: string, login: Login, h: string, p: string, name: Option<string>)
    requires IsHost(h) && IsPort(p)
    ensures ParseHostPort(scheme, login, h + ":" + p, name)
         == Ok(Link(scheme + "://" + (h + ":" + p), login.username, login.password, name))
  {
    CutAddress(h, p);
  }

  lemma CutUserinfo(l: Line, scheme: string, name: Option<string>)
    requires '@' !in l.Address()
    ensures ParseRest(scheme, l.Rest(), name) == ParseHostPort(scheme, ParseUserinfo(l.userinfo), l.Address(), name)
  {
    if l.userinfo.Some? {
      assert l.Rest() == l.userinfo.value + ['@'] + l.Address();
      RSplitOnceAt(l.userinfo.value, '@', l.Address());
    } else {
      assert l.Rest() == l.Address();
      SplitOnceNone(l.Address(), '@');
    }
  }

  lemma ParseRestRendered(l: Line, scheme: string, name: Option<string>)
    requires l.WellFormed()
    ensures ParseRest(scheme, l.Rest(), name)
         == Ok(Link(scheme + "://" + l.Address(), ParseUserinfo(l.userinfo).username,
                    ParseUserinfo(l.userinfo).password, name))
  {
    assert '@' !in l.Address() by { AddressChars(l.host, l.port); }
    CutUserinfo(l, scheme, name);
    ParseAddress(scheme, ParseUserinfo(l.userinfo), l.host, l.port, name);
  }

  lemma RestHasNoSep(l: Line)
    requires l.WellFormed() && l.scheme.None?
    ensures !HasSep(l.Rest())
  {
    AddressChars(l.host, l.port);
    NoSepWithout(l.Address());
    if l.userinfo.Some? {
      assert l.Rest() == l.userinfo.value + ['@'] + l.Address();
      if HasSep(l.Rest()) { SepAcross(l.userinfo.value, '@', l.Address()); }
    } else {
      assert l.Rest() == l.Address();
    }
  }

  lemma ParseBodyRendered(l: Line, name: Option<string>)
    requires l.WellFormed()
    ensures ParseBody(l.Body(), name) == Ok(l.Meaning().(name := name))
  {
    if l.scheme.Some? {
      SplitSchemeAt(l.scheme.value, l.Rest());
      ParseRestRendered(l, SchemeName(l.scheme.value), name);
    } else {
      RestHasNoSep(l);
      assert l.Body() == l.Rest();
      SplitSchemeNone(l.Body());
      ParseRestRendered(l, SOCKS5, name);
    }
  }

  lemma BodyChars(l: Line)
    requires l.WellFormed()
    ensures l.Body() != "" && '#' !in l.Body() && TailTrimmed(l.Body())
    ensures (l.scheme.None? && l.userinfo.Some? ==> HeadTrimmed(l.userinfo.value)) ==> HeadTrimmed(l.Body())
  {
    AddressChars(l.host, l.port);
    assert l.Body()[|l.Body()| - 1] == l.port[|l.port| - 1];
    assert '#' !in l.Address();
    assert '#' !in l.Rest();
  }

  /** Cutting off the name of a line whose body starts and ends visibly. */
  lemma CutName(body: string, frag: Option<string>)
    requires body != "" && '#' !in body && HeadTrimmed(body) && TailTrimmed(body)
    ensures ParseStrict(body + if frag.Some? then "#" + frag.value else "")
         == ParseBody(body, if frag.Some? then NonEmpty(Trim(frag.value)) else None)
  {
    TrimmedIsFixed(body);
    if frag.Some? {
      var f := frag.value;
      assert body + ("#" + f) == body + ['#'] + f;
      TrimJoin(body, '#', f);
      SplitOnceAt(body, '#', TrimEnd(f));
      TrimOfTrimEnd(f);
    } else {
      assert body + "" == body;
      SplitOnceNone(body, '#');
    }
  }

  lemma ParseTrimmedLine(l: Line)
    requires l.WellFormed() && HeadTrimmed(l.Body())
    ensures ParseStrict(l.Render()) == Ok(l.Meaning())
  {
    BodyChars(l);
    CutName(l.Body(), l.frag);
    ParseBodyRendered(l, if l.frag.Some? then NonEmpty(Trim(l.frag.value)) else None);
  }

  /** Leading blanks make no difference to the strict parser. */
  lemma LeadingBlanks(s: string)
    ensures ParseStrict(TrimStart(s)) == ParseStrict(s)
  {
    TrimOfTrimStart(s);
  }

  lemma TrimStartKeepsClean(u: string)
    requires !HasSep(u) && '#' !in u
    ensures !HasSep(TrimStart(u)) && '#' !in TrimStart(u)
  {
    TrimStartSpec(u);
    var t := TrimStart(u);
    var d := |u| - |t|;
    assert forall i :: 0 <= i < |t| ==> t[i] == u[i + d];
    forall i: nat | SepAt(t, i) ensures SepAt(u, i + d) { }
  }

  /** The same line without the blanks in front of its userinfo. */
  function Unindented(l: Line): Line
    requires l.userinfo.Some?
  {
    l.(userinfo := Some(TrimStart(l.userinfo.value)))
  }

  lemma UnindentedText(l: Line)
    requires l.scheme.None? && l.userinfo.Some?
    ensures Unindented(l).Render() == TrimStart(l.Render())
  {
    var u := l.userinfo.value;
    var tail := l.Address() + if l.frag.Some? then "#" + l.frag.value else "";
    assert l.Render() == u + ['@'] + tail;
    assert Unindented(l).Render() == TrimStart(u) + ['@'] + tail;
    TrimStartJoin(u, '@', tail);
  }

  lemma UnindentedIsTrimmed(l: Line)
    requires l.WellFormed() && l.scheme.None? && l.userinfo.Some?
    ensures Unindented(l).WellFormed() && HeadTrimmed(Unindented(l).Body())
  {
    TrimStartKeepsClean(l.userinfo.value);
    TrimStartSpec(l.userinfo.value);
    BodyChars(Unindented(l));
  }

  /** The strict parser reads every well-formed line as its parts say, leading blanks or not. */
  lemma ParseRendered(l: Line)
    requires l.WellFormed()
    ensures ParseStrict(l.Render()) == Ok(l.Meaning())
  {
    if l.scheme.None? && l.userinfo.Some? {
      UnindentedIsTrimmed(l);
      ParseTrimmedLine(Unindented(l));
      UnindentedText(l);
      LeadingBlanks(l.Render());
      TrimOfTrimStart(l.userinfo.value);
    } else {
      BodyChars(l);
      ParseTrimmedLine(l);
    }
  }
}
