/** Bulk import: one verdict a line, a report that loses no line, and nodes without repeats. */
module ProxyReport {
  import opened Text
  import opened Places
  import opened ProxyLink
  import opened ProxyNormalize
  import ProxyAgreement

  datatype Verdict = Parsed(link: Link) | Skipped | Invalid(issue: Issue)

  predicate IsQuote(c: char) { c == '`' || c == '"' || c == '\'' || c == ' ' }

  /** `trim_matches` over quotes and spaces. */
  function StripQuotes(s: string): string {
    if s != "" && IsQuote(s[0]) then StripQuotes(s[1..])
    else if s != "" && IsQuote(s[|s| - 1]) then StripQuotes(s[..|s| - 1])
    else s
  }

  predicate IsSchemeChar(c: char) { IsAsciiAlnum(c) || c == '+' || c == '.' || c == '-' }

  predicate StartsWithScheme(s: string) {
    match SplitScheme(s)
    case Whole => false
    case Parts(scheme, _) =>
      scheme != "" && IsAsciiAlnum(scheme[0]) && !IsDigit(scheme[0])
      && forall k :: 0 <= k < |scheme| ==> IsSchemeChar(scheme[k])
  }

  predicate LooksLikeLink(s: string) {
    || StartsWithScheme(s)
    || ('@' in s && ParseStrict(s).Ok?)
    || (|Segments(s, 0)| >= 4 && IsHostLiteral(Segments(s, 0)[0]))
  }

  function ClassifyCleaned(s: string): Verdict {
    match Normalize(s)
    case Rewritten(text) => (match ParseStrict(text) case Ok(l) => Parsed(l) case Err(e) => Invalid(e))
    case Rejected(e) => Invalid(e)
    case AsIs =>
      match ParseStrict(s)
      case Ok(l) => if LooksLikeLink(s) then Parsed(l) else Skipped
      case Err(e) => if LooksLikeLink(s) then Invalid(e) else Skipped
  }

  /** `classify_proxy_line`. */
  function Classify(line: string): Verdict {
    var t := Trim(line);
    if t == "" || t[0] == '#' then Skipped else ClassifyCleaned(StripQuotes(t))
  }

  /** The bulk gate never disagrees with the single-line parser: a line comes out as a link
      exactly when the single-line parser reads it and it is either a vendor spelling or
      looks like a link; and a vendor spelling is never reported as broken. */
  lemma ClassifyAgrees(s: string)
    ensures ClassifyCleaned(s).Parsed? <==> ParseLink(s).Some? && (Normalize(s).Rewritten? || LooksLikeLink(s))
    ensures ClassifyCleaned(s).Parsed? ==> ParseLink(s) == Some(ClassifyCleaned(s).link)
    ensures Normalize(s).Rewritten? ==> ClassifyCleaned(s).Parsed?
  {
    if Normalize(s).Rewritten? { ProxyAgreement.RewriteAccepted(s); }
  }

  // ---------- lines ----------

  function DropReturn(s: string): string {
    if s != "" && s[|s| - 1] == '\r' then s[..|s| - 1] else s
  }

  /** `str::lines`: cut at line feeds, a carriage return before one belongs to it, and a final
      line feed opens no further line. */
  function Lines(s: string): seq<string>
    decreases |s|
  {
    if s == "" then []
    else
      var i := IndexOf(s, '\n');
      if i == |s| then [s] else [DropReturn(s[..i])] + Lines(s[i + 1..])
  }

  // ---------- the report ----------

  /** The verdicts of a text, one a line. */
  function Verdicts(lines: seq<string>): (vs: seq<Verdict>)
    ensures |vs| == |lines| && forall i :: 0 <= i < |lines| ==> vs[i] == Classify(lines[i])
  {
    seq(|lines|, i requires 0 <= i < |lines| => Classify(lines[i]))
  }

  datatype Item = Item(lineno: nat, link: Option<Link>, issue: Option<Issue>, dup: bool)

  predicate IsLinkLine(vs: seq<Verdict>, i: nat)
    requires i < |vs|
  {
    vs[i].Parsed?
  }

  function UrlAt(vs: seq<Verdict>, i: nat): string
    requires i < |vs| && IsLinkLine(vs, i)
  {
    vs[i].link.url
  }

  /** Some line before `n` parses to a link with this address. */
  predicate SeenBefore(vs: seq<Verdict>, n: nat, url: string)
    requires n <= |vs|
  {
    exists j :: 0 <= j < n && IsLinkLine(vs, j) && UrlAt(vs, j) == url
  }

  /** What the report says of line `i`. */
  function Entry(vs: seq<Verdict>, i: nat): Option<Item>
    requires i < |vs|
  {
    match vs[i]
    case Skipped => None
    case Invalid(e) => Some(Item(i + 1, None, Some(e), false))
    case Parsed(l) => Some(Item(i + 1, Some(l), None, SeenBefore(vs, i, l.url)))
  }

  function Entries(vs: seq<Verdict>, n: nat): seq<Item>
    requires n <= |vs|
  {
    if n == 0 then []
    else Entries(vs, n - 1) + (match Entry(vs, n - 1) case None => [] case Some(it) => [it])
  }

  function SkippedLines(vs: seq<Verdict>, n: nat): nat
    requires n <= |vs|
  {
    if n == 0 then 0 else SkippedLines(vs, n - 1) + if vs[n - 1].Skipped? then 1 else 0
  }

  ghost predicate AreSeen(vs: seq<Verdict>, n: nat, seen: seq<string>)
    requires n <= |vs|
  {
    forall url :: url in seen <==> SeenBefore(vs, n, url)
  }

  lemma AreSeenStep(vs: seq<Verdict>, n: nat, seen: seq<string>)
    requires n < |vs| && AreSeen(vs, n, seen)
    ensures AreSeen(vs, n + 1, if vs[n].Parsed? && vs[n].link.url !in seen then seen + [vs[n].link.url] else seen)
  {
    if vs[n].Parsed? { assert IsLinkLine(vs, n) && UrlAt(vs, n) == vs[n].link.url; }
    forall url
      ensures SeenBefore(vs, n + 1, url) <==> SeenBefore(vs, n, url) || (IsLinkLine(vs, n) && UrlAt(vs, n) == url)
    {
    }
  }

  /** `parse_proxy_lines_report`, without the masked echo of each line. */
  method ParseProxyLinesReport(text: string) returns (items: seq<Item>, skipped: nat)
    ensures var vs := Verdicts(Lines(text)); items == Entries(vs, |vs|) && skipped == SkippedLines(vs, |vs|)
  {
    var lines := Lines(text);
    ghost var vs := Verdicts(lines);
    var seen: seq<string> := [];
    items, skipped := [], 0;
    for i := 0 to |lines|
      invariant items == Entries(vs, i) && skipped == SkippedLines(vs, i)
      invariant AreSeen(vs, i, seen)
    {
      var verdict := Classify(lines[i]);
      assert verdict == vs[i];
      AreSeenStep(vs, i, seen);
      match verdict {
        case Skipped => skipped := skipped + 1;
        case Invalid(e) => items := items + [Item(i + 1, None, Some(e), false)];
        case Parsed(l) =>
          var dup := l.url in seen;
          if !dup { seen := seen + [l.url]; }
          items := items + [Item(i + 1, Some(l), None, dup)];
      }
    }
  }

  /** The entries of the first `n` lines: line numbers strictly increase, and every entry says
      of its line what the classifier says. */
  ghost predicate Faithful(vs: seq<Verdict>, items: seq<Item>, n: nat)
    requires n <= |vs|
  {
    && (forall k :: 0 <= k < |items| ==> 1 <= items[k].lineno <= n && Entry(vs, items[k].lineno - 1) == Some(items[k]))
    && (forall j, k :: 0 <= j < k < |items| ==> items[j].lineno < items[k].lineno)
  }

  /** No line is lost or counted twice. */
  lemma {:induction false} ReportIsComplete(vs: seq<Verdict>, n: nat)
    requires n <= |vs|
    ensures Faithful(vs, Entries(vs, n), n) && |Entries(vs, n)| + SkippedLines(vs, n) == n
  {
    if n > 0 {
      ReportIsComplete(vs, n - 1);
    }
  }

  /** Every line that is not skipped has its entry. */
  lemma {:induction false} EntryReported(vs: seq<Verdict>, i: nat, n: nat)
    requires i < n <= |vs| && Entry(vs, i).Some?
    ensures Entry(vs, i).value in Entries(vs, n)
  {
    if i < n - 1 {
      EntryReported(vs, i, n - 1);
    } else {
      assert Entries(vs, n) == Entries(vs, n - 1) + [Entry(vs, i).value];
    }
  }

  // ---------- nodes ----------

  /** The links of the entries that are no repeats. */
  function NodesOf(items: seq<Item>): seq<Link> {
    if items == [] then []
    else
      var it := items[|items| - 1];
      NodesOf(items[..|items| - 1]) + if !it.dup && it.link.Some? then [it.link.value] else []
  }

  function CountInvalid(items: seq<Item>): nat {
    if items == [] then 0
    else CountInvalid(items[..|items| - 1]) + if items[|items| - 1].issue.Some? then 1 else 0
  }

  function CountRepeats(items: seq<Item>): nat {
    if items == [] then 0
    else CountRepeats(items[..|items| - 1]) + if items[|items| - 1].dup then 1 else 0
  }

  lemma Snoc(items: seq<Item>, it: Item)
    ensures NodesOf(items + [it]) == NodesOf(items) + (if !it.dup && it.link.Some? then [it.link.value] else [])
    ensures CountInvalid(items + [it]) == CountInvalid(items) + (if it.issue.Some? then 1 else 0)
    ensures CountRepeats(items + [it]) == CountRepeats(items) + (if it.dup then 1 else 0)
  {
    assert (items + [it])[..|items|] == items;
  }

  method CollectNodes(items: seq<Item>) returns (nodes: seq<Link>, invalid: nat)
    ensures nodes == NodesOf(items) && invalid == CountInvalid(items)
  {
    nodes, invalid := [], 0;
    for i := 0 to |items|
      invariant nodes == NodesOf(items[..i]) && invalid == CountInvalid(items[..i])
    {
      Snoc(items[..i], items[i]);
      assert items[..i + 1] == items[..i] + [items[i]];
      if items[i].issue.Some? { invalid := invalid + 1; }
      if !items[i].dup && items[i].link.Some? { nodes := nodes + [items[i].link.value]; }
    }
    assert items[..|items|] == items;
  }

  /** `parse_proxy_links_bulk`. */
  method ParseProxyLinksBulk(text: string) returns (nodes: seq<Link>, skipped: nat)
    ensures var vs := Verdicts(Lines(text)); var items := Entries(vs, |vs|);
            nodes == NodesOf(items) && skipped == SkippedLines(vs, |vs|) + CountInvalid(items)
  {
    var items, quiet := ParseProxyLinesReport(text);
    var invalid;
    nodes, invalid := CollectNodes(items);
    skipped := quiet + invalid;
  }

  /** Line `i` parses and no earlier line parses to the same address. */
  predicate IsFirst(vs: seq<Verdict>, i: nat)
    requires i < |vs|
  {
    IsLinkLine(vs, i) && !SeenBefore(vs, i, UrlAt(vs, i))
  }

  lemma EntriesStep(vs: seq<Verdict>, n: nat)
    requires 0 < n <= |vs|
    ensures var items, more := Entries(vs, n - 1), Entries(vs, n);
            && NodesOf(more) == NodesOf(items) + (if IsFirst(vs, n - 1) then [vs[n - 1].link] else [])
            && |NodesOf(more)| + CountRepeats(more) + CountInvalid(more)
            == |NodesOf(items)| + CountRepeats(items) + CountInvalid(items) + (if vs[n - 1].Skipped? then 0 else 1)
  {
    var items, entry := Entries(vs, n - 1), Entry(vs, n - 1);
    if entry.Some? {
      Snoc(items, entry.value);
    } else {
      assert items + [] == items;
    }
  }

  function Firsts(vs: seq<Verdict>): seq<bool> { seq(|vs|, i requires 0 <= i < |vs| => IsFirst(vs, i)) }

  /** `nodes` are the links of the lines `at`. */
  ghost predicate LinksAt(vs: seq<Verdict>, at: seq<nat>, nodes: seq<Link>) {
    |nodes| == |at| && forall k :: 0 <= k < |at| ==> at[k] < |vs| && IsLinkLine(vs, at[k]) && nodes[k] == vs[at[k]].link
  }

  lemma LinksStep(vs: seq<Verdict>, n: nat, nodes: seq<Link>, more: seq<Link>)
    requires 0 < n <= |vs| && LinksAt(vs, Marked(Firsts(vs), n - 1), nodes)
    requires more == nodes + if IsFirst(vs, n - 1) then [vs[n - 1].link] else []
    ensures LinksAt(vs, Marked(Firsts(vs), n), more)
  {
    assert Firsts(vs)[n - 1] == IsFirst(vs, n - 1);
    assert Marked(Firsts(vs), n) == Marked(Firsts(vs), n - 1) + if IsFirst(vs, n - 1) then [n - 1] else [];
  }

  /** The nodes are exactly the links of the first occurrences, in the order of the text: every
      parsed address has one node. */
  lemma {:induction false} NodesAreFirstOccurrences(vs: seq<Verdict>, n: nat)
    requires n <= |vs|
    ensures LinksAt(vs, Marked(Firsts(vs), n), NodesOf(Entries(vs, n)))
  {
    if n > 0 {
      NodesAreFirstOccurrences(vs, n - 1);
      EntriesStep(vs, n);
      LinksStep(vs, n, NodesOf(Entries(vs, n - 1)), NodesOf(Entries(vs, n)));
    }
  }

  /** Every line is a node, a repeat, or one of the returned count. */
  lemma {:induction false} LinesAddUp(vs: seq<Verdict>, n: nat)
    requires n <= |vs|
    ensures var items := Entries(vs, n);
            |NodesOf(items)| + CountRepeats(items) + (SkippedLines(vs, n) + CountInvalid(items)) == n
  {
    if n > 0 {
      LinesAddUp(vs, n - 1);
      EntriesStep(vs, n);
    }
  }

  /** No two nodes have the same address. */
  lemma NodesDistinct(vs: seq<Verdict>, j: nat, k: nat)
    requires j < k < |NodesOf(Entries(vs, |vs|))|
    ensures NodesOf(Entries(vs, |vs|))[j].url != NodesOf(Entries(vs, |vs|))[k].url
  {
    NodesAreFirstOccurrences(vs, |vs|);
    MarkedSpec(Firsts(vs), |vs|);
    var at := Marked(Firsts(vs), |vs|);
    assert at[j] < at[k] && Firsts(vs)[at[k]] && IsFirst(vs, at[k]) && IsLinkLine(vs, at[j]);
  }
}
