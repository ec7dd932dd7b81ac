/** The local token estimate: piecewise scaling of character units, and the cached-prefix
    estimate built on it. Floating-point arithmetic is exact here. */
module TokenEstimate {
  import opened Text

  predicate IsNonWestern(c: char) {
    var n := c as int;
    !(|| 0 <= n <= 0x24F || 0x1E00 <= n <= 0x1EFF || 0x2C60 <= n <= 0x2C7F
      || 0xA720 <= n <= 0xA7FF || 0xAB30 <= n <= 0xAB6F)
  }

  function Unit(c: char): real { if IsNonWestern(c) then 4.5 else 1.0 }

  function Units(s: string): (u: real)
    ensures u >= 0.0
  {
    if s == "" then 0.0 else Unit(s[0]) + Units(s[1..])
  }

  function Factor(t: real): real {
    if t < 100.0 then 1.5 else if t < 200.0 then 1.3 else if t < 300.0 then 1.25
    else if t < 800.0 then 1.2 else 1.0
  }

  function Scale(t: real): real { t * Factor(t) }

  /** Rounding half away from zero, for amounts that are not negative. */
  function Round(r: real): (n: nat)
    requires r >= 0.0
    ensures n as real - 0.5 <= r < n as real + 0.5
  {
    (r + 0.5).Floor
  }

  lemma ScaleNotNegative(t: real)
    requires t >= 0.0
    ensures Scale(t) >= 0.0
  {
  }

  /** `count_tokens`. */
  function CountTokens(s: string): nat {
    ScaleNotNegative(Units(s) / 4.0);
    Round(Scale(Units(s) / 4.0))
  }

  // ---------- how far the estimate strays ----------

  lemma {:induction false} UnitsConcat(a: string, b: string)
    ensures Units(a + b) == Units(a) + Units(b)
  {
    if a == "" {
      assert a + b == b;
    } else {
      assert (a + b)[1..] == a[1..] + b;
      UnitsConcat(a[1..], b);
    }
  }

  lemma ScaleSubadditive(x: real, y: real)
    requires x >= 0.0 && y >= 0.0
    ensures Scale(x + y) <= Scale(x) + Scale(y)
  {
    var f := Factor(x + y);
    assert f <= Factor(x) && f <= Factor(y);
    assert x * f <= x * Factor(x) && y * f <= y * Factor(y);
    assert (x + y) * f == x * f + y * f;
  }

  lemma ScaleDrop(x: real, z: real)
    requires 0.0 <= x <= z
    ensures 6.0 * Scale(z) >= 5.0 * Scale(x)
  {
  }

  /** Joining two texts costs at most one token more than the two together. */
  lemma CountSubadditive(a: string, b: string)
    ensures CountTokens(a + b) <= CountTokens(a) + CountTokens(b) + 1
  {
    var x, y := Units(a) / 4.0, Units(b) / 4.0;
    UnitsConcat(a, b);
    assert Units(a + b) / 4.0 == x + y;
    ScaleSubadditive(x, y);
  }

  /** The estimate is not monotone, yet a longer text never falls below five sixths of what its
      beginning counts, less one. */
  lemma CountLowerBound(a: string, b: string)
    ensures 6 * (CountTokens(a + b) + 1) >= 5 * CountTokens(a)
  {
    var x, z := Units(a) / 4.0, Units(a + b) / 4.0;
    UnitsConcat(a, b);
    assert x <= z;
    ScaleDrop(x, z);
    assert CountTokens(a + b) as real + 0.5 > Scale(z);
    assert CountTokens(a) as real - 0.5 <= Scale(x);
  }

  lemma {:induction false} UnitsOfAscii(s: string)
    requires forall k :: 0 <= k < |s| ==> s[k] as int < 0x80
    ensures Units(s) == |s| as real
  {
    if s != "" {
      assert s[0] as int < 0x80;
      UnitsOfAscii(s[1..]);
    }
  }

  /** 399 ASCII characters count 150 tokens; one more makes it 130. */
  lemma CountDrops(s: string, c: char)
    requires |s| == 399 && (forall k :: 0 <= k < |s| ==> s[k] as int < 0x80) && c as int < 0x80
    ensures CountTokens(s) == 150 && CountTokens(s + [c]) == 130
  {
    UnitsOfAscii(s);
    UnitsOfAscii(s + [c]);
  }

  // ---------- requests ----------

  datatype ToolResult = ResultText(s: string) | ResultBlocks(texts: seq<Option<string>>) | OtherResult

  /** The part of a block its `type` selects; JSON inputs come serialised. */
  datatype Body = Thinking(t: Option<string>) | ToolUse(input: Option<string>) | Result(content: ToolResult) | Plain

  datatype Block = Block(text: Option<string>, body: Body)

  datatype Content = Text(s: string) | Blocks(items: seq<Block>) | OtherContent

  datatype Message = Message(role: string, content: Content)

  datatype Tool = Tool(name: string, description: string, schema: string)

  function CountOptional(s: Option<string>): nat { if s.Some? then CountTokens(s.value) else 0 }

  function SumOptional(ts: seq<Option<string>>): nat {
    if ts == [] then 0 else SumOptional(ts[..|ts| - 1]) + CountOptional(ts[|ts| - 1])
  }

  function BlockTokens(b: Block): nat {
    CountOptional(b.text) +
    match b.body
    case Thinking(t) => CountOptional(t)
    case ToolUse(input) => CountOptional(input)
    case Result(ResultText(s)) => CountTokens(s)
    case Result(ResultBlocks(ts)) => SumOptional(ts)
    case Result(OtherResult) => 0
    case Plain => 0
  }

  function SumBlocks(bs: seq<Block>): nat {
    if bs == [] then 0 else SumBlocks(bs[..|bs| - 1]) + BlockTokens(bs[|bs| - 1])
  }

  function MessageTokens(m: Message): nat {
    match m.content
    case Text(s) => CountTokens(s)
    case Blocks(items) => SumBlocks(items)
    case OtherContent => 0
  }

  function SumMessages(ms: seq<Message>): nat {
    if ms == [] then 0 else SumMessages(ms[..|ms| - 1]) + MessageTokens(ms[|ms| - 1])
  }

  function SumTexts(ts: seq<string>): nat {
    if ts == [] then 0 else SumTexts(ts[..|ts| - 1]) + CountTokens(ts[|ts| - 1])
  }

  function ToolTokens(t: Tool): nat { CountTokens(t.name) + CountTokens(t.description) + CountTokens(t.schema) }

  function SumTools(ts: seq<Tool>): nat {
    if ts == [] then 0 else SumTools(ts[..|ts| - 1]) + ToolTokens(ts[|ts| - 1])
  }

  function Unfloored(system: seq<string>, messages: seq<Message>, tools: seq<Tool>): nat {
    SumTexts(system) + SumMessages(messages) + SumTools(tools)
  }

  /** `count_content_block_tokens`. */
  method CountContentBlockTokens(b: Block) returns (total: nat)
    ensures total == BlockTokens(b)
  {
    total := CountOptional(b.text);
    match b.body {
      case Thinking(t) => total := total + CountOptional(t);
      case ToolUse(input) => total := total + CountOptional(input);
      case Result(ResultText(s)) => total := total + CountTokens(s);
      case Result(ResultBlocks(ts)) =>
        for i := 0 to |ts|
          invariant total == CountOptional(b.text) + SumOptional(ts[..i])
        {
          assert ts[..i + 1][..i] == ts[..i];
          total := total + CountOptional(ts[i]);
        }
        assert ts[..|ts|] == ts;
      case Result(OtherResult) =>
      case Plain =>
    }
  }

  /** `count_all_tokens_local_unfloored`; an absent list counts like an empty one. */
  method CountAllTokensLocalUnfloored(system: seq<string>, messages: seq<Message>, tools: seq<Tool>)
    returns (total: nat)
    ensures total == Unfloored(system, messages, tools)
  {
    total := 0;
    for i := 0 to |system|
      invariant total == SumTexts(system[..i])
    {
      assert system[..i + 1][..i] == system[..i];
      total := total + CountTokens(system[i]);
    }
    assert system[..|system|] == system;
    for i := 0 to |messages|
      invariant total == SumTexts(system) + SumMessages(messages[..i])
    {
      assert messages[..i + 1][..i] == messages[..i];
      match messages[i].content {
        case Text(s) => total := total + CountTokens(s);
        case Blocks(items) =>
          for j := 0 to |items|
            invariant total == SumTexts(system) + SumMessages(messages[..i]) + SumBlocks(items[..j])
          {
            assert items[..j + 1][..j] == items[..j];
            var n := CountContentBlockTokens(items[j]);
            total := total + n;
          }
          assert items[..|items|] == items;
        case OtherContent =>
      }
    }
    assert messages[..|messages|] == messages;
    for i := 0 to |tools|
      invariant total == SumTexts(system) + SumMessages(messages) + SumTools(tools[..i])
    {
      assert tools[..i + 1][..i] == tools[..i];
      total := total + ToolTokens(tools[i]);
    }
    assert tools[..|tools|] == tools;
  }

  // ---------- what a request is made of ----------

  lemma {:induction false} BlocksConcat(a: seq<Block>, b: seq<Block>)
    ensures SumBlocks(a + b) == SumBlocks(a) + SumBlocks(b)
    decreases |b|
  {
    if b == [] {
      assert a + b == a;
    } else {
      assert (a + b)[..|a + b| - 1] == a + b[..|b| - 1];
      BlocksConcat(a, b[..|b| - 1]);
    }
  }

  lemma {:induction false} MessagesConcat(a: seq<Message>, b: seq<Message>)
    ensures SumMessages(a + b) == SumMessages(a) + SumMessages(b)
    decreases |b|
  {
    if b == [] {
      assert a + b == a;
    } else {
      assert (a + b)[..|a + b| - 1] == a + b[..|b| - 1];
      MessagesConcat(a, b[..|b| - 1]);
    }
  }

  lemma {:induction false} TextsConcat(a: seq<string>, b: seq<string>)
    ensures SumTexts(a + b) == SumTexts(a) + SumTexts(b)
    decreases |b|
  {
    if b == [] {
      assert a + b == a;
    } else {
      assert (a + b)[..|a + b| - 1] == a + b[..|b| - 1];
      TextsConcat(a, b[..|b| - 1]);
    }
  }

  lemma {:induction false} ToolsConcat(a: seq<Tool>, b: seq<Tool>)
    ensures SumTools(a + b) == SumTools(a) + SumTools(b)
    decreases |b|
  {
    if b == [] {
      assert a + b == a;
    } else {
      assert (a + b)[..|a + b| - 1] == a + b[..|b| - 1];
      ToolsConcat(a, b[..|b| - 1]);
    }
  }

  /** Requests add up: what is appended to one costs what it costs alone, and nothing is counted
      twice or lost at the seam. */
  lemma RequestsAddUp(system: seq<string>, messages: seq<Message>, tools: seq<Tool>,
                      system': seq<string>, messages': seq<Message>, tools': seq<Tool>)
    ensures Unfloored(system + system', messages + messages', tools + tools')
         == Unfloored(system, messages, tools) + Unfloored(system', messages', tools')
  {
    TextsConcat(system, system');
    MessagesConcat(messages, messages');
    ToolsConcat(tools, tools');
  }

  lemma OneBlock(b: Block)
    ensures SumBlocks([b]) == BlockTokens(b)
  {
    assert [b][..0] == [];
  }

  /** Images and other blocks without text cost nothing, wherever they stand. */
  lemma ImagesAreFree(role: string, a: seq<Block>, b: seq<Block>)
    ensures MessageTokens(Message(role, Blocks(a + [Block(None, Plain)] + b)))
            == MessageTokens(Message(role, Blocks(a + b)))
  {
    BlocksConcat(a + [Block(None, Plain)], b);
    BlocksConcat(a, [Block(None, Plain)]);
    BlocksConcat(a, b);
    OneBlock(Block(None, Plain));
  }

  /** A tool result costs what its texts would cost as blocks of the message itself. */
  lemma {:induction false} ResultCostsItsTexts(ts: seq<Option<string>>)
    ensures BlockTokens(Block(None, Result(ResultBlocks(ts))))
         == SumBlocks(seq(|ts|, i requires 0 <= i < |ts| => Block(ts[i], Plain)))
  {
    var bs := seq(|ts|, i requires 0 <= i < |ts| => Block(ts[i], Plain));
    if ts != [] {
      var front := ts[..|ts| - 1];
      ResultCostsItsTexts(front);
      assert bs[..|bs| - 1] == seq(|front|, i requires 0 <= i < |front| => Block(front[i], Plain));
    }
  }

  /** `count_all_tokens_local`. */
  function CountAllTokensLocal(system: seq<string>, messages: seq<Message>, tools: seq<Tool>): nat {
    var n := Unfloored(system, messages, tools);
    if n == 0 then 1 else n
  }

  /** `as i32` keeps the low 32 bits. */
  function ToI32(n: nat): int {
    var m := n % 0x1_0000_0000;
    if m >= 0x8000_0000 then m - 0x1_0000_0000 else m
  }

  function LastUser(messages: seq<Message>): Option<nat> {
    if messages == [] then None
    else if messages[|messages| - 1].role == "user" then Some(|messages| - 1)
    else LastUser(messages[..|messages| - 1])
  }

  lemma {:induction false} LastUserInBounds(messages: seq<Message>)
    ensures LastUser(messages).Some? ==> LastUser(messages).value < |messages|
  {
    if messages != [] { LastUserInBounds(messages[..|messages| - 1]); }
  }

  /** `count_prefix_tokens`. */
  function CountPrefixTokens(system: seq<string>, messages: seq<Message>): int {
    match LastUser(messages)
    case None => 0
    case Some(at) =>
      LastUserInBounds(messages);
      if at == 0 then 0 else ToI32(Unfloored(system, [], []) + Unfloored([], messages[..at], []))
  }

  lemma {:induction false} PrefixCountsLess(ms: seq<Message>, n: nat)
    requires n <= |ms|
    ensures SumMessages(ms[..n]) <= SumMessages(ms)
  {
    if n < |ms| {
      assert ms[..|ms| - 1][..n] == ms[..n];
      PrefixCountsLess(ms[..|ms| - 1], n);
    } else {
      assert ms[..n] == ms;
    }
  }

  /** The cached prefix never counts more than the whole request it is a part of, whatever
      tools come with it; wrap-around only makes it smaller. */
  lemma PrefixWithinWhole(system: seq<string>, messages: seq<Message>, tools: seq<Tool>)
    ensures CountPrefixTokens(system, messages) <= CountAllTokensLocal(system, messages, tools)
  {
    LastUserInBounds(messages);
    match LastUser(messages) {
      case None =>
      case Some(at) => PrefixCountsLess(messages, at);
    }
  }

  lemma {:induction false} LastUserAt(history: seq<Message>, turn: Message, tail: seq<Message>)
    requires turn.role == "user" && forall k :: 0 <= k < |tail| ==> tail[k].role != "user"
    ensures LastUser(history + [turn] + tail) == Some(|history|)
    decreases |tail|
  {
    var ms := history + [turn] + tail;
    if tail != [] {
      assert ms[|ms| - 1] == tail[|tail| - 1];
      assert ms[..|ms| - 1] == history + [turn] + tail[..|tail| - 1];
      LastUserAt(history, turn, tail[..|tail| - 1]);
    } else {
      assert ms[|ms| - 1] == turn;
    }
  }

  /** It is exactly the system and the messages before the last user message, 0 on the first
      turn; neither that turn nor any prefilled answer after it changes it. */
  lemma PrefixIsHistory(system: seq<string>, history: seq<Message>, turn: Message, tail: seq<Message>)
    requires turn.role == "user" && forall k :: 0 <= k < |tail| ==> tail[k].role != "user"
    ensures CountPrefixTokens(system, history + [turn] + tail)
         == if history == [] then 0 else ToI32(SumTexts(system) + SumMessages(history))
  {
    LastUserAt(history, turn, tail);
    assert (history + [turn] + tail)[..|history|] == history;
  }
}
