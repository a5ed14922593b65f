/** The span partition of bench/respcost.go: a nested walk over the tokens of a
    retrieve_tools response labels every byte of its text.

    The JSON decoder is its token stream: the tokens in order, each with the
    offset at which it ends. The stream stops where the text stops being JSON,
    so running off its end is the decoder's error. */
module ResponseSpans {
  import opened Strings

  datatype Component = InputSchemas | Descriptions | UsageInstructions | Metadata | Other

  datatype Span<L> = Span(tag: L, start: int, end: int)

  datatype Token = OpenObject | CloseObject | OpenArray | CloseArray | Text(s: string) | Scalar

  // ----- partitions of a byte range -----

  /** Sorted, non-empty, contiguous spans that cover exactly [0, n). */
  predicate Covers<L>(spans: seq<Span<L>>, n: int)
    ensures Covers(spans, n) ==> 0 <= n && (n == 0 <==> spans == [])
    decreases |spans|
  {
    if spans == [] then n == 0
    else
      var last := spans[|spans| - 1];
      last.start < last.end == n && Covers(spans[..|spans| - 1], last.start)
  }

  /** The label of the span that holds byte b. */
  function LabelAt<L>(spans: seq<Span<L>>, n: int, b: int): L
    requires Covers(spans, n) && 0 <= b < n
    decreases |spans|
  {
    var last := spans[|spans| - 1];
    if last.start <= b then last.tag else LabelAt(spans[..|spans| - 1], last.start, b)
  }

  // ----- the structure of a response -----

  datatype Pair = Pair(key: string, value: seq<Token>)

  datatype Tool = Tool(pairs: seq<Pair>)

  datatype TopPair = Plain(pair: Pair) | Tools(tools: seq<Tool>)

  predicate IsClose(t: Token) {
    t == CloseObject || t == CloseArray
  }

  /** How many tokens until `depth` open brackets are closed. */
  function Skip(ts: seq<Token>, depth: nat): (n: Option<nat>)
    ensures n.Some? ==> n.value <= |ts|
  {
    if depth == 0 then Some(0)
    else if ts == [] then None
    else
      var rest := Skip(ts[1..], if IsClose(ts[0]) then depth - 1
                                else if ts[0] == OpenObject || ts[0] == OpenArray then depth + 1
                                else depth);
      if rest.None? then None else Some(1 + rest.value)
  }

  /** How many tokens the first value has, if the tokens start with a value. */
  function ValueLength(ts: seq<Token>): (n: Option<nat>)
    ensures n.Some? ==> 1 <= n.value <= |ts|
  {
    if ts == [] || IsClose(ts[0]) then None
    else if ts[0] == OpenObject || ts[0] == OpenArray then
      var rest := Skip(ts[1..], 1);
      if rest.None? then None else Some(1 + rest.value)
    else Some(1)
  }

  ghost predicate IsValue(ts: seq<Token>) {
    ValueLength(ts) == Some(|ts|)
  }

  ghost predicate ValidPairs(pairs: seq<Pair>) {
    forall p <- pairs :: IsValue(p.value)
  }

  ghost predicate ValidTools(tools: seq<Tool>) {
    forall t <- tools :: ValidPairs(t.pairs)
  }

  ghost predicate ValidTop(top: seq<TopPair>) {
    forall t <- top :: match t
                       case Plain(p) => p.key != "tools" && IsValue(p.value)
                       case Tools(tools) => ValidTools(tools)
  }

  function PairsTokens(pairs: seq<Pair>): seq<Token> {
    if pairs == [] then [] else [Text(pairs[0].key)] + pairs[0].value + PairsTokens(pairs[1..])
  }

  function ToolTokens(t: Tool): seq<Token> {
    [OpenObject] + PairsTokens(t.pairs) + [CloseObject]
  }

  function ToolsTokens(tools: seq<Tool>): seq<Token> {
    if tools == [] then [] else ToolTokens(tools[0]) + ToolsTokens(tools[1..])
  }

  function TopPairTokens(t: TopPair): seq<Token> {
    match t
    case Plain(p) => [Text(p.key)] + p.value
    case Tools(tools) => [Text("tools"), OpenArray] + ToolsTokens(tools) + [CloseArray]
  }

  function TopTokens(top: seq<TopPair>): seq<Token> {
    if top == [] then [] else TopPairTokens(top[0]) + TopTokens(top[1..])
  }

  function ResponseTokens(top: seq<TopPair>): seq<Token> {
    [OpenObject] + TopTokens(top) + [CloseObject]
  }

  // ----- which component owns which token -----

  function Repeat(c: Component, n: nat): seq<Component> {
    seq(n, _ => c)
  }

  function PairLabel(key: string): Component {
    if key == "inputSchema" then InputSchemas else if key == "description" then Descriptions else Metadata
  }

  function PairsLabels(pairs: seq<Pair>): seq<Component> {
    if pairs == [] then []
    else Repeat(PairLabel(pairs[0].key), 1 + |pairs[0].value|) + PairsLabels(pairs[1..])
  }

  function ToolLabels(t: Tool): seq<Component> {
    [Other] + PairsLabels(t.pairs) + [Other]
  }

  function ToolsLabels(tools: seq<Tool>): seq<Component> {
    if tools == [] then [] else ToolLabels(tools[0]) + ToolsLabels(tools[1..])
  }

  function TopPairLabels(t: TopPair): seq<Component> {
    match t
    case Plain(p) => Repeat(if p.key == "usage_instructions" then UsageInstructions else Other, 1 + |p.value|)
    case Tools(tools) => [Other, Other] + ToolsLabels(tools) + [Other]
  }

  function TopLabels(top: seq<TopPair>): seq<Component> {
    if top == [] then [] else TopPairLabels(top[0]) + TopLabels(top[1..])
  }

  /** One label per token of the response. */
  function ResponseLabels(top: seq<TopPair>): seq<Component> {
    [Other] + TopLabels(top) + [Other]
  }

  /** The number of tools in the last "tools" array. */
  function ToolCount(top: seq<TopPair>): nat {
    if top == [] then 0
    else match top[|top| - 1]
      case Plain(_) => ToolCount(top[..|top| - 1])
      case Tools(tools) => |tools|
  }

  /** The first token that ends after byte b; the number of tokens if there is none. */
  function TokenAt(ends: seq<nat>, b: nat): (i: nat)
    ensures i <= |ends|
  {
    if ends == [] || b < ends[0] then 0 else 1 + TokenAt(ends[1..], b)
  }

  /** Each token owns the bytes from the end of the token before it to its own
      end; what follows the last labelled token is `Other`. */
  function Owner(ends: seq<nat>, labels: seq<Component>, b: nat): Component {
    var i := TokenAt(ends, b);
    if i < |labels| then labels[i] else Other
  }

  // ----- reading a response off a token list -----

  datatype Parsed<T> = Done(value: T, rest: seq<Token>) | Fail

  function ParsePairs(ts: seq<Token>): (r: Parsed<seq<Pair>>)
    decreases |ts|
  {
    if ts == [] || IsClose(ts[0]) then Done([], ts)
    else if !ts[0].Text? || ValueLength(ts[1..]).None? then Fail
    else
      var n := ValueLength(ts[1..]).value;
      match ParsePairs(ts[1 + n..])
      case Fail => Fail
      case Done(pairs, rest) => Done([Pair(ts[0].s, ts[1..1 + n])] + pairs, rest)
  }

  /** The tokens after `t`, if they start with it. */
  function Expect(ts: seq<Token>, t: Token): Option<seq<Token>> {
    if ts != [] && ts[0] == t then Some(ts[1..]) else None
  }

  function ParseTool(ts: seq<Token>): (r: Parsed<Tool>)
  {
    if Expect(ts, OpenObject).None? then Fail
    else match ParsePairs(ts[1..])
      case Fail => Fail
      case Done(pairs, rest) =>
        if Expect(rest, CloseObject).None? then Fail else Done(Tool(pairs), rest[1..])
  }

  lemma {:induction false} ParsePairsShrinks(ts: seq<Token>)
    ensures ParsePairs(ts).Done? ==> |ParsePairs(ts).rest| <= |ts|
    decreases |ts|
  {
    if ts != [] && !IsClose(ts[0]) && ValueLength(ts[1..]).Some? {
      ParsePairsShrinks(ts[1 + ValueLength(ts[1..]).value..]);
    }
  }

  function ParseToolList(ts: seq<Token>): (r: Parsed<seq<Tool>>)
    decreases |ts|
  {
    if ts == [] || IsClose(ts[0]) then Done([], ts)
    else match ParseTool(ts)
      case Fail => Fail
      case Done(tool, rest) =>
        ParsePairsShrinks(ts[1..]);
        match ParseToolList(rest)
        case Fail => Fail
        case Done(tools, rest') => Done([tool] + tools, rest')
  }

  function ParseTools(ts: seq<Token>): Parsed<seq<Tool>> {
    if Expect(ts, OpenArray).None? then Fail
    else match ParseToolList(ts[1..])
      case Fail => Fail
      case Done(tools, rest) =>
        if Expect(rest, CloseArray).None? then Fail else Done(tools, rest[1..])
  }

  lemma {:induction false} ParseToolListShrinks(ts: seq<Token>)
    ensures ParseToolList(ts).Done? ==> |ParseToolList(ts).rest| <= |ts|
    decreases |ts|
  {
    if ts != [] && !IsClose(ts[0]) && ParseTool(ts).Done? {
      ParsePairsShrinks(ts[1..]);
      ParseToolListShrinks(ParseTool(ts).rest);
    }
  }

  function ParseTopPair(ts: seq<Token>): Parsed<TopPair> {
    if ts == [] || !ts[0].Text? then Fail
    else if ts[0].s == "tools" then
      match ParseTools(ts[1..])
      case Fail => Fail
      case Done(tools, rest) => Done(Tools(tools), rest)
    else
      match ValueLength(ts[1..])
      case None => Fail
      case Some(n) => Done(Plain(Pair(ts[0].s, ts[1..1 + n])), ts[1 + n..])
  }

  function ParseTop(ts: seq<Token>): Parsed<seq<TopPair>>
    decreases |ts|
  {
    if ts == [] || IsClose(ts[0]) then Done([], ts)
    else match ParseTopPair(ts)
      case Fail => Fail
      case Done(pair, rest) =>
        ParseTopPairShrinks(ts);
        match ParseTop(rest)
        case Fail => Fail
        case Done(top, rest') => Done([pair] + top, rest')
  }

  lemma {:induction false} ParseTopPairShrinks(ts: seq<Token>)
    ensures ParseTopPair(ts).Done? ==> |ParseTopPair(ts).rest| < |ts|
  {
    if ts != [] && Expect(ts[1..], OpenArray).Some? {
      ParseToolListShrinks(ts[1..][1..]);
    }
  }

  function ParseResponse(ts: seq<Token>): Parsed<seq<TopPair>> {
    if Expect(ts, OpenObject).None? then Fail
    else match ParseTop(ts[1..])
      case Fail => Fail
      case Done(top, rest) =>
        if Expect(rest, CloseObject).None? then Fail else Done(top, rest[1..])
  }

  // ----- parsing and listing tokens are inverse -----

  lemma {:induction false} SkipExtends(v: seq<Token>, rest: seq<Token>, depth: nat)
    requires Skip(v, depth) == Some(|v|)
    ensures Skip(v + rest, depth) == Some(|v|)
  {
    if depth > 0 {
      assert (v + rest)[1..] == v[1..] + rest;
      SkipExtends(v[1..], rest, if IsClose(v[0]) then depth - 1
                                else if v[0] == OpenObject || v[0] == OpenArray then depth + 1
                                else depth);
    }
  }

  lemma {:induction false} ValueExtends(v: seq<Token>, rest: seq<Token>)
    requires IsValue(v)
    ensures ValueLength(v + rest) == Some(|v|)
  {
    if v[0] == OpenObject || v[0] == OpenArray {
      assert (v + rest)[1..] == v[1..] + rest;
      SkipExtends(v[1..], rest, 1);
    }
  }

  lemma {:induction false} SkipIsExact(ts: seq<Token>, depth: nat)
    requires Skip(ts, depth).Some?
    ensures Skip(ts[..Skip(ts, depth).value], depth) == Skip(ts, depth)
  {
    if depth > 0 {
      var d := if IsClose(ts[0]) then depth - 1
               else if ts[0] == OpenObject || ts[0] == OpenArray then depth + 1
               else depth;
      SkipIsExact(ts[1..], d);
      var n := Skip(ts, depth).value;
      assert ts[..n][1..] == ts[1..][..n - 1];
    }
  }

  lemma {:induction false} ValueIsExact(ts: seq<Token>)
    requires ValueLength(ts).Some?
    ensures IsValue(ts[..ValueLength(ts).value])
  {
    if ts[0] == OpenObject || ts[0] == OpenArray {
      SkipIsExact(ts[1..], 1);
      var n := ValueLength(ts).value;
      assert ts[..n][1..] == ts[1..][..n - 1];
    }
  }

  lemma {:induction false} Slices(h: Token, v: seq<Token>, tail: seq<Token>)
    ensures var ts := [h] + v + tail;
            ts[0] == h && ts[1..] == v + tail && ts[1..1 + |v|] == v && ts[1 + |v|..] == tail
  {
  }

  lemma {:induction false} Regroup(a: seq<Token>, b: seq<Token>, c: seq<Token>, d: seq<Token>)
    ensures a + b + c + d == a + b + (c + d)
  {
  }

  lemma {:induction false} ParsePairsInverts(pairs: seq<Pair>, rest: seq<Token>)
    requires ValidPairs(pairs) && rest != [] && IsClose(rest[0])
    ensures ParsePairs(PairsTokens(pairs) + rest) == Done(pairs, rest)
  {
    if pairs == [] {
      assert PairsTokens(pairs) + rest == rest;
    } else {
      ParsePairsInverts(pairs[1..], rest);
      OnePairInverts(pairs, rest);
    }
  }

  lemma {:induction false} OnePairInverts(pairs: seq<Pair>, rest: seq<Token>)
    requires ValidPairs(pairs) && pairs != [] && rest != [] && IsClose(rest[0])
    requires ParsePairs(PairsTokens(pairs[1..]) + rest) == Done(pairs[1..], rest)
    ensures ParsePairs(PairsTokens(pairs) + rest) == Done(pairs, rest)
  {
    hide ValueLength, Skip, IsValue;
    var p, tail := pairs[0], PairsTokens(pairs[1..]) + rest;
    assert p in pairs;
    Regroup([Text(p.key)], p.value, PairsTokens(pairs[1..]), rest);
    Slices(Text(p.key), p.value, tail);
    ValueExtends(p.value, tail);
    assert pairs == [p] + pairs[1..];
  }

  lemma {:induction false} ParsePairsIsSound(ts: seq<Token>)
    requires ParsePairs(ts).Done?
    ensures ts == PairsTokens(ParsePairs(ts).value) + ParsePairs(ts).rest && ValidPairs(ParsePairs(ts).value)
    decreases |ts|
  {
    if ts != [] && !IsClose(ts[0]) {
      var n := ValueLength(ts[1..]).value;
      ParsePairsIsSound(ts[1 + n..]);
      OnePairIsSound(ts, n);
    }
  }

  lemma {:induction false} ParsePairsUnfolds(ts: seq<Token>, n: nat) returns (p: Pair)
    requires ts != [] && !IsClose(ts[0]) && ParsePairs(ts).Done? && ValueLength(ts[1..]) == Some(n)
    ensures ParsePairs(ts[1 + n..]).Done? && IsValue(p.value) && ts == [Text(p.key)] + p.value + ts[1 + n..]
    ensures ParsePairs(ts) == Done([p] + ParsePairs(ts[1 + n..]).value, ParsePairs(ts[1 + n..]).rest)
  {
    hide ValueLength, Skip, IsValue;
    p := Pair(ts[0].s, ts[1..1 + n]);
    ValueIsExact(ts[1..]);
    assert ts[1..][..n] == p.value;
  }

  lemma {:induction false} OnePairIsSound(ts: seq<Token>, n: nat)
    requires ts != [] && !IsClose(ts[0]) && ParsePairs(ts).Done? && ValueLength(ts[1..]) == Some(n)
    requires ParsePairs(ts[1 + n..]).Done? ==>
      var r := ParsePairs(ts[1 + n..]); ts[1 + n..] == PairsTokens(r.value) + r.rest && ValidPairs(r.value)
    ensures ts == PairsTokens(ParsePairs(ts).value) + ParsePairs(ts).rest && ValidPairs(ParsePairs(ts).value)
  {
    hide ParsePairs, ValueLength, IsValue;
    var p := ParsePairsUnfolds(ts, n);
    ConsPair(p, ParsePairs(ts[1 + n..]).value, ParsePairs(ts[1 + n..]).rest);
  }

  lemma {:induction false} ConsPair(p: Pair, pairs: seq<Pair>, rest: seq<Token>)
    ensures PairsTokens([p] + pairs) + rest == [Text(p.key)] + p.value + (PairsTokens(pairs) + rest)
  {
    assert ([p] + pairs)[1..] == pairs;
    Regroup([Text(p.key)], p.value, PairsTokens(pairs), rest);
  }

  lemma {:induction false} ParseToolListInverts(tools: seq<Tool>, rest: seq<Token>)
    requires ValidTools(tools) && rest != [] && IsClose(rest[0])
    ensures ParseToolList(ToolsTokens(tools) + rest) == Done(tools, rest)
  {
    if tools == [] {
      assert ToolsTokens(tools) + rest == rest;
    } else {
      assert forall t <- tools[1..] :: t in tools;
      ParseToolListInverts(tools[1..], rest);
      assert tools[0] in tools;
      NextToolInverts(tools, rest);
    }
  }

  lemma {:induction false} NextToolInverts(tools: seq<Tool>, rest: seq<Token>)
    requires tools != [] && ValidPairs(tools[0].pairs)
    requires ParseToolList(ToolsTokens(tools[1..]) + rest) == Done(tools[1..], rest)
    ensures ParseToolList(ToolsTokens(tools) + rest) == Done(tools, rest)
  {
    hide *;
    var tail := ToolsTokens(tools[1..]) + rest;
    NextToolTokens(tools, rest);
    OneToolInverts(tools[0], tail);
    NextToolOfList(ToolTokens(tools[0]) + tail, tools[0], tail);
    assert tools == [tools[0]] + tools[1..];
  }

  lemma {:induction false} NextToolTokens(tools: seq<Tool>, rest: seq<Token>)
    requires tools != []
    ensures ToolsTokens(tools) + rest == ToolTokens(tools[0]) + (ToolsTokens(tools[1..]) + rest)
  {
    hide ToolTokens;
  }

  lemma {:induction false} NextToolOfList(ts: seq<Token>, t: Tool, tail: seq<Token>)
    requires [OpenObject] <= ts && ParseTool(ts) == Done(t, tail) && ParseToolList(tail).Done?
    ensures ParseToolList(ts) == Done([t] + ParseToolList(tail).value, ParseToolList(tail).rest)
  {
    hide ParseTool;
  }

  lemma {:induction false} OneToolInverts(t: Tool, tail: seq<Token>)
    requires ValidPairs(t.pairs)
    ensures ParseTool(ToolTokens(t) + tail) == Done(t, tail)
    ensures [OpenObject] <= ToolTokens(t) + tail
  {
    hide ParsePairs, PairsTokens, ValidPairs;
    var ts := ToolTokens(t) + tail;
    assert ts[1..] == PairsTokens(t.pairs) + ([CloseObject] + tail);
    ParsePairsInverts(t.pairs, [CloseObject] + tail);
    assert ([CloseObject] + tail)[1..] == tail;
  }

  lemma {:induction false} ParseToolListIsSound(ts: seq<Token>)
    requires ParseToolList(ts).Done?
    ensures ts == ToolsTokens(ParseToolList(ts).value) + ParseToolList(ts).rest && ValidTools(ParseToolList(ts).value)
    decreases |ts|
  {
    hide ParseTool, ToolTokens, ValidPairs;
    if ts != [] && !IsClose(ts[0]) {
      OneToolIsSound(ts);
      var tool, rest := ParseTool(ts).value, ParseTool(ts).rest;
      ParseToolListIsSound(rest);
      assert ts == ToolTokens(tool) + (ToolsTokens(ParseToolList(rest).value) + ParseToolList(rest).rest);
    }
  }

  lemma {:induction false} OneToolIsSound(ts: seq<Token>)
    requires ParseTool(ts).Done?
    ensures ts == ToolTokens(ParseTool(ts).value) + ParseTool(ts).rest && |ParseTool(ts).rest| < |ts|
    ensures ValidPairs(ParseTool(ts).value.pairs)
  {
    hide ParsePairs, PairsTokens, ValidPairs;
    ParsePairsIsSound(ts[1..]);
    ParsePairsShrinks(ts[1..]);
    assert ts == [OpenObject] + ts[1..];
  }

  lemma {:induction false} ParseTopPairInverts(t: TopPair, rest: seq<Token>)
    requires ValidTop([t])
    ensures ParseTopPair(TopPairTokens(t) + rest) == Done(t, rest)
    ensures |TopPairTokens(t)| > 0 && TopPairTokens(t)[0].Text?
  {
    assert t in [t];
    match t {
      case Plain(p) => ParsePlainInverts(p, rest);
      case Tools(tools) => ParseToolsInverts(tools, rest);
    }
  }

  lemma {:induction false} ParsePlainInverts(p: Pair, rest: seq<Token>)
    requires p.key != "tools" && IsValue(p.value)
    ensures ParseTopPair(TopPairTokens(Plain(p)) + rest) == Done(Plain(p), rest)
  {
    hide ParseTools, ValueLength;
    var ts := TopPairTokens(Plain(p)) + rest;
    assert ts[1..] == p.value + rest;
    ValueExtends(p.value, rest);
    assert ts[1..1 + |p.value|] == p.value && ts[1 + |p.value|..] == rest;
  }

  lemma {:induction false} ParseToolsInverts(tools: seq<Tool>, rest: seq<Token>)
    requires ValidTools(tools)
    ensures ParseTopPair(TopPairTokens(Tools(tools)) + rest) == Done(Tools(tools), rest)
  {
    hide ParseToolList, ToolsTokens, ValueLength;
    var ts := TopPairTokens(Tools(tools)) + rest;
    assert ts[1..][1..] == ToolsTokens(tools) + ([CloseArray] + rest);
    ParseToolListInverts(tools, [CloseArray] + rest);
    assert ([CloseArray] + rest)[1..] == rest;
  }

  lemma {:induction false} ParseTopPairIsSound(ts: seq<Token>)
    requires ParseTopPair(ts).Done?
    ensures ts == TopPairTokens(ParseTopPair(ts).value) + ParseTopPair(ts).rest && ValidTop([ParseTopPair(ts).value])
  {
    if ts[0].s == "tools" {
      ToolsPairIsSound(ts);
    } else {
      PlainPairIsSound(ts);
    }
  }

  lemma {:induction false} ToolsPairIsSound(ts: seq<Token>)
    requires ParseTopPair(ts).Done? && ts[0] == Text("tools")
    ensures ts == TopPairTokens(ParseTopPair(ts).value) + ParseTopPair(ts).rest && ValidTop([ParseTopPair(ts).value])
  {
    hide ParseTools, ToolsTokens, ValueLength, ValidTools;
    ParseToolsIsSound(ts[1..]);
    assert ts == [Text("tools")] + ts[1..];
  }

  lemma {:induction false} PlainPairIsSound(ts: seq<Token>)
    requires ParseTopPair(ts).Done? && ts[0].s != "tools"
    ensures ts == TopPairTokens(ParseTopPair(ts).value) + ParseTopPair(ts).rest && ValidTop([ParseTopPair(ts).value])
  {
    hide ParseTools, ToolsTokens, ValueLength;
    var n := ValueLength(ts[1..]).value;
    ValueIsExact(ts[1..]);
    assert ts[1..][..n] == ts[1..1 + n];
  }

  lemma {:induction false} ParseToolsIsSound(ts: seq<Token>)
    requires ParseTools(ts).Done?
    ensures ValidTools(ParseTools(ts).value)
    ensures ts == [OpenArray] + ToolsTokens(ParseTools(ts).value) + [CloseArray] + ParseTools(ts).rest
  {
    hide ParseToolList, ToolsTokens, ValidTools;
    ParseToolListIsSound(ts[1..]);
    assert ts == [OpenArray] + ts[1..];
  }

  lemma {:induction false} ParseTopInverts(top: seq<TopPair>, rest: seq<Token>)
    requires ValidTop(top) && rest != [] && IsClose(rest[0])
    ensures ParseTop(TopTokens(top) + rest) == Done(top, rest)
  {
    if top == [] {
      assert TopTokens(top) + rest == rest;
    } else {
      assert forall t <- top[1..] :: t in top;
      ParseTopInverts(top[1..], rest);
      assert top[0] in top;
      NextTopPairInverts(top, rest);
    }
  }

  lemma {:induction false} NextTopPairInverts(top: seq<TopPair>, rest: seq<Token>)
    requires top != [] && ValidTop([top[0]])
    requires ParseTop(TopTokens(top[1..]) + rest) == Done(top[1..], rest)
    ensures ParseTop(TopTokens(top) + rest) == Done(top, rest)
  {
    hide ParseTopPair, TopPairTokens, ValidTop;
    var tail := TopTokens(top[1..]) + rest;
    var ts := TopPairTokens(top[0]) + tail;
    assert TopTokens(top) + rest == ts;
    ParseTopPairInverts(top[0], tail);
    assert top == [top[0]] + top[1..];
  }

  lemma {:induction false} ParseTopIsSound(ts: seq<Token>)
    requires ParseTop(ts).Done?
    ensures ts == TopTokens(ParseTop(ts).value) + ParseTop(ts).rest && ValidTop(ParseTop(ts).value)
    decreases |ts|
  {
    hide ParseTopPair, TopPairTokens;
    if ts != [] && !IsClose(ts[0]) {
      ParseTopPairIsSound(ts);
      ParseTopPairShrinks(ts);
      var pair, rest := ParseTopPair(ts).value, ParseTopPair(ts).rest;
      ParseTopIsSound(rest);
      assert pair in [pair];
      assert ts == TopPairTokens(pair) + (TopTokens(ParseTop(rest).value) + ParseTop(rest).rest);
    }
  }

  /** A token list opens with a response exactly when the walk's grammar accepts
      it, and then that response and what follows it are unique. */
  lemma {:induction false} ParseResponseInverts(top: seq<TopPair>, rest: seq<Token>)
    requires ValidTop(top)
    ensures ParseResponse(ResponseTokens(top) + rest) == Done(top, rest)
  {
    hide ParseTop, TopTokens;
    var ts := ResponseTokens(top) + rest;
    assert ts[1..] == TopTokens(top) + ([CloseObject] + rest);
    ParseTopInverts(top, [CloseObject] + rest);
    assert ([CloseObject] + rest)[1..] == rest;
  }

  lemma {:induction false} ParseResponseIsSound(ts: seq<Token>)
    requires ParseResponse(ts).Done?
    ensures ValidTop(ParseResponse(ts).value)
    ensures ts == ResponseTokens(ParseResponse(ts).value) + ParseResponse(ts).rest
  {
    hide ParseTop, TopTokens;
    ParseTopIsSound(ts[1..]);
    assert ts == [OpenObject] + ts[1..];
  }

  // ----- labels line up with tokens -----

  lemma {:induction false} PairsLabelsLength(pairs: seq<Pair>)
    ensures |PairsLabels(pairs)| == |PairsTokens(pairs)|
  {
    if pairs != [] {
      PairsLabelsLength(pairs[1..]);
    }
  }

  lemma {:induction false} ToolsLabelsLength(tools: seq<Tool>)
    ensures |ToolsLabels(tools)| == |ToolsTokens(tools)|
  {
    if tools != [] {
      PairsLabelsLength(tools[0].pairs);
      ToolsLabelsLength(tools[1..]);
    }
  }

  lemma {:induction false} TopLabelsLength(top: seq<TopPair>)
    ensures |TopLabels(top)| == |TopTokens(top)|
  {
    if top != [] {
      if top[0].Tools? {
        ToolsLabelsLength(top[0].tools);
      }
      TopLabelsLength(top[1..]);
    }
  }

  lemma {:induction false} PairsLabelsAppend(pairs: seq<Pair>, p: Pair)
    ensures PairsLabels(pairs + [p]) == PairsLabels(pairs) + Repeat(PairLabel(p.key), 1 + |p.value|)
  {
    if pairs == [] {
      assert pairs + [p] == [p];
    } else {
      PairsLabelsAppend(pairs[1..], p);
      assert (pairs + [p])[1..] == pairs[1..] + [p];
    }
  }

  lemma {:induction false} ToolsLabelsAppend(tools: seq<Tool>, t: Tool)
    ensures ToolsLabels(tools + [t]) == ToolsLabels(tools) + ToolLabels(t)
  {
    hide ToolLabels;
    if tools == [] {
      assert tools + [t] == [t];
    } else {
      ToolsLabelsAppend(tools[1..], t);
      assert (tools + [t])[1..] == tools[1..] + [t];
    }
  }

  lemma {:induction false} TopLabelsAppend(top: seq<TopPair>, t: TopPair)
    ensures TopLabels(top + [t]) == TopLabels(top) + TopPairLabels(t)
  {
    hide TopPairLabels;
    if top == [] {
      assert top + [t] == [t];
    } else {
      TopLabelsAppend(top[1..], t);
      assert (top + [t])[1..] == top[1..] + [t];
    }
  }

  lemma {:induction false} NoToolsYet()
    ensures ToolCount([]) == 0
  {
  }

  lemma {:induction false} ToolCountAppend(top: seq<TopPair>, t: TopPair)
    ensures ToolCount(top + [t]) == match t case Plain(_) => ToolCount(top) case Tools(tools) => |tools|
  {
    assert (top + [t])[..|top|] == top;
  }

  // ----- offsets -----

  /** Every token ends after the one before it and within the text. */
  ghost predicate Lexed(tokens: seq<Token>, ends: seq<nat>, n: nat) {
    && |tokens| == |ends|
    && (forall i | 0 <= i < |ends| :: 0 < ends[i] <= n)
    && (forall i, j | 0 <= i < j < |ends| :: ends[i] < ends[j])
  }

  /** The decoder's offset after i tokens. */
  function EndOf(ends: seq<nat>, i: nat): nat
    requires i <= |ends|
  {
    if i == 0 then 0 else ends[i - 1]
  }

  lemma {:induction false} TokenAtIs(ends: seq<nat>, b: nat, i: nat)
    requires i <= |ends| && (forall j | 0 <= j < i :: ends[j] <= b) && (i < |ends| ==> b < ends[i])
    ensures TokenAt(ends, b) == i
  {
    if i > 0 {
      TokenAtIs(ends[1..], b, i - 1);
    }
  }

  /** The bytes between two offsets belong to the tokens between them. */
  lemma {:induction false} TokenBetween(tokens: seq<Token>, ends: seq<nat>, n: nat, lo: nat, hi: nat, b: nat)
    requires Lexed(tokens, ends, n) && lo <= hi <= |ends| && EndOf(ends, lo) <= b < EndOf(ends, hi)
    ensures lo <= TokenAt(ends, b) < hi
    decreases hi - lo
  {
    if b < EndOf(ends, lo + 1) {
      TokenAtIs(ends, b, lo);
    } else {
      TokenBetween(tokens, ends, n, lo + 1, hi, b);
    }
  }

  lemma {:induction false} TokenAfter(tokens: seq<Token>, ends: seq<nat>, n: nat, lo: nat, b: nat)
    requires Lexed(tokens, ends, n) && lo <= |ends| && EndOf(ends, lo) <= b
    ensures lo <= TokenAt(ends, b)
  {
    if b < EndOf(ends, |ends|) {
      TokenBetween(tokens, ends, n, lo, |ends|, b);
    } else {
      TokenAtIs(ends, b, |ends|);
    }
  }

  /** The spans cover the first `mark` bytes, and each byte has its owner's label. */
  ghost predicate Labelled(spans: seq<Span<Component>>, mark: nat, ends: seq<nat>, labels: seq<Component>) {
    Covers(spans, mark) && forall b: nat | b < mark :: LabelAt(spans, mark, b) == Owner(ends, labels, b)
  }

  lemma {:induction false} EmitLabels(spans: seq<Span<Component>>, tokens: seq<Token>, ends: seq<nat>, n: nat,
                                      labels: seq<Component>, hi: nat, tag: Component)
    requires Lexed(tokens, ends, n) && |labels| < hi <= |ends|
    requires Labelled(spans, EndOf(ends, |labels|), ends, labels)
    ensures EndOf(ends, |labels|) < EndOf(ends, hi)
    ensures Labelled(spans + [Span(tag, EndOf(ends, |labels|), EndOf(ends, hi))], EndOf(ends, hi),
                     ends, labels + Repeat(tag, hi - |labels|))
  {
    var lo, mark, end := |labels|, EndOf(ends, |labels|), EndOf(ends, hi);
    assert 0 < ends[hi - 1] && (lo > 0 ==> ends[lo - 1] < ends[hi - 1]);
    var after, labels' := spans + [Span(tag, mark, end)], labels + Repeat(tag, hi - lo);
    assert after[..|after| - 1] == spans;
    forall b: nat | b < end ensures LabelAt(after, end, b) == Owner(ends, labels', b) {
      if b < mark {
        TokenBetween(tokens, ends, n, 0, lo, b);
      } else {
        TokenBetween(tokens, ends, n, lo, hi, b);
      }
    }
  }

  /** The last span may reach beyond the last token: the bytes there are `Other` too. */
  lemma {:induction false} FinishLabels(spans: seq<Span<Component>>, tokens: seq<Token>, ends: seq<nat>, n: nat,
                                        labels: seq<Component>, hi: nat)
    requires Lexed(tokens, ends, n) && |labels| + 1 == hi <= |ends|
    requires Labelled(spans, EndOf(ends, |labels|), ends, labels)
    ensures EndOf(ends, |labels|) < n
    ensures Labelled(spans + [Span(Other, EndOf(ends, |labels|), n)], n, ends, labels + [Other])
  {
    var lo, mark := |labels|, EndOf(ends, |labels|);
    assert 0 < ends[hi - 1] <= n && (lo > 0 ==> ends[lo - 1] < ends[hi - 1]);
    var after, labels' := spans + [Span(Other, mark, n)], labels + [Other];
    assert after[..|after| - 1] == spans;
    forall b: nat | b < n ensures LabelAt(after, n, b) == Owner(ends, labels', b) {
      if b < mark {
        TokenBetween(tokens, ends, n, 0, lo, b);
      } else {
        TokenAfter(tokens, ends, n, lo, b);
      }
    }
  }

  /** The token stream is one response, and the text after its last token is
      white space; `trimmed` is the length of the text without trailing white space. */
  ghost predicate Accepts(tokens: seq<Token>, ends: seq<nat>, trimmed: nat)
    requires |tokens| == |ends|
  {
    var r := ParseResponse(tokens);
    r.Done? && |r.rest| <= |tokens| && trimmed <= EndOf(ends, |tokens| - |r.rest|)
  }

  /** What is accepted, without mentioning the walk: the tokens of some response,
      which is unique, then nothing but white space. */
  lemma {:induction false} AcceptsExactlyResponses(tokens: seq<Token>, ends: seq<nat>, trimmed: nat)
    requires |tokens| == |ends|
    ensures Accepts(tokens, ends, trimmed) <==>
      exists top :: ValidTop(top) && ResponseTokens(top) <= tokens && trimmed <= EndOf(ends, |ResponseTokens(top)|)
    ensures forall top :: ValidTop(top) && ResponseTokens(top) <= tokens ==>
      ParseResponse(tokens) == Done(top, tokens[|ResponseTokens(top)|..])
  {
    forall top | ValidTop(top) && ResponseTokens(top) <= tokens
      ensures ParseResponse(tokens) == Done(top, tokens[|ResponseTokens(top)|..])
    {
      var n := |ResponseTokens(top)|;
      ParseResponseInverts(top, tokens[n..]);
      assert tokens == ResponseTokens(top) + tokens[n..];
    }
    if ParseResponse(tokens).Done? {
      ParseResponseIsSound(tokens);
      assert ResponseTokens(ParseResponse(tokens).value) <= tokens;
    }
  }

  // ----- what the labels mean -----

  /** Token i is the key or belongs to the value of pair j of tool k in the
      "tools" array that is the value of top-level pair m. */
  ghost predicate IsInTool(top: seq<TopPair>, m: nat, k: nat, j: nat, i: nat) {
    m < |top| && top[m].Tools? && k < |top[m].tools| && j < |top[m].tools[k].pairs| &&
    var tools, pairs := top[m].tools, top[m].tools[k].pairs;
    var before := [OpenObject] + TopTokens(top[..m]) + [Text("tools"), OpenArray]
      + ToolsTokens(tools[..k]) + [OpenObject] + PairsTokens(pairs[..j]);
    |before| <= i <= |before| + |pairs[j].value|
  }

  /** Token i belongs to a pair with this key inside a tool object. */
  ghost predicate InToolPair(top: seq<TopPair>, i: nat, key: string) {
    exists m: nat, k: nat, j: nat :: IsInTool(top, m, k, j, i) && top[m].tools[k].pairs[j].key == key
  }

  /** Token i is the key or belongs to the value of top-level pair m. */
  ghost predicate IsAtTop(top: seq<TopPair>, m: nat, i: nat) {
    m < |top| && top[m].Plain? &&
    var before := [OpenObject] + TopTokens(top[..m]);
    |before| <= i <= |before| + |top[m].pair.value|
  }

  ghost predicate InTopPair(top: seq<TopPair>, i: nat, key: string) {
    exists m: nat :: IsAtTop(top, m, i) && top[m].pair.key == key
  }

  /** The component that a token's bytes count for. */
  ghost predicate CountsFor(top: seq<TopPair>, i: nat, c: Component) {
    && (c == InputSchemas <==> InToolPair(top, i, "inputSchema"))
    && (c == Descriptions <==> InToolPair(top, i, "description"))
    && (c == Metadata <==> exists key :: key != "inputSchema" && key != "description" && InToolPair(top, i, key))
    && (c == UsageInstructions <==> InTopPair(top, i, "usage_instructions"))
  }

  lemma {:induction false} PairLabelAt(pairs: seq<Pair>, j: nat, o: nat)
    requires j < |pairs| && o <= |pairs[j].value|
    ensures var i := |PairsTokens(pairs[..j])| + o;
            i < |PairsLabels(pairs)| && PairsLabels(pairs)[i] == PairLabel(pairs[j].key)
  {
    hide PairLabel;
    if j > 0 {
      PairLabelAt(pairs[1..], j - 1, o);
      assert pairs[..j][1..] == pairs[1..][..j - 1];
    }
  }

  lemma {:induction false} LocatePair(pairs: seq<Pair>, i: nat) returns (j: nat)
    requires i < |PairsLabels(pairs)|
    ensures j < |pairs| && |PairsTokens(pairs[..j])| <= i <= |PairsTokens(pairs[..j])| + |pairs[j].value|
  {
    if i <= |pairs[0].value| {
      j := 0;
    } else {
      var rest := LocatePair(pairs[1..], i - 1 - |pairs[0].value|);
      j := rest + 1;
      assert pairs[..j][1..] == pairs[1..][..rest];
    }
  }

  lemma {:induction false} ToolLabelAt(tools: seq<Tool>, k: nat, o: nat)
    requires k < |tools| && o < |ToolLabels(tools[k])|
    ensures var i := |ToolsTokens(tools[..k])| + o;
            i < |ToolsLabels(tools)| && ToolsLabels(tools)[i] == ToolLabels(tools[k])[o]
  {
    if k > 0 {
      PairsLabelsLength(tools[0].pairs);
      ToolLabelAt(tools[1..], k - 1, o);
      assert tools[..k][1..] == tools[1..][..k - 1];
    }
  }

  lemma {:induction false} LocateTool(tools: seq<Tool>, i: nat) returns (k: nat)
    requires i < |ToolsLabels(tools)|
    ensures k < |tools|
    ensures |ToolsTokens(tools[..k])| <= i < |ToolsTokens(tools[..k])| + |ToolLabels(tools[k])|
  {
    if i < |ToolLabels(tools[0])| {
      k := 0;
    } else {
      PairsLabelsLength(tools[0].pairs);
      var rest := LocateTool(tools[1..], i - |ToolLabels(tools[0])|);
      k := rest + 1;
      assert tools[..k][1..] == tools[1..][..rest];
    }
  }

  lemma {:induction false} TopPairLabelsLength(t: TopPair)
    ensures |TopPairLabels(t)| == |TopPairTokens(t)|
  {
    if t.Tools? {
      ToolsLabelsLength(t.tools);
    }
  }

  lemma {:induction false} TopLabelAt(top: seq<TopPair>, m: nat, o: nat)
    requires m < |top| && o < |TopPairLabels(top[m])|
    ensures var i := |TopTokens(top[..m])| + o;
            i < |TopLabels(top)| && TopLabels(top)[i] == TopPairLabels(top[m])[o]
  {
    hide TopPairLabels, TopPairTokens;
    if m > 0 {
      TopPairLabelsLength(top[0]);
      TopLabelAt(top[1..], m - 1, o);
      assert top[..m][1..] == top[1..][..m - 1];
    }
  }

  lemma {:induction false} LocateTopPair(top: seq<TopPair>, i: nat) returns (m: nat)
    requires i < |TopLabels(top)|
    ensures m < |top| && |TopTokens(top[..m])| <= i < |TopTokens(top[..m])| + |TopPairLabels(top[m])|
  {
    hide TopPairLabels, TopPairTokens;
    if i < |TopPairLabels(top[0])| {
      m := 0;
    } else {
      TopPairLabelsLength(top[0]);
      var rest := LocateTopPair(top[1..], i - |TopPairLabels(top[0])|);
      m := rest + 1;
      assert top[..m][1..] == top[1..][..rest];
    }
  }

  lemma {:induction false} InToolLabel(top: seq<TopPair>, m: nat, k: nat, j: nat, i: nat)
    requires IsInTool(top, m, k, j, i)
    ensures i < |ResponseLabels(top)| && ResponseLabels(top)[i] == PairLabel(top[m].tools[k].pairs[j].key)
  {
    hide PairLabel, PairsLabels, PairsTokens, ToolsLabels, ToolsTokens, TopLabels, TopTokens;
    var tools, pairs := top[m].tools, top[m].tools[k].pairs;
    var o := i - 1 - |TopTokens(top[..m])| - 2 - |ToolsTokens(tools[..k])| - 1 - |PairsTokens(pairs[..j])|;
    PairLabelAt(pairs, j, o);
    ToolLabelAt(tools, k, 1 + |PairsTokens(pairs[..j])| + o);
    TopLabelAt(top, m, 2 + |ToolsTokens(tools[..k])| + 1 + |PairsTokens(pairs[..j])| + o);
  }

  lemma {:induction false} AtTopLabel(top: seq<TopPair>, m: nat, i: nat)
    requires IsAtTop(top, m, i)
    ensures i < |ResponseLabels(top)|
    ensures ResponseLabels(top)[i] == if top[m].pair.key == "usage_instructions" then UsageInstructions else Other
  {
    hide TopLabels, TopTokens;
    TopLabelAt(top, m, i - 1 - |TopTokens(top[..m])|);
  }

  /** Each token stands in a pair of a tool, in a top-level pair, or is `Other`. */
  lemma {:induction false} EachTokenHasItsPlace(top: seq<TopPair>, i: nat)
    requires i < |ResponseLabels(top)|
    ensures ResponseLabels(top)[i] == Other || (exists m: nat, k: nat, j: nat :: IsInTool(top, m, k, j, i))
            || exists m: nat :: IsAtTop(top, m, i)
  {
    hide PairsLabels, PairsTokens, ToolsLabels, ToolsTokens, TopLabels, TopTokens;
    if 0 < i < |ResponseLabels(top)| - 1 {
      var m := LocateTopPair(top, i - 1);
      var o := i - 1 - |TopTokens(top[..m])|;
      TopLabelAt(top, m, o);
      if top[m].Plain? {
        assert IsAtTop(top, m, i);
      } else if 2 <= o < |TopPairLabels(top[m])| - 1 {
        ToolTokenHasItsPlace(top, m, o - 2, i);
      }
    }
  }

  lemma {:induction false} ToolTokenHasItsPlace(top: seq<TopPair>, m: nat, o: nat, i: nat)
    requires m < |top| && top[m].Tools? && o < |ToolsLabels(top[m].tools)|
    requires i == 1 + |TopTokens(top[..m])| + 2 + o
    ensures ToolsLabels(top[m].tools)[o] == Other || exists k: nat, j: nat :: IsInTool(top, m, k, j, i)
  {
    hide PairsLabels, PairsTokens, ToolsLabels, ToolsTokens, TopLabels, TopTokens;
    var tools := top[m].tools;
    var k := LocateTool(tools, o);
    var o' := o - |ToolsTokens(tools[..k])|;
    ToolLabelAt(tools, k, o');
    if 0 < o' < |ToolLabels(tools[k])| - 1 {
      var j := LocatePair(tools[k].pairs, o' - 1);
      assert IsInTool(top, m, k, j, i);
    }
  }

  /** Each token is labelled by the pair it belongs to. */
  lemma {:induction false} LabelsFollowTheResponse(top: seq<TopPair>, i: nat)
    requires i < |ResponseTokens(top)|
    ensures i < |ResponseLabels(top)| && CountsFor(top, i, ResponseLabels(top)[i])
  {
    TopLabelsLength(top);
    EachTokenHasItsPlace(top, i);
    hide *;
    var c := ResponseLabels(top)[i];
    forall key | InToolPair(top, i, key) ensures c == PairLabel(key) {
      InToolPairLabel(top, i, key);
    }
    forall key | InTopPair(top, i, key) ensures c == if key == "usage_instructions" then UsageInstructions else Other {
      InTopPairLabel(top, i, key);
    }
    if exists m: nat, k: nat, j: nat :: IsInTool(top, m, k, j, i) {
      SomeToolPair(top, i);
    } else if exists m: nat :: IsAtTop(top, m, i) {
      SomeTopPair(top, i);
    }
    PlaceDecides(top, i, c);
  }

  lemma {:induction false} InToolPairLabel(top: seq<TopPair>, i: nat, key: string)
    requires InToolPair(top, i, key)
    ensures i < |ResponseLabels(top)| && ResponseLabels(top)[i] == PairLabel(key)
  {
    var m: nat, k: nat, j: nat :| IsInTool(top, m, k, j, i) && top[m].tools[k].pairs[j].key == key;
    InToolLabel(top, m, k, j, i);
  }

  lemma {:induction false} InTopPairLabel(top: seq<TopPair>, i: nat, key: string)
    requires InTopPair(top, i, key)
    ensures i < |ResponseLabels(top)|
    ensures ResponseLabels(top)[i] == if key == "usage_instructions" then UsageInstructions else Other
  {
    var m: nat :| IsAtTop(top, m, i) && top[m].pair.key == key;
    AtTopLabel(top, m, i);
  }

  lemma {:induction false} SomeToolPair(top: seq<TopPair>, i: nat)
    requires exists m: nat, k: nat, j: nat :: IsInTool(top, m, k, j, i)
    ensures exists key :: InToolPair(top, i, key)
  {
    var m: nat, k: nat, j: nat :| IsInTool(top, m, k, j, i);
    assert InToolPair(top, i, top[m].tools[k].pairs[j].key);
  }

  lemma {:induction false} SomeTopPair(top: seq<TopPair>, i: nat)
    requires exists m: nat :: IsAtTop(top, m, i)
    ensures exists key :: InTopPair(top, i, key)
  {
    var m: nat :| IsAtTop(top, m, i);
    assert InTopPair(top, i, top[m].pair.key);
  }

  lemma {:induction false} PlaceDecides(top: seq<TopPair>, i: nat, c: Component)
    requires forall key :: InToolPair(top, i, key) ==> c == PairLabel(key)
    requires forall key :: InTopPair(top, i, key) ==>
      c == if key == "usage_instructions" then UsageInstructions else Other
    requires c == Other || (exists key :: InToolPair(top, i, key)) || exists key :: InTopPair(top, i, key)
    ensures CountsFor(top, i, c)
  {
    hide InToolPair, InTopPair;
    if key :| InToolPair(top, i, key) {
      assert c == PairLabel(key);
    } else if key :| InTopPair(top, i, key) {
      assert c != Other ==> key == "usage_instructions";
    }
  }

  /** Each byte counts for the pair that its token belongs to, where a token owns
      the bytes from the end of the token before it; bytes behind the response
      are `Other`. */
  ghost predicate BytesCountFor(spans: seq<Span<Component>>, n: nat, ends: seq<nat>, top: seq<TopPair>)
    requires |ResponseTokens(top)| <= |ends|
  {
    && Covers(spans, n)
    && (forall i, b | 0 <= i < |ResponseTokens(top)| && EndOf(ends, i) <= b < EndOf(ends, i + 1) && b < n ::
          CountsFor(top, i, LabelAt(spans, n, b)))
    && (forall b | EndOf(ends, |ResponseTokens(top)|) <= b < n :: LabelAt(spans, n, b) == Other)
  }

  lemma {:induction false} LabelledBytesCountFor(spans: seq<Span<Component>>, n: nat, tokens: seq<Token>,
                                                 ends: seq<nat>, top: seq<TopPair>)
    requires Lexed(tokens, ends, n) && ResponseTokens(top) <= tokens
    requires Labelled(spans, n, ends, ResponseLabels(top))
    ensures BytesCountFor(spans, n, ends, top)
  {
    var count, labels := |ResponseTokens(top)|, ResponseLabels(top);
    TopLabelsLength(top);
    assert |labels| == count;
    hide ResponseTokens, ResponseLabels, CountsFor, Covers;
    forall i, b | 0 <= i < count && EndOf(ends, i) <= b < EndOf(ends, i + 1) && b < n
      ensures CountsFor(top, i, LabelAt(spans, n, b))
    {
      OwnedByToken(spans, n, tokens, ends, labels, i, b);
      LabelsFollowTheResponse(top, i);
    }
    forall b | EndOf(ends, count) <= b < n ensures LabelAt(spans, n, b) == Other {
      OwnedByNone(spans, n, tokens, ends, labels, b);
    }
  }

  lemma {:induction false} OwnedByToken(spans: seq<Span<Component>>, n: nat, tokens: seq<Token>, ends: seq<nat>,
                                        labels: seq<Component>, i: nat, b: nat)
    requires Lexed(tokens, ends, n) && Labelled(spans, n, ends, labels) && i < |labels| <= |ends|
    requires EndOf(ends, i) <= b < EndOf(ends, i + 1) && b < n
    ensures LabelAt(spans, n, b) == labels[i]
  {
    hide Covers;
    TokenBetween(tokens, ends, n, i, i + 1, b);
    hide Lexed, TokenAt;
  }

  lemma {:induction false} OwnedByNone(spans: seq<Span<Component>>, n: nat, tokens: seq<Token>, ends: seq<nat>,
                                       labels: seq<Component>, b: nat)
    requires Lexed(tokens, ends, n) && Labelled(spans, n, ends, labels) && |labels| <= |ends|
    requires EndOf(ends, |labels|) <= b < n
    ensures LabelAt(spans, n, b) == Other
  {
    hide Covers;
    TokenAfter(tokens, ends, n, |labels|, b);
    hide Lexed, TokenAt;
  }

  /** The count is the length of the last "tools" array, or 0 if there is none. */
  ghost predicate CountsLastTools(count: nat, top: seq<TopPair>) {
    if forall t <- top :: t.Plain? then count == 0 else exists m: nat :: m < |top| && IsLastTools(count, top, m)
  }

  ghost predicate IsLastTools(count: nat, top: seq<TopPair>, m: nat)
    requires m < |top|
  {
    top[m].Tools? && count == |top[m].tools| && forall t <- top[m + 1..] :: t.Plain?
  }

  lemma {:induction false} ToolCountIsLast(top: seq<TopPair>)
    ensures CountsLastTools(ToolCount(top), top)
  {
    if top != [] {
      var n := |top| - 1;
      assert top == top[..n] + [top[n]];
      if top[n].Plain? {
        ToolCountIsLast(top[..n]);
        if exists t <- top[..n] :: t.Tools? {
          var m: nat :| m < n && IsLastTools(ToolCount(top), top[..n], m);
          assert top[m + 1..] == top[..n][m + 1..] + [top[n]];
          assert IsLastTools(ToolCount(top), top, m);
        }
      } else {
        assert top[n + 1..] == [];
        assert IsLastTools(ToolCount(top), top, n);
      }
    }
  }

  // ----- accumulating loops -----

  function Prepend<T>(acc: seq<T>, r: Parsed<seq<T>>): Parsed<seq<T>> {
    match r
    case Fail => Fail
    case Done(value, rest) => Done(acc + value, rest)
  }

  lemma {:induction false} PrependOne<T>(acc: seq<T>, x: T, r: Parsed<seq<T>>)
    ensures Prepend(acc, Prepend([x], r)) == Prepend(acc + [x], r)
  {
    if r.Done? {
      assert acc + ([x] + r.value) == acc + [x] + r.value;
    }
  }

  lemma {:induction false} PrependNothing<T>(r: Parsed<seq<T>>)
    ensures Prepend([], r) == r
  {
    if r.Done? {
      assert [] + r.value == r.value;
    }
  }

  lemma {:induction false} OnePairAhead(ts: seq<Token>)
    requires ts != [] && !IsClose(ts[0])
    ensures !ts[0].Text? || ValueLength(ts[1..]).None? ==> ParsePairs(ts).Fail?
    ensures ts[0].Text? && ValueLength(ts[1..]).Some? ==>
      var n := ValueLength(ts[1..]).value;
      ParsePairs(ts) == Prepend([Pair(ts[0].s, ts[1..1 + n])], ParsePairs(ts[1 + n..]))
  {
    hide ValueLength;
  }

  // ----- the walk in the source's own form -----

  class ResponseWalk {
    const size: nat
    const trimmed: nat
    const tokens: seq<Token>
    const ends: seq<nat>
    var pos: nat
    var mark: nat
    var spans: seq<Span<Component>>
    ghost var labels: seq<Component>

    constructor (size: nat, trimmed: nat, tokens: seq<Token>, ends: seq<nat>)
      requires Lexed(tokens, ends, size)
      ensures this.size == size && this.trimmed == trimmed && this.tokens == tokens && this.ends == ends
      ensures Valid() && pos == 0 && labels == []
    {
      this.size, this.trimmed, this.tokens, this.ends := size, trimmed, tokens, ends;
      pos, mark, spans, labels := 0, 0, [], [];
    }

    /** The tokens already labelled are the ones before `mark`. */
    ghost predicate Valid()
      reads this
    {
      && Lexed(tokens, ends, size)
      && |labels| <= pos <= |tokens|
      && mark == EndOf(ends, |labels|)
      && Labelled(spans, mark, ends, labels)
    }

    ghost function Ahead(): seq<Token>
      requires pos <= |tokens|
      reads this
    {
      tokens[pos..]
    }

    /** The closure `emit`, called with the decoder's offset. */
    method Emit(tag: Component)
      requires Valid() && |labels| < pos
      modifies this`mark, this`spans, this`labels
      ensures Valid() && |labels| == pos
      ensures labels == old(labels) + Repeat(tag, pos - |old(labels)|)
    {
      EmitLabels(spans, tokens, ends, size, labels, pos, tag);
      var end := EndOf(ends, pos);
      if end > mark {
        spans := spans + [Span(tag, mark, end)];
        mark := end;
      }
      labels := labels + Repeat(tag, pos - |labels|);
    }

    /** `dec.More()`: another token, and not a closing delimiter. */
    predicate More()
      requires pos <= |tokens|
      reads this
    {
      pos < |tokens| && !IsClose(tokens[pos])
    }

    method ExpectDelim(want: Token) returns (ok: bool)
      requires Valid()
      modifies this`pos
      ensures Valid() && old(pos) <= pos
      ensures ok == Expect(old(Ahead()), want).Some?
      ensures ok ==> pos == old(pos) + 1
    {
      ok := pos < |tokens| && tokens[pos] == want;
      if ok {
        pos := pos + 1;
      }
    }

    /** One pair of a tool object: the loop body. */
    method WalkPair() returns (ok: bool, ghost pair: Pair)
      requires Valid() && |labels| == pos && More()
      modifies this
      ensures !ok ==> ParsePairs(old(Ahead())).Fail?
      ensures ok ==> Valid() && |labels| == pos && old(pos) < pos
      ensures ok ==> ParsePairs(old(Ahead())) == Prepend([pair], ParsePairs(Ahead()))
      ensures ok ==> labels == old(labels) + Repeat(PairLabel(pair.key), 1 + |pair.value|)
    {
      hide ValueLength, ParsePairs, Labelled;
      ghost var here := Ahead();
      OnePairAhead(here);
      pair := Pair("", []);
      if !tokens[pos].Text? {
        return false, pair;
      }
      assert here[1..] == tokens[pos + 1..];
      var n := ValueLength(tokens[pos + 1..]);
      if n.None? {
        return false, pair;
      }
      var key := tokens[pos].s;
      pair := Pair(key, here[1..1 + n.value]);
      pos := pos + 1 + n.value;
      assert Ahead() == here[1 + n.value..];
      Emit(PairLabel(key));
      ok := true;
    }

    /** The pairs of one tool object. */
    method WalkPairs() returns (ok: bool)
      requires Valid() && |labels| == pos
      modifies this
      ensures ok == ParsePairs(old(Ahead())).Done?
      ensures ok ==> Valid() && |labels| == pos && Ahead() == ParsePairs(old(Ahead())).rest
      ensures ok ==> labels == old(labels) + PairsLabels(ParsePairs(old(Ahead())).value)
    {
      hide Labelled, ValueLength;
      ghost var start, acc: seq<Pair> := Ahead(), [];
      PrependNothing(ParsePairs(start));
      while More()
        invariant Valid() && |labels| == pos
        invariant ParsePairs(start) == Prepend(acc, ParsePairs(Ahead()))
        invariant labels == old(labels) + PairsLabels(acc)
        decreases |tokens| - pos
      {
        ghost var pair;
        ok, pair := WalkPair();
        if !ok {
          return;
        }
        PrependOne(acc, pair, ParsePairs(Ahead()));
        PairsLabelsAppend(acc, pair);
        acc := acc + [pair];
      }
      assert acc + [] == acc;
      ok := true;
    }

    /** One element of the "tools" array: the outer loop body. */
    method WalkTool() returns (ok: bool)
      requires Valid() && |labels| == pos
      modifies this
      ensures ok == ParseTool(old(Ahead())).Done?
      ensures ok ==> Valid() && |labels| == pos && Ahead() == ParseTool(old(Ahead())).rest && old(pos) < pos
      ensures ok ==> labels == old(labels) + ToolLabels(ParseTool(old(Ahead())).value)
    {
      hide Labelled, ParsePairs, PairsLabels;
      ghost var start, before := Ahead(), labels;
      ok := ExpectDelim(OpenObject);
      if !ok {
        return;
      }
      assert Ahead() == start[1..];
      Emit(Other);
      ok := WalkPairs();
      if !ok {
        return;
      }
      ghost var rest := Ahead();
      ok := ExpectDelim(CloseObject);
      if !ok {
        return;
      }
      assert Ahead() == rest[1..];
      Emit(Other);
      assert labels == before + ToolLabels(ParseTool(start).value);
    }

    /** The elements of the "tools" array: the outer loop. */
    method WalkToolList() returns (ok: bool, count: nat)
      requires Valid() && |labels| == pos
      modifies this
      ensures ok == ParseToolList(old(Ahead())).Done?
      ensures ok ==> Valid() && |labels| == pos && Ahead() == ParseToolList(old(Ahead())).rest && old(pos) <= pos
      ensures ok ==> labels == old(labels) + ToolsLabels(ParseToolList(old(Ahead())).value)
      ensures ok ==> count == |ParseToolList(old(Ahead())).value|
    {
      hide Labelled, ParseTool, ToolLabels;
      ghost var start, acc: seq<Tool> := Ahead(), [];
      count := 0;
      PrependNothing(ParseToolList(start));
      while More()
        invariant Valid() && |labels| == pos && old(pos) <= pos
        invariant ParseToolList(start) == Prepend(acc, ParseToolList(Ahead()))
        invariant labels == old(labels) + ToolsLabels(acc) && count == |acc|
        decreases |tokens| - pos
      {
        ghost var here := Ahead();
        ok := WalkTool();
        if !ok {
          return;
        }
        ghost var tool := ParseTool(here).value;
        PrependOne(acc, tool, ParseToolList(Ahead()));
        ToolsLabelsAppend(acc, tool);
        acc := acc + [tool];
        count := count + 1;
      }
      assert acc + [] == acc;
      ok := true;
    }

    /** `partitionToolsArray`, called when the key "tools" has been read but not labelled. */
    method WalkTools() returns (ok: bool, count: nat)
      requires Valid() && |labels| + 1 == pos
      modifies this
      ensures ok == ParseTools(old(Ahead())).Done?
      ensures ok ==> Valid() && |labels| == pos && Ahead() == ParseTools(old(Ahead())).rest && old(pos) < pos
      ensures ok ==> labels == old(labels) + TopPairLabels(Tools(ParseTools(old(Ahead())).value))
      ensures ok ==> count == |ParseTools(old(Ahead())).value|
    {
      hide Labelled, ParseToolList, ToolsLabels;
      ghost var start, before := Ahead(), labels;
      count := 0;
      ok := ExpectDelim(OpenArray);
      if !ok {
        return;
      }
      assert Ahead() == start[1..];
      Emit(Other);
      ok, count := WalkToolList();
      if !ok {
        return;
      }
      ghost var rest := Ahead();
      ok := ExpectDelim(CloseArray);
      if !ok {
        return;
      }
      assert Ahead() == rest[1..];
      Emit(Other);
      assert labels == before + ([Other, Other] + ToolsLabels(ParseToolList(start[1..]).value) + [Other]);
    }

    /** One pair of the top-level object; `count` is set by a "tools" pair. */
    method WalkTopPair(previous: nat) returns (ok: bool, count: nat)
      requires Valid() && |labels| == pos && More()
      modifies this
      ensures ok == ParseTopPair(old(Ahead())).Done?
      ensures ok ==> Valid() && |labels| == pos && Ahead() == ParseTopPair(old(Ahead())).rest && old(pos) < pos
      ensures ok ==> labels == old(labels) + TopPairLabels(ParseTopPair(old(Ahead())).value)
      ensures ok ==> count == match ParseTopPair(old(Ahead())).value
                              case Plain(_) => previous
                              case Tools(tools) => |tools|
    {
      hide Labelled, ParseTools, ToolsLabels, Skip;
      ghost var start := Ahead();
      count := previous;
      if !tokens[pos].Text? {
        return false, count;
      }
      var key := tokens[pos].s;
      assert start[1..] == tokens[pos + 1..];
      if key == "tools" {
        pos := pos + 1;
        ok, count := WalkTools();
        return;
      }
      var n := ValueLength(tokens[pos + 1..]);
      if n.None? {
        return false, count;
      }
      pos := pos + 1 + n.value;
      assert Ahead() == start[1 + n.value..];
      Emit(if key == "usage_instructions" then UsageInstructions else Other);
      ok := true;
    }

    /** The top-level loop. */
    method WalkTop() returns (ok: bool, count: nat)
      requires Valid() && |labels| == pos
      modifies this
      ensures ok == ParseTop(old(Ahead())).Done?
      ensures ok ==> Valid() && |labels| == pos && Ahead() == ParseTop(old(Ahead())).rest
      ensures ok ==> labels == old(labels) + TopLabels(ParseTop(old(Ahead())).value)
      ensures ok ==> count == ToolCount(ParseTop(old(Ahead())).value)
    {
      hide Labelled, ParseTopPair, TopPairLabels, ToolCount;
      ghost var start, acc: seq<TopPair> := Ahead(), [];
      count := 0;
      assert ToolCount([]) == 0 by { NoToolsYet(); }
      PrependNothing(ParseTop(start));
      while More()
        invariant Valid() && |labels| == pos
        invariant ParseTop(start) == Prepend(acc, ParseTop(Ahead()))
        invariant labels == old(labels) + TopLabels(acc) && count == ToolCount(acc)
        decreases |tokens| - pos
      {
        ghost var here := Ahead();
        ok, count := WalkTopPair(count);
        if !ok {
          return;
        }
        ghost var pair := ParseTopPair(here).value;
        PrependOne(acc, pair, ParseTop(Ahead()));
        TopLabelsAppend(acc, pair);
        ToolCountAppend(acc, pair);
        acc := acc + [pair];
      }
      assert acc + [] == acc;
      ok := true;
    }

    /** `PartitionRetrieveToolsResponse`, on a fresh walk. */
    method Run() returns (ok: bool, count: nat)
      requires Valid() && pos == 0 && labels == []
      modifies this
      ensures ok == Accepts(tokens, ends, trimmed)
      ensures ok ==> Labelled(spans, size, ends, ResponseLabels(ParseResponse(tokens).value))
      ensures ok ==> count == ToolCount(ParseResponse(tokens).value)
      ensures ok ==> var top := ParseResponse(tokens).value;
        && ValidTop(top) && ResponseTokens(top) <= tokens
        && BytesCountFor(spans, size, ends, top) && CountsLastTools(count, top)
    {
      hide ParseTop, TopLabels, BytesCountFor, CountsLastTools, TopTokens, ToolCount, ValidTop;
      assert Ahead() == tokens;
      count := 0;
      ok := ExpectDelim(OpenObject);
      if !ok {
        return;
      }
      assert Ahead() == tokens[1..];
      Emit(Other);
      ok, count := WalkTop();
      if !ok {
        return;
      }
      ghost var rest := Ahead();
      ok := ExpectDelim(CloseObject);
      if !ok {
        return;
      }
      assert Ahead() == rest[1..];
      if EndOf(ends, pos) < trimmed {
        return false, count;
      }
      Finish();
      ghost var top := ParseResponse(tokens).value;
      assert labels == ResponseLabels(top);
      ParseResponseIsSound(tokens);
      LabelledBytesCountFor(spans, size, tokens, ends, top);
      ToolCountIsLast(top);
    }

    /** The last `emit`: the closing brace and the blanks after it. */
    method Finish()
      requires Valid() && |labels| + 1 == pos
      modifies this
      ensures Labelled(spans, size, ends, labels) && labels == old(labels) + [Other]
    {
      FinishLabels(spans, tokens, ends, size, labels, pos);
      assert Repeat(Other, 1) == [Other];
      if size > mark {
        spans := spans + [Span(Other, mark, size)];
        mark := size;
      }
      labels := labels + [Other];
    }
  }
}
