/** `_swift_configfield_blocks` of scripts/check-settings-parity.py: the argument
    texts of the ConfigField( ... ) calls of a Swift source, found by one loop
    with a depth counter and an in-a-string flag, against a grammar of balanced
    argument texts that knows neither. */
module SwiftScanner {
  import opened Strings

  /** The marker; its only C is its first character. */
  function Marker(): (m: string)
    ensures |m| == 12 && m[0] == 'C' && forall i :: 0 < i < |m| ==> m[i] != 'C'
  {
    "ConfigField("
  }

  // ----- what the loops compute -----

  /** `text.find(marker)` */
  function Find(text: string): (at: Option<nat>)
    ensures at.Some? ==> at.value + |Marker()| <= |text|
  {
    if |text| < |Marker()| then None
    else if text[..|Marker()|] == Marker() then Some(0)
    else
      var later := Find(text[1..]);
      if later.None? then None else Some(later.value + 1)
  }

  /** Where the inner loop stops: the text from the closing parenthesis on, or
      nothing when the text runs out. */
  function Skip(s: string, depth: nat, inStr: bool): (rest: string)
    requires depth > 0
    ensures |rest| <= |s|
    decreases |s|
  {
    if s == "" then ""
    else if inStr then
      if s[0] == '\\' then (if |s| == 1 then "" else Skip(s[2..], depth, true))
      else Skip(s[1..], depth, s[0] != '"')
    else if s[0] == '"' then Skip(s[1..], depth, true)
    else if s[0] == '(' then Skip(s[1..], depth + 1, false)
    else if s[0] == ')' then (if depth == 1 then s else Skip(s[1..], depth - 1, false))
    else Skip(s[1..], depth, false)
  }

  function Scan(text: string): seq<string>
    decreases |text|
  {
    var at := Find(text);
    if at.None? then []
    else
      var body := text[at.value + |Marker()|..];
      var rest := Skip(body, 1, false);
      [body[..|body| - |rest|]] + Scan(rest)
  }

  function From(text: string, j: nat): string {
    if j <= |text| then text[j..] else ""
  }

  function Upto(text: string, i: nat, j: nat): string
    requires i <= |text| && i <= j
  {
    if j <= |text| then text[i..j] else text[i..]
  }

  lemma {:induction false} SkipOne(c: char, rest: string, depth: nat, inStr: bool)
    requires depth > 0
    ensures Skip([c] + rest, depth, inStr) ==
      if inStr then
        if c == '\\' then (if rest == "" then "" else Skip(rest[1..], depth, true))
        else Skip(rest, depth, c != '"')
      else if c == '"' then Skip(rest, depth, true)
      else if c == '(' then Skip(rest, depth + 1, false)
      else if c == ')' then (if depth == 1 then [c] + rest else Skip(rest, depth - 1, false))
      else Skip(rest, depth, false)
  {
    var s := [c] + rest;
    assert s[0] == c && s[1..] == rest;
    assert |s| > 1 ==> s[2..] == rest[1..];
  }

  lemma {:induction false} FromSteps(text: string, j: nat)
    requires j < |text|
    ensures From(text, j) == [text[j]] + From(text, j + 1)
    ensures From(text, j + 1) == "" <==> j + 1 == |text|
    ensures j + 1 < |text| ==> From(text, j + 1)[1..] == From(text, j + 2)
    ensures j + 1 == |text| ==> From(text, j + 2) == ""
  {}

  lemma {:induction false} StartsAt(text: string, start: nat)
    requires start <= |text|
    ensures Upto(text, start, start) == "" && From(text, start) == text[start..]
    ensures From(text, |text|) == "" && From(text, |text| + 1) == ""
  {}

  lemma {:induction false} SkipsNothing(depth: nat, inStr: bool)
    requires depth > 0
    ensures Skip("", depth, inStr) == ""
  {}

  lemma {:induction false} UptoSteps(text: string, i: nat, j: nat)
    requires i <= j < |text|
    ensures Upto(text, i, j + 1) == Upto(text, i, j) + [text[j]]
    ensures j + 1 == |text| ==> Upto(text, i, j + 2) == Upto(text, i, j + 1)
  {}

  /** The inner loop, from just behind an opening parenthesis. The kept text is
      the text between the two ends, and `end` may be one past the text's end
      when it breaks off behind a backslash. */
  method ScanBody(text: string, start: nat) returns (buf: string, end: nat)
    requires start <= |text|
    ensures start <= end <= |text| + 1
    ensures From(text, end) == Skip(text[start..], 1, false)
    ensures buf == Upto(text, start, end)
  {
    hide Skip, From, Upto;
    var j, depth, inStr := start, 1, false;
    buf := "";
    StartsAt(text, start);
    while j < |text| && depth > 0
      invariant start <= j <= |text| + 1
      invariant depth > 0
      invariant buf == Upto(text, start, j)
      invariant Skip(text[start..], 1, false) == Skip(From(text, j), depth, inStr)
      decreases |text| + 1 - j, depth
    {
      var c := text[j];
      FromSteps(text, j);
      SkipOne(c, From(text, j + 1), depth, inStr);
      UptoSteps(text, start, j);
      if inStr {
        if c == '\\' {
          buf := buf + [c];
          j := j + 1;
          if j < |text| {
            UptoSteps(text, start, j);
            buf := buf + [text[j]];
          }
          j := j + 1;
          continue;
        }
        if c == '"' {
          inStr := false;
        }
        buf := buf + [c];
      } else {
        if c == '"' {
          inStr := true;
          buf := buf + [c];
        } else if c == '(' {
          depth := depth + 1;
          buf := buf + [c];
        } else if c == ')' {
          depth := depth - 1;
          if depth == 0 {
            break;
          }
          buf := buf + [c];
        } else {
          buf := buf + [c];
        }
      }
      j := j + 1;
    }
    if depth > 0 {
      SkipsNothing(depth, inStr);
      StartsAt(text, |text|);
    }
    end := j;
  }

  lemma {:induction false} ScanNone(text: string)
    requires Find(text).None?
    ensures Scan(text) == []
  {}

  lemma {:induction false} ScanOne(text: string, i: nat, buf: string, end: nat)
    requires Find(From(text, i)).Some?
    requires var j := i + Find(From(text, i)).value + |Marker()|;
      j <= |text| && j <= end <= |text| + 1 && buf == Upto(text, j, end) && From(text, end) == Skip(text[j..], 1, false)
    ensures Scan(From(text, i)) == [buf] + Scan(From(text, end))
  {
    hide Skip, Find;
    var j := i + Find(From(text, i)).value + |Marker()|;
    assert From(text, i)[Find(From(text, i)).value + |Marker()|..] == text[j..];
    assert text[j..][..|text[j..]| - |From(text, end)|] == buf;
  }

  /** `_swift_configfield_blocks` */
  method ConfigFieldBlocks(text: string) returns (blocks: seq<string>)
    ensures blocks == Scan(text)
  {
    hide Skip, Scan, Upto;
    var i := 0;
    blocks := [];
    assert text[0..] == text;
    while true
      invariant i <= |text| + 1
      invariant blocks + Scan(From(text, i)) == Scan(text)
      decreases |text| + 1 - i
    {
      var found := Find(From(text, i));
      if found.None? {
        ScanNone(From(text, i));
        break;
      }
      var j := i + found.value + |Marker()|;
      var buf, end := ScanBody(text, j);
      ScanOne(text, i, buf, end);
      assert blocks + ([buf] + Scan(From(text, end))) == blocks + [buf] + Scan(From(text, end));
      blocks := blocks + [buf];
      i := end;
    }
  }

  // ----- argument texts -----

  datatype Item = Raw(c: char) | Escape(c: char)

  /** The text between a call's parentheses: plain characters, string literals
      and parenthesised groups. */
  datatype Body =
    | Nothing
    | Plain(c: char, rest: Body)
    | Literal(items: seq<Item>, rest: Body)
    | Group(inner: Body, rest: Body)

  predicate GoodItems(items: seq<Item>) {
    forall x <- items :: x.Raw? ==> x.c != '"' && x.c != '\\'
  }

  predicate Good(body: Body) {
    match body
    case Nothing => true
    case Plain(c, rest) => c !in "\"()" && Good(rest)
    case Literal(items, rest) => GoodItems(items) && Good(rest)
    case Group(inner, rest) => Good(inner) && Good(rest)
  }

  function ItemsText(items: seq<Item>): string {
    if items == [] then ""
    else (if items[0].Raw? then [items[0].c] else ['\\', items[0].c]) + ItemsText(items[1..])
  }

  function Text(body: Body): string {
    match body
    case Nothing => ""
    case Plain(c, rest) => [c] + Text(rest)
    case Literal(items, rest) => "\"" + ItemsText(items) + "\"" + Text(rest)
    case Group(inner, rest) => "(" + Text(inner) + ")" + Text(rest)
  }

  ghost predicate IsArguments(s: string) {
    exists body :: Good(body) && Text(body) == s
  }

  /** s is an argument text, its closing parenthesis at k, and more. */
  ghost predicate ClosesAt(s: string, k: nat) {
    k < |s| && s[k] == ')' && IsArguments(s[..k])
  }

  // ----- the loop recognises the grammar -----

  /** Inside a literal the loop goes on to the closing quote. */
  lemma {:induction false} SkipsItems(items: seq<Item>, rest: string, depth: nat)
    requires depth > 0 && GoodItems(items)
    ensures Skip(ItemsText(items) + "\"" + rest, depth, true) == Skip(rest, depth, false)
  {
    hide Skip;
    var s := ItemsText(items) + "\"" + rest;
    if items == [] {
      assert s == ['"'] + rest;
      SkipOne('"', rest, depth, true);
    } else {
      var after := ItemsText(items[1..]) + "\"" + rest;
      SkipsItems(items[1..], rest, depth);
      var c := items[0].c;
      if items[0].Raw? {
        assert s == [c] + after;
        SkipOne(c, after, depth, true);
      } else {
        assert s == ['\\'] + ([c] + after) && ([c] + after)[1..] == after;
        SkipOne('\\', [c] + after, depth, true);
      }
    }
  }

  lemma {:induction false} TextOfNothing(rest: string)
    ensures Text(Nothing) + rest == rest
  {}

  lemma {:induction false} TextOfPlain(c: char, more: Body, rest: string)
    ensures Text(Plain(c, more)) + rest == [c] + (Text(more) + rest)
  {}

  lemma {:induction false} TextOfLiteral(items: seq<Item>, more: Body, rest: string)
    ensures Text(Literal(items, more)) + rest == ['"'] + (ItemsText(items) + "\"" + (Text(more) + rest))
  {
    hide ItemsText;
  }

  lemma {:induction false} TextOfGroup(inner: Body, more: Body, rest: string)
    ensures Text(Group(inner, more)) + rest == ['('] + (Text(inner) + ([')'] + (Text(more) + rest)))
  {}

  /** At any depth the loop passes over a whole argument text. */
  lemma {:induction false} SkipsBody(body: Body, rest: string, depth: nat)
    requires depth > 0 && Good(body)
    ensures Skip(Text(body) + rest, depth, false) == Skip(rest, depth, false)
  {
    hide Skip, Text, ItemsText, GoodItems;
    match body
    case Nothing =>
      TextOfNothing(rest);
    case Plain(c, more) =>
      TextOfPlain(c, more, rest);
      SkipsBody(more, rest, depth);
      SkipOne(c, Text(more) + rest, depth, false);
    case Literal(items, more) =>
      var after := Text(more) + rest;
      TextOfLiteral(items, more, rest);
      SkipsBody(more, rest, depth);
      SkipsItems(items, after, depth);
      SkipOne('"', ItemsText(items) + "\"" + after, depth, false);
    case Group(inner, more) =>
      var after := Text(more) + rest;
      var close := [')'] + after;
      TextOfGroup(inner, more, rest);
      SkipsBody(more, rest, depth);
      SkipsBody(inner, close, depth + 1);
      SkipOne(')', after, depth + 1, false);
      SkipOne('(', Text(inner) + close, depth, false);
  }

  /** The literal that begins s, if it is closed: its items and what follows. */
  function ReadItems(s: string): (r: Option<(seq<Item>, string)>)
    ensures r.Some? ==> |r.value.1| < |s|
    decreases |s|
  {
    if s == "" then None
    else if s[0] == '"' then Some(([], s[1..]))
    else
      var escape := s[0] == '\\';
      if escape && |s| == 1 then None
      else
        var r := ReadItems(if escape then s[2..] else s[1..]);
        if r.None? then None
        else Some(([if escape then Escape(s[1]) else Raw(s[0])] + r.value.0, r.value.1))
  }

  lemma {:induction false} ItemsCons(item: Item, more: seq<Item>, rest: string)
    ensures ItemsText([item] + more) + "\"" + rest
         == (if item.Raw? then [item.c] else ['\\', item.c]) + (ItemsText(more) + "\"" + rest)
  {
    assert ([item] + more)[1..] == more;
  }

  lemma {:induction false} ReadItemsIsSound(s: string)
    requires ReadItems(s).Some?
    ensures var (items, rest) := ReadItems(s).value; GoodItems(items) && s == ItemsText(items) + "\"" + rest
    decreases |s|
  {
    var (items, rest) := ReadItems(s).value;
    if s[0] == '"' {
      assert s == ['"'] + s[1..];
    } else {
      var escape := s[0] == '\\';
      var after := if escape then s[2..] else s[1..];
      ReadItemsIsSound(after);
      var (more, _) := ReadItems(after).value;
      hide ReadItems, ItemsText;
      var item := if escape then Escape(s[1]) else Raw(s[0]);
      assert items == [item] + more && GoodItems([item] + more);
      ItemsCons(item, more, rest);
      assert s == (if escape then ['\\', s[1]] else [s[0]]) + after;
    }
  }

  /** The argument text that begins s, if a closing parenthesis ends it. */
  function ReadBody(s: string): (r: Option<(Body, string)>)
    ensures r.Some? ==> 0 < |r.value.1| <= |s|
    decreases |s|
  {
    if s == "" then None
    else if s[0] == ')' then Some((Nothing, s))
    else if s[0] == '"' then
      var lit := ReadItems(s[1..]);
      if lit.None? then None
      else
        var r := ReadBody(lit.value.1);
        if r.None? then None else Some((Literal(lit.value.0, r.value.0), r.value.1))
    else if s[0] == '(' then
      var inner := ReadBody(s[1..]);
      if inner.None? then None
      else
        var r := ReadBody(inner.value.1[1..]);
        if r.None? then None else Some((Group(inner.value.0, r.value.0), r.value.1))
    else
      var r := ReadBody(s[1..]);
      if r.None? then None else Some((Plain(s[0], r.value.0), r.value.1))
  }

  ghost predicate Splits(s: string, body: Body, rest: string) {
    Good(body) && s == Text(body) + rest && rest != "" && rest[0] == ')'
  }

  lemma {:induction false} LiteralSplits(s: string, items: seq<Item>, more: Body, rest: string)
    requires s != "" && s[0] == '"' && s[1..] == ItemsText(items) + "\"" + (Text(more) + rest)
    ensures s == Text(Literal(items, more)) + rest
  {
    hide Text, ItemsText;
    TextOfLiteral(items, more, rest);
    assert s == ['"'] + s[1..];
  }

  lemma {:induction false} GroupSplits(s: string, inner: Body, close: string, more: Body, rest: string)
    requires s != "" && s[0] == '(' && s[1..] == Text(inner) + close
    requires close != "" && close[0] == ')' && close[1..] == Text(more) + rest
    ensures s == Text(Group(inner, more)) + rest
  {
    hide Text;
    TextOfGroup(inner, more, rest);
    assert s == ['('] + s[1..] && close == [')'] + close[1..];
  }

  lemma {:induction false} NothingSplits(s: string)
    ensures s == Text(Nothing) + s
  {}

  lemma {:induction false} PlainSplits(s: string, more: Body, rest: string)
    requires s != "" && s[1..] == Text(more) + rest
    ensures s == Text(Plain(s[0], more)) + rest
  {
    assert s == [s[0]] + s[1..];
  }

  lemma {:induction false} ReadBodyIsSound(s: string)
    requires ReadBody(s).Some?
    ensures Splits(s, ReadBody(s).value.0, ReadBody(s).value.1)
    decreases |s|
  {
    var (body, rest) := ReadBody(s).value;
    hide ReadItems, Text, ItemsText;
    if s[0] == ')' {
      NothingSplits(s);
    } else if s[0] == '"' {
      var (items, after) := ReadItems(s[1..]).value;
      ReadItemsIsSound(s[1..]);
      ReadBodyIsSound(after);
      LiteralSplits(s, items, ReadBody(after).value.0, rest);
    } else if s[0] == '(' {
      var (inner, close) := ReadBody(s[1..]).value;
      ReadBodyIsSound(s[1..]);
      ReadBodyIsSound(close[1..]);
      GroupSplits(s, inner, close, ReadBody(close[1..]).value.0, rest);
    } else {
      ReadBodyIsSound(s[1..]);
      PlainSplits(s, ReadBody(s[1..]).value.0, rest);
    }
  }

  lemma {:induction false} UnclosedLiteralRunsOut(s: string, depth: nat)
    requires depth > 0 && ReadItems(s).None?
    ensures Skip(s, depth, true) == ""
    decreases |s|
  {
    if s == "" {
      SkipsNothing(depth, true);
    } else {
      assert s == [s[0]] + s[1..];
      SkipOne(s[0], s[1..], depth, true);
      hide Skip;
      if s[0] != '\\' {
        UnclosedLiteralRunsOut(s[1..], depth);
      } else if |s| > 1 {
        assert s[1..][1..] == s[2..];
        UnclosedLiteralRunsOut(s[2..], depth);
      }
    }
  }

  lemma {:induction false} SkipsReadItems(s: string, depth: nat)
    requires depth > 0 && ReadItems(s).Some?
    ensures Skip(s, depth, true) == Skip(ReadItems(s).value.1, depth, false)
  {
    hide Skip, ReadItems;
    var (items, after) := ReadItems(s).value;
    ReadItemsIsSound(s);
    SkipsItems(items, after, depth);
  }

  lemma {:induction false} SkipsReadGroup(s: string, depth: nat)
    requires depth > 0 && ReadBody(s).Some?
    ensures Skip(s, depth + 1, false) == Skip(ReadBody(s).value.1[1..], depth, false)
  {
    hide Skip, ReadBody;
    var (inner, close) := ReadBody(s).value;
    ReadBodyIsSound(s);
    SkipsBody(inner, close, depth + 1);
    assert close == [')'] + close[1..];
    SkipOne(')', close[1..], depth + 1, false);
  }

  lemma {:induction false} UnclosedBodyRunsOut(s: string, depth: nat)
    requires depth > 0 && ReadBody(s).None?
    ensures Skip(s, depth, false) == ""
    decreases |s|
  {
    if s == "" {
      SkipsNothing(depth, false);
    } else {
      assert s == [s[0]] + s[1..];
      SkipOne(s[0], s[1..], depth, false);
      hide Skip, ReadItems;
      if s[0] == '"' {
        if ReadItems(s[1..]).None? {
          UnclosedLiteralRunsOut(s[1..], depth);
        } else {
          SkipsReadItems(s[1..], depth);
          UnclosedBodyRunsOut(ReadItems(s[1..]).value.1, depth);
        }
      } else if s[0] == '(' {
        if ReadBody(s[1..]).None? {
          UnclosedBodyRunsOut(s[1..], depth + 1);
        } else {
          SkipsReadGroup(s[1..], depth);
          UnclosedBodyRunsOut(ReadBody(s[1..]).value.1[1..], depth);
        }
      } else {
        UnclosedBodyRunsOut(s[1..], depth);
      }
    }
  }

  lemma {:induction false} SkipStopsAtTheClose(s: string)
    requires ReadBody(s).Some?
    ensures Skip(s, 1, false) == ReadBody(s).value.1
    ensures Splits(s, ReadBody(s).value.0, ReadBody(s).value.1)
  {
    var (body, rest) := ReadBody(s).value;
    ReadBodyIsSound(s);
    SkipsBody(body, rest, 1);
    assert rest == [rest[0]] + rest[1..];
    SkipOne(rest[0], rest[1..], 1, false);
  }

  /** The inner loop stops at k exactly when a balanced argument text ends there. */
  lemma {:induction false} StopsExactlyAtTheClose(s: string, k: nat)
    requires k < |s|
    ensures Skip(s, 1, false) == s[k..] <==> ClosesAt(s, k)
  {
    hide Skip, ReadBody;
    if ClosesAt(s, k) {
      var body :| Good(body) && Text(body) == s[..k];
      assert s == Text(body) + s[k..] && s[k..] == [')'] + s[k + 1..];
      SkipsBody(body, s[k..], 1);
      SkipOne(')', s[k + 1..], 1, false);
    }
    if Skip(s, 1, false) == s[k..] {
      assert s[k..] != "";
      if ReadBody(s).None? {
        UnclosedBodyRunsOut(s, 1);
        assert false;
      }
      var (body, rest) := ReadBody(s).value;
      SkipStopsAtTheClose(s);
      assert |rest| == |s| - k && s[..k] == Text(body);
    }
  }

  /** It runs out of text exactly when no argument text is closed. */
  lemma {:induction false} RunsOutExactlyWhenUnclosed(s: string)
    ensures Skip(s, 1, false) == "" <==> forall k: nat :: !ClosesAt(s, k)
  {
    hide Skip, ReadBody;
    if ReadBody(s).None? {
      UnclosedBodyRunsOut(s, 1);
      forall k: nat ensures !ClosesAt(s, k) {
        if k < |s| {
          StopsExactlyAtTheClose(s, k);
        }
      }
    } else {
      SkipStopsAtTheClose(s);
      var (body, rest) := ReadBody(s).value;
      var k := |s| - |rest|;
      assert s[..k] == Text(body) && s[k..] == rest;
      assert ClosesAt(s, k);
    }
  }

  lemma {:induction false} SkipIsSuffix(s: string)
    ensures s == s[..|s| - |Skip(s, 1, false)|] + Skip(s, 1, false)
  {
    hide Skip, ReadBody;
    if ReadBody(s).None? {
      UnclosedBodyRunsOut(s, 1);
    } else {
      SkipStopsAtTheClose(s);
    }
  }

  // ----- whole texts -----

  /** A source text taken apart: filler, marker, argument text, and so on. */
  datatype Source =
    | Filler(text: string)
    | Call(filler: string, arguments: string, after: Source)

  function Spell(source: Source): string {
    match source
    case Filler(text) => text
    case Call(filler, arguments, after) => filler + "ConfigField(" + arguments + Spell(after)
  }

  function Arguments(source: Source): seq<string> {
    match source
    case Filler(_) => []
    case Call(_, arguments, after) => [arguments] + Arguments(after)
  }

  ghost predicate MarkerAt(s: string, k: nat) {
    k + |Marker()| <= |s| && s[k..k + |Marker()|] == Marker()
  }

  ghost predicate MarkerFree(s: string) {
    forall k: nat :: !MarkerAt(s, k)
  }

  /** No filler holds a marker, and an argument text is balanced and followed by
      its closing parenthesis, except that the last one may run to the end of
      the text when nothing closes it. */
  ghost predicate Proper(source: Source) {
    match source
    case Filler(text) => MarkerFree(text)
    case Call(filler, arguments, after) =>
      MarkerFree(filler) && Proper(after) &&
      if Spell(after) == "" then forall k: nat :: !ClosesAt(arguments, k)
      else ClosesAt(arguments + Spell(after), |arguments|)
  }

  lemma {:induction false} MarkerAtTail(s: string, k: nat)
    requires s != ""
    ensures MarkerAt(s, k + 1) <==> MarkerAt(s[1..], k)
  {
    hide Marker;
    if k + 1 + |Marker()| <= |s| {
      assert s[k + 1..k + 1 + |Marker()|] == s[1..][k..k + |Marker()|];
    }
  }

  lemma {:induction false} FreeTail(s: string)
    requires s != ""
    ensures MarkerFree(s) <==> !MarkerAt(s, 0) && MarkerFree(s[1..])
  {
    hide MarkerAt;
    if MarkerFree(s[1..]) && !MarkerAt(s, 0) {
      forall k: nat ensures !MarkerAt(s, k) {
        if k > 0 {
          MarkerAtTail(s, k - 1);
        }
      }
    }
    if MarkerFree(s) {
      forall k: nat ensures !MarkerAt(s[1..], k) {
        MarkerAtTail(s, k);
      }
    }
  }

  lemma {:induction false} FindsNothing(s: string)
    ensures Find(s).None? <==> MarkerFree(s)
  {
    hide Marker;
    if |s| >= |Marker()| {
      assert MarkerAt(s, 0) <==> s[..|Marker()|] == Marker();
      FreeTail(s);
      if !MarkerAt(s, 0) {
        FindsNothing(s[1..]);
      }
    }
  }

  /** The marker has one C, its first character: no occurrence straddles the
      end of a filler. */
  lemma {:induction false} NoMarkerStraddles(filler: string, rest: string)
    requires filler != "" && !MarkerAt(filler, 0)
    ensures !MarkerAt(filler + Marker() + rest, 0)
  {
    hide Marker;
    var s, n := filler + Marker() + rest, |Marker()|;
    if |filler| < n {
      assert s[..n][|filler|] == s[|filler|] == Marker()[0];
    } else {
      assert filler[..n] == s[..n];
    }
  }

  lemma {:induction false} FindsTheMarker(filler: string, rest: string)
    requires MarkerFree(filler)
    ensures Find(filler + Marker() + rest) == Some(|filler|)
  {
    hide Marker;
    var s := filler + Marker() + rest;
    if filler == "" {
      assert s[..|Marker()|] == Marker();
    } else {
      FreeTail(filler);
      NoMarkerStraddles(filler, rest);
      FindsTheMarker(filler[1..], rest);
      assert s[1..] == filler[1..] + Marker() + rest;
    }
  }

  lemma {:induction false} FindNothingIn(s: string)
    requires |s| < |Marker()|
    ensures Find(s).None?
  {}

  lemma {:induction false} FindUnfolds(s: string)
    requires Find(s).Some?
    ensures Find(s).value == 0 ==> MarkerAt(s, 0)
    ensures Find(s).value > 0 ==> s != "" && !MarkerAt(s, 0) && Find(s[1..]) == Some(Find(s).value - 1)
  {
    hide Marker;
  }

  lemma {:induction false} OneFurther(s: string, m: string, f: nat)
    requires 0 < f && f + |m| <= |s|
    requires s[1..] == s[1..][..f - 1] + m + s[1..][f - 1 + |m|..]
    ensures s == s[..f] + m + s[f + |m|..] && s[..f][1..] == s[1..][..f - 1]
  {
    assert s == [s[0]] + s[1..];
    assert s[..f] == [s[0]] + s[1..][..f - 1];
    assert s[1..][f - 1 + |m|..] == s[f + |m|..];
  }

  lemma {:induction false} FindsTheFirst(s: string)
    requires Find(s).Some?
    ensures var f := Find(s).value;
      f + |Marker()| <= |s| && s == s[..f] + Marker() + s[f + |Marker()|..] && MarkerFree(s[..f])
  {
    FindUnfolds(s);
    hide Marker, Find, MarkerFree;
    var f, n := Find(s).value, |Marker()|;
    if f == 0 {
      assert s[..n] == Marker() && s[..0] == "";
      FindsNothing("");
      FindNothingIn("");
    } else {
      FindsTheFirst(s[1..]);
      OneFurther(s, Marker(), f);
      FreeTail(s[..f]);
      assert n <= f ==> s[..f][..n] == s[..n];
    }
  }

  lemma {:induction false} ProperCall(filler: string, arguments: string, after: Source)
    requires Proper(Call(filler, arguments, after))
    ensures var body := arguments + Spell(after);
      var text := filler + Marker() + body;
      Find(text) == Some(|filler|) && text[|filler| + |Marker()|..] == body && text[..|filler|] == filler &&
      Skip(body, 1, false) == Spell(after) && body[..|body| - |Spell(after)|] == arguments
  {
    hide Skip, Find, Marker, ClosesAt;
    var body := arguments + Spell(after);
    FindsTheMarker(filler, body);
    if Spell(after) == "" {
      assert body == arguments;
      RunsOutExactlyWhenUnclosed(body);
    } else {
      StopsExactlyAtTheClose(body, |arguments|);
    }
  }

  lemma {:induction false} MarkerText()
    ensures Marker() == "ConfigField("
  {}

  /** Scanning undoes spelling: the blocks are exactly the argument texts. */
  lemma {:induction false} ScanInvertsSpell(source: Source)
    requires Proper(source)
    ensures Scan(Spell(source)) == Arguments(source)
    decreases source
  {
    hide Skip, Find, Marker, ClosesAt;
    match source
    case Filler(text) =>
      FindsNothing(text);
    case Call(filler, arguments, after) =>
      var body, text := arguments + Spell(after), Spell(source);
      MarkerText();
      assert text == filler + Marker() + body;
      ProperCall(filler, arguments, after);
      ScanInvertsSpell(after);
  }

  function TakeApart(text: string): Source
    decreases |text|
  {
    var at := Find(text);
    if at.None? then Filler(text)
    else
      var body := text[at.value + |Marker()|..];
      var rest := Skip(body, 1, false);
      Call(text[..at.value], body[..|body| - |rest|], TakeApart(rest))
  }

  /** Every text is spelled by a proper source, whose argument texts are the
      blocks: they are disjoint, in order, and separated by marker-free text. */
  lemma {:induction false} EveryTextComesApart(text: string)
    ensures Proper(TakeApart(text)) && Spell(TakeApart(text)) == text
    ensures Arguments(TakeApart(text)) == Scan(text)
    decreases |text|
  {
    hide Skip, Find, Marker, ClosesAt, MarkerFree;
    var at := Find(text);
    if at.None? {
      FindsNothing(text);
    } else {
      var body := text[at.value + |Marker()|..];
      var rest := Skip(body, 1, false);
      var arguments := body[..|body| - |rest|];
      EveryTextComesApart(rest);
      FindsTheFirst(text);
      BodyComesApart(body);
      MarkerText();
      hide Proper;
      assert text == text[..at.value] + Marker() + (arguments + rest);
      CallIsProper(text[..at.value], arguments, TakeApart(rest));
    }
  }

  /** The text up to where the inner loop stops, and the rest. */
  lemma {:induction false} BodyComesApart(body: string)
    ensures var rest := Skip(body, 1, false);
      var arguments := body[..|body| - |rest|];
      && body == arguments + rest
      && if rest == "" then forall k: nat :: !ClosesAt(arguments, k) else ClosesAt(body, |arguments|)
  {
    hide Skip, ClosesAt;
    var rest := Skip(body, 1, false);
    var arguments := body[..|body| - |rest|];
    SkipIsSuffix(body);
    if rest == "" {
      assert arguments == body;
      RunsOutExactlyWhenUnclosed(body);
    } else {
      assert rest == body[|arguments|..];
      StopsExactlyAtTheClose(body, |arguments|);
    }
  }

  lemma {:induction false} CallIsProper(filler: string, arguments: string, after: Source)
    requires MarkerFree(filler) && Proper(after)
    requires if Spell(after) == "" then forall k: nat :: !ClosesAt(arguments, k)
             else ClosesAt(arguments + Spell(after), |arguments|)
    ensures Proper(Call(filler, arguments, after))
  {
    hide MarkerFree, ClosesAt, Spell;
  }

  /** A text comes apart in one way only. */
  lemma {:induction false} OnlyOneWayApart(source: Source)
    requires Proper(source)
    ensures TakeApart(Spell(source)) == source
    decreases source
  {
    hide Skip, Find, Marker, ClosesAt;
    match source
    case Filler(text) =>
      FindsNothing(text);
    case Call(filler, arguments, after) =>
      var body, text := arguments + Spell(after), Spell(source);
      MarkerText();
      assert text == filler + Marker() + body;
      ProperCall(filler, arguments, after);
      OnlyOneWayApart(after);
  }
}
