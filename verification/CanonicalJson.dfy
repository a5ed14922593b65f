/** Canonical JSON of bench/canonical.go: decode one value, require the end of
    the input, and print the value compactly with its keys sorted. */
module CanonicalJson {
  import opened Strings
  import opened JsonText

  // ----- strings -----

  function HexValue(c: char): (n: nat)
    ensures n < 16
  {
    if '0' <= c <= '9' then c as int - '0' as int
    else if 'a' <= c <= 'f' then c as int - 'a' as int + 10
    else if 'A' <= c <= 'F' then c as int - 'A' as int + 10
    else 0
  }

  function HexDigit(n: nat): (c: char)
    requires n < 16
    ensures IsHexDigit(c) && HexValue(c) == n
  {
    "0123456789abcdef"[n]
  }

  /** The UTF-16 code unit of a \u escape. */
  function CodeUnit(i: Item): (u: nat)
    requires i.Hex?
    ensures u < 0x1_0000
  {
    HexValue(i.a) * 4096 + HexValue(i.b) * 256 + HexValue(i.c2) * 16 + HexValue(i.d)
  }

  predicate IsHighSurrogate(u: nat) {
    0xD800 <= u < 0xDC00
  }

  predicate IsLowSurrogate(u: nat) {
    0xDC00 <= u < 0xE000
  }

  const REPLACEMENT: char := '\U{FFFD}'

  function Unescape(c: char): char {
    if c == 'b' then '\U{8}'
    else if c == 'f' then '\U{C}'
    else if c == 'n' then '\n'
    else if c == 'r' then '\r'
    else if c == 't' then '\t'
    else c
  }

  /** The string a literal denotes. A surrogate pair of escapes is one character,
      an unpaired surrogate becomes U+FFFD. */
  function Decode(items: List<Item>): string {
    match items
    case Nil => []
    case Cons(Raw(c), rest) => [c] + Decode(rest)
    case Cons(Short(c), rest) => [Unescape(c)] + Decode(rest)
    case Cons(Hex(a, b, c, d), rest) =>
      var u := CodeUnit(items.head);
      if IsHighSurrogate(u) && rest.Cons? && rest.head.Hex? && IsLowSurrogate(CodeUnit(rest.head)) then
        [(0x1_0000 + (u - 0xD800) * 0x400 + (CodeUnit(rest.head) - 0xDC00)) as char] + Decode(rest.tail)
      else if IsHighSurrogate(u) || IsLowSurrogate(u) then [REPLACEMENT] + Decode(rest)
      else [u as char] + Decode(rest)
  }

  /** How the encoder writes one character, HTML escaping off. */
  function EncodeChar(c: char): Item {
    if c == '"' || c == '\\' then Short(c)
    else if c == '\U{8}' then Short('b')
    else if c == '\U{C}' then Short('f')
    else if c == '\n' then Short('n')
    else if c == '\r' then Short('r')
    else if c == '\t' then Short('t')
    else if c < ' ' then Hex('0', '0', HexDigit(c as int / 16), HexDigit(c as int % 16))
    else if c == '\U{2028}' || c == '\U{2029}' then Hex('2', '0', '2', HexDigit(c as int % 16))
    else Raw(c)
  }

  function Encode(s: string): List<Item> {
    if s == [] then Nil else Cons(EncodeChar(s[0]), Encode(s[1..]))
  }

  lemma {:induction false} EscapedUnit(c: char)
    requires EncodeChar(c).Hex?
    ensures CodeUnit(EncodeChar(c)) == c as int && ValidItem(EncodeChar(c))
  {
    hide HexDigit;
  }

  lemma {:induction false} DecodeChar(c: char, rest: List<Item>)
    ensures ValidItem(EncodeChar(c)) && Decode(Cons(EncodeChar(c), rest)) == [c] + Decode(rest)
  {
    var i := EncodeChar(c);
    if i.Hex? {
      EscapedUnit(c);
    }
    hide HexDigit, HexValue, CodeUnit;
  }

  /** Decoding what the encoder wrote gives back the string. */
  lemma {:induction false} DecodeInvertsEncode(s: string)
    ensures ValidItems(Encode(s)) && Decode(Encode(s)) == s
  {
    if s != [] {
      DecodeInvertsEncode(s[1..]);
      DecodeChar(s[0], Encode(s[1..]));
    }
  }

  lemma {:induction false} EscapesMean(c: char)
    ensures Unescape('b') == 8 as char && Unescape('f') == 12 as char && Unescape('n') == 10 as char
    ensures Unescape('r') == 13 as char && Unescape('t') == 9 as char
    ensures c !in "bfnrt" ==> Unescape(c) == c
    ensures '0' <= c <= '9' ==> HexValue(c) == c as int - 48
    ensures 'a' <= c <= 'f' ==> HexValue(c) == c as int - 87
    ensures 'A' <= c <= 'F' ==> HexValue(c) == c as int - 55
  {
    assert 'b' in "bfnrt" && 'f' in "bfnrt" && 'n' in "bfnrt" && 'r' in "bfnrt" && 't' in "bfnrt" by {
      assert "bfnrt"[0] == 'b' && "bfnrt"[1] == 'f' && "bfnrt"[2] == 'n' && "bfnrt"[3] == 'r' && "bfnrt"[4] == 't';
    }
  }

  /** The UTF-16 form of a character beyond U+FFFF. */
  predicate IsPairFor(c: char, high: nat, low: nat) {
    var u := c as int - 0x1_0000;
    u >= 0 && high == 0xD800 + u / 0x400 && low == 0xDC00 + u % 0x400
  }

  /** A character beyond U+FFFF is read from the two escapes of its UTF-16 form, and
      an escaped surrogate without its partner as U+FFFD. */
  lemma {:induction false} SurrogatesMean(c: char, high: Item, low: Item, rest: List<Item>)
    requires high.Hex? && low.Hex?
    ensures IsPairFor(c, CodeUnit(high), CodeUnit(low)) ==> Decode(Cons(high, Cons(low, rest))) == [c] + Decode(rest)
    ensures 0xDC00 <= CodeUnit(low) < 0xE000 ==> Decode(Cons(low, rest)) == ['\U{FFFD}'] + Decode(rest)
    ensures 0xD800 <= CodeUnit(high) < 0xDC00 && (rest.Cons? ==> !rest.head.Hex?) ==>
      Decode(Cons(high, rest)) == ['\U{FFFD}'] + Decode(rest)
    ensures CodeUnit(high) < 0xD800 || CodeUnit(high) >= 0xE000 ==>
      Decode(Cons(high, rest)) == [CodeUnit(high) as char] + Decode(rest)
  {
    hide CodeUnit;
    var u := c as int - 0x1_0000;
    assert u >= 0 ==> u == u / 0x400 * 0x400 + u % 0x400 && u / 0x400 < 0x400;
  }

  // ----- values and their tokens -----

  datatype Member = Member(key: string, value: Value)

  /** A JSON value; an object keeps its members as they were written. */
  datatype Value =
    | Null
    | Bool(b: bool)
    | Num(text: NumberText)
    | Str(s: string)
    | Arr(elems: List<Value>)
    | Obj(members: List<Member>)

  datatype Token =
    | TPunct(c: char)
    | TNull | TTrue | TFalse
    | TNum(text: NumberText)
    | TStr(s: string)

  function TokensOf(ls: List<Lexeme>): List<Token> {
    match ls
    case Nil => Nil
    case Cons(l, rest) =>
      match l
      case Blank(_) => TokensOf(rest)
      case Punct(c) => Cons(TPunct(c), TokensOf(rest))
      case NullWord => Cons(TNull, TokensOf(rest))
      case TrueWord => Cons(TTrue, TokensOf(rest))
      case FalseWord => Cons(TFalse, TokensOf(rest))
      case Number(text) => Cons(TNum(text), TokensOf(rest))
      case Quoted(items) => Cons(TStr(Decode(items)), TokensOf(rest))
  }

  /** The tokens of v, followed by k. */
  function ValueTokens(v: Value, k: List<Token>): List<Token>
    decreases v, 0
  {
    match v
    case Null => Cons(TNull, k)
    case Bool(b) => Cons(if b then TTrue else TFalse, k)
    case Num(text) => Cons(TNum(text), k)
    case Str(s) => Cons(TStr(s), k)
    case Arr(elems) => Cons(TPunct('['), if elems == Nil then Cons(TPunct(']'), k) else ElemsTokens(elems, k))
    case Obj(members) => Cons(TPunct('{'), if members == Nil then Cons(TPunct('}'), k) else MembersTokens(members, k))
  }

  function ElemsTokens(elems: List<Value>, k: List<Token>): List<Token>
    requires elems.Cons?
  {
    ValueTokens(elems.head,
                if elems.tail == Nil then Cons(TPunct(']'), k) else Cons(TPunct(','), ElemsTokens(elems.tail, k)))
  }

  function MembersTokens(members: List<Member>, k: List<Token>): List<Token>
    requires members.Cons?
  {
    Cons(TStr(members.head.key), Cons(TPunct(':'), ValueTokens(members.head.value,
      if members.tail == Nil then Cons(TPunct('}'), k) else Cons(TPunct(','), MembersTokens(members.tail, k)))))
  }

  // ----- the decoder -----

  datatype Parsed<T> = Done(value: T, rest: List<Token>) | Fail

  function Length(ts: List<Token>): nat {
    match ts case Nil => 0 case Cons(_, rest) => 1 + Length(rest)
  }

  predicate Opens(ts: List<Token>, c: char) {
    ts.Cons? && ts.head == TPunct(c)
  }

  function ParseValue(ts: List<Token>): (r: Parsed<Value>)
    ensures r.Done? ==> Length(r.rest) < Length(ts)
    decreases Length(ts), 0
  {
    match ts
    case Nil => Fail
    case Cons(TNull, rest) => Done(Null, rest)
    case Cons(TTrue, rest) => Done(Bool(true), rest)
    case Cons(TFalse, rest) => Done(Bool(false), rest)
    case Cons(TNum(text), rest) => Done(Num(text), rest)
    case Cons(TStr(s), rest) => Done(Str(s), rest)
    case Cons(TPunct(c), rest) =>
      if c == '[' then
        if Opens(rest, ']') then Done(Arr(Nil), rest.tail)
        else match ParseElems(rest) case Fail => Fail case Done(elems, rest') => Done(Arr(elems), rest')
      else if c == '{' then
        if Opens(rest, '}') then Done(Obj(Nil), rest.tail)
        else match ParseMembers(rest) case Fail => Fail case Done(members, rest') => Done(Obj(members), rest')
      else Fail
  }

  function ParseElems(ts: List<Token>): (r: Parsed<List<Value>>)
    ensures r.Done? ==> Length(r.rest) < Length(ts) && r.value.Cons?
    decreases Length(ts), 1
  {
    match ParseValue(ts)
    case Fail => Fail
    case Done(v, rest) =>
      if Opens(rest, ']') then Done(Cons(v, Nil), rest.tail)
      else if Opens(rest, ',') then
        match ParseElems(rest.tail) case Fail => Fail case Done(vs, rest') => Done(Cons(v, vs), rest')
      else Fail
  }

  function ParseMembers(ts: List<Token>): (r: Parsed<List<Member>>)
    ensures r.Done? ==> Length(r.rest) < Length(ts) && r.value.Cons?
    decreases Length(ts), 1
  {
    if !(ts.Cons? && ts.head.TStr? && Opens(ts.tail, ':')) then Fail
    else
      assert Length(ts) == 1 + Length(ts.tail);
      match ParseValue(ts.tail.tail)
      case Fail => Fail
      case Done(v, rest) =>
        var m := Member(ts.head.s, v);
        if Opens(rest, '}') then Done(Cons(m, Nil), rest.tail)
        else if Opens(rest, ',') then
          match ParseMembers(rest.tail) case Fail => Fail case Done(ms, rest') => Done(Cons(m, ms), rest')
        else Fail
  }

  /** Parsing the tokens of a value gives the value. */
  lemma {:induction false} ParseInverts(v: Value, k: List<Token>)
    ensures ParseValue(ValueTokens(v, k)) == Done(v, k)
    ensures ValueTokens(v, k).Cons? && !Opens(ValueTokens(v, k), ']') && !Opens(ValueTokens(v, k), '}')
    decreases v, 0
  {
    match v {
      case Arr(elems) => if elems.Cons? { ParseElemsInverts(elems, k); }
      case Obj(members) => if members.Cons? { ParseMembersInverts(members, k); }
      case _ =>
    }
  }

  lemma {:induction false} ParseElemsInverts(elems: List<Value>, k: List<Token>)
    requires elems.Cons?
    ensures ParseElems(ElemsTokens(elems, k)) == Done(elems, k) && !Opens(ElemsTokens(elems, k), ']')
    decreases elems, 1
  {
    if elems.tail == Nil {
      ParseInverts(elems.head, Cons(TPunct(']'), k));
    } else {
      ParseElemsInverts(elems.tail, k);
      ParseInverts(elems.head, Cons(TPunct(','), ElemsTokens(elems.tail, k)));
    }
  }

  lemma {:induction false} ParseMembersInverts(members: List<Member>, k: List<Token>)
    requires members.Cons?
    ensures ParseMembers(MembersTokens(members, k)) == Done(members, k) && !Opens(MembersTokens(members, k), '}')
    decreases members, 1
  {
    if members.tail == Nil {
      ParseInverts(members.head.value, Cons(TPunct('}'), k));
    } else {
      ParseMembersInverts(members.tail, k);
      ParseInverts(members.head.value, Cons(TPunct(','), MembersTokens(members.tail, k)));
    }
  }

  /** Whatever is parsed is made of exactly the tokens of the value. */
  lemma {:induction false} ParseIsSound(ts: List<Token>)
    requires ParseValue(ts).Done?
    ensures ts == ValueTokens(ParseValue(ts).value, ParseValue(ts).rest)
    decreases Length(ts), 0
  {
    if Opens(ts, '[') && !Opens(ts.tail, ']') {
      ParseElemsIsSound(ts.tail);
    } else if Opens(ts, '{') && !Opens(ts.tail, '}') {
      ParseMembersIsSound(ts.tail);
    }
  }

  lemma {:induction false} ParseElemsIsSound(ts: List<Token>)
    requires ParseElems(ts).Done?
    ensures ts == ElemsTokens(ParseElems(ts).value, ParseElems(ts).rest)
    decreases Length(ts), 1
  {
    ParseIsSound(ts);
    var rest := ParseValue(ts).rest;
    if Opens(rest, ',') {
      ParseElemsIsSound(rest.tail);
    }
  }

  lemma {:induction false} ParseMembersIsSound(ts: List<Token>)
    requires ParseMembers(ts).Done?
    ensures ts == MembersTokens(ParseMembers(ts).value, ParseMembers(ts).rest)
    decreases Length(ts), 1
  {
    assert Length(ts) == 1 + Length(ts.tail);
    ParseIsSound(ts.tail.tail);
    var rest := ParseValue(ts.tail.tail).rest;
    if Opens(rest, ',') {
      ParseMembersIsSound(rest.tail);
    }
  }

  // ----- keys -----

  /** Members in strictly ascending key order, all keys above `low`. */
  ghost predicate SortedAbove(low: Option<string>, ms: List<Member>)
    decreases ms
  {
    match ms
    case Nil => true
    case Cons(m, rest) => (low.Some? ==> Less(low.value, m.key)) && SortedAbove(Some(m.key), rest)
  }

  ghost predicate Sorted(ms: List<Member>) {
    SortedAbove(None, ms)
  }

  function Size(v: Value): nat
    decreases v, 0
  {
    match v
    case Arr(elems) => 1 + ElemsSize(elems)
    case Obj(members) => 1 + MembersSize(members)
    case _ => 1
  }

  function ElemsSize(vs: List<Value>): nat {
    match vs case Nil => 0 case Cons(v, rest) => 1 + Size(v) + ElemsSize(rest)
  }

  function MembersSize(ms: List<Member>): nat {
    match ms case Nil => 0 case Cons(m, rest) => 1 + Size(m.value) + MembersSize(rest)
  }

  /** The value of key k in an object: the last one written wins. */
  function Lookup(ms: List<Member>, k: string): (r: Option<Value>)
    ensures r.Some? ==> Size(r.value) < MembersSize(ms)
  {
    match ms
    case Nil => None
    case Cons(m, rest) =>
      var later := Lookup(rest, k);
      if later.Some? then later else if m.key == k then Some(m.value) else None
  }

  /** Writing a key into the map the decoder builds. */
  function Insert(ms: List<Member>, m: Member): List<Member> {
    match ms
    case Nil => Cons(m, Nil)
    case Cons(h, rest) =>
      if h.key == m.key then Cons(m, rest)
      else if Less(m.key, h.key) then Cons(m, ms)
      else Cons(h, Insert(rest, m))
  }

  function Collect(ms: List<Member>, acc: List<Member>): List<Member> {
    match ms
    case Nil => acc
    case Cons(m, rest) => Collect(rest, Insert(acc, m))
  }

  /** The value as the decoder holds it and the encoder walks it: at every depth
      an object is a map, listed in key order. */
  function Normalize(v: Value): Value
    decreases v, 0
  {
    match v
    case Arr(elems) => Arr(NormalizeElems(elems))
    case Obj(members) => Obj(Collect(NormalizeMembers(members), Nil))
    case _ => v
  }

  function NormalizeElems(vs: List<Value>): List<Value> {
    match vs case Nil => Nil case Cons(v, rest) => Cons(Normalize(v), NormalizeElems(rest))
  }

  function NormalizeMembers(ms: List<Member>): List<Member> {
    match ms case Nil => Nil
    case Cons(m, rest) => Cons(Member(m.key, Normalize(m.value)), NormalizeMembers(rest))
  }

  // ----- objects are maps -----

  lemma {:induction false} NotBelow(low: string, ms: List<Member>, k: string)
    requires SortedAbove(Some(low), ms) && !Less(low, k)
    ensures Lookup(ms, k) == None
    decreases ms
  {
    if ms.Cons? {
      if Less(ms.head.key, k) {
        LessIsTransitive(low, ms.head.key, k);
      }
      NotBelow(ms.head.key, ms.tail, k);
    }
  }

  lemma {:induction false} InsertIsUpdate(low: Option<string>, ms: List<Member>, m: Member, k: string)
    requires SortedAbove(low, ms) && (low.Some? ==> Less(low.value, m.key))
    ensures SortedAbove(low, Insert(ms, m))
    ensures Lookup(Insert(ms, m), k) == if k == m.key then Some(m.value) else Lookup(ms, k)
    decreases ms
  {
    if ms.Cons? {
      LessIsStrictOrder(m.key, ms.head.key);
      LessIsStrictOrder(ms.head.key, ms.head.key);
      if ms.head.key == m.key {
        NotBelow(m.key, ms.tail, m.key);
      } else if Less(m.key, ms.head.key) {
        NotBelow(ms.head.key, ms.tail, m.key);
      } else {
        InsertIsUpdate(Some(ms.head.key), ms.tail, m, k);
      }
    }
  }

  lemma {:induction false} CollectIsMap(ms: List<Member>, acc: List<Member>, k: string)
    requires Sorted(acc)
    ensures Sorted(Collect(ms, acc))
    ensures Lookup(Collect(ms, acc), k) == if Lookup(ms, k).Some? then Lookup(ms, k) else Lookup(acc, k)
  {
    if ms.Cons? {
      InsertIsUpdate(None, acc, ms.head, k);
      CollectIsMap(ms.tail, Insert(acc, ms.head), k);
    }
  }

  lemma {:induction false} LookupNormalized(ms: List<Member>, k: string)
    ensures Lookup(NormalizeMembers(ms), k)
         == match Lookup(ms, k) case None => None case Some(v) => Some(Normalize(v))
  {
    if ms.Cons? {
      LookupNormalized(ms.tail, k);
    }
  }

  /** Looking a key up in a normalized object. */
  lemma {:induction false} NormalizeKeepsLookup(ms: List<Member>, k: string)
    ensures Lookup(Collect(NormalizeMembers(ms), Nil), k)
         == match Lookup(ms, k) case None => None case Some(v) => Some(Normalize(v))
    ensures Sorted(Collect(NormalizeMembers(ms), Nil))
  {
    LookupNormalized(ms, k);
    CollectIsMap(NormalizeMembers(ms), Nil, k);
  }

  lemma {:induction false} HeadLookup(low: Option<string>, ms: List<Member>)
    requires ms.Cons? && SortedAbove(low, ms)
    ensures Lookup(ms, ms.head.key) == Some(ms.head.value)
  {
    LessIsStrictOrder(ms.head.key, ms.head.key);
    NotBelow(ms.head.key, ms.tail, ms.head.key);
  }

  /** Sorted members with the same lookups are the same list. */
  lemma {:induction false} SortedIsMap(low: Option<string>, a: List<Member>, b: List<Member>)
    requires SortedAbove(low, a) && SortedAbove(low, b)
    requires forall k :: Lookup(a, k) == Lookup(b, k)
    ensures a == b
    decreases a
  {
    if a.Cons? && b.Cons? {
      var i, j := a.head.key, b.head.key;
      HeadLookup(low, a);
      HeadLookup(low, b);
      LessIsStrictOrder(i, j);
      LessIsStrictOrder(i, i);
      LessIsStrictOrder(j, j);
      if Less(i, j) {
        NotBelow(j, b.tail, i);
      } else if Less(j, i) {
        NotBelow(i, a.tail, j);
      }
      assert a.head == b.head;
      forall k ensures Lookup(a.tail, k) == Lookup(b.tail, k) {
        assert Lookup(a, k) == Lookup(b, k);
        if k == i {
          NotBelow(i, a.tail, k);
          NotBelow(i, b.tail, k);
        }
      }
      SortedIsMap(Some(i), a.tail, b.tail);
    } else if a.Cons? {
      assert Lookup(a, a.head.key) == Lookup(b, a.head.key);
      HeadLookup(low, a);
    } else if b.Cons? {
      assert Lookup(a, b.head.key) == Lookup(b, b.head.key);
      HeadLookup(low, b);
    }
  }

  // ----- canonical values -----

  ghost predicate IsCanonical(v: Value)
    decreases v, 0
  {
    match v
    case Arr(elems) => CanonicalElems(elems)
    case Obj(members) => Sorted(members) && CanonicalMembers(members)
    case _ => true
  }

  ghost predicate CanonicalElems(vs: List<Value>) {
    vs.Cons? ==> IsCanonical(vs.head) && CanonicalElems(vs.tail)
  }

  ghost predicate CanonicalMembers(ms: List<Member>) {
    ms.Cons? ==> IsCanonical(ms.head.value) && CanonicalMembers(ms.tail)
  }

  lemma {:induction false} InsertIsCanonical(ms: List<Member>, m: Member)
    requires CanonicalMembers(ms) && IsCanonical(m.value)
    ensures CanonicalMembers(Insert(ms, m))
  {
    if ms.Cons? && ms.head.key != m.key && !Less(m.key, ms.head.key) {
      InsertIsCanonical(ms.tail, m);
    }
  }

  lemma {:induction false} CollectIsCanonical(ms: List<Member>, acc: List<Member>)
    requires CanonicalMembers(ms) && CanonicalMembers(acc)
    ensures CanonicalMembers(Collect(ms, acc))
  {
    if ms.Cons? {
      InsertIsCanonical(acc, ms.head);
      CollectIsCanonical(ms.tail, Insert(acc, ms.head));
    }
  }

  lemma {:induction false} NormalizeIsCanonical(v: Value)
    ensures IsCanonical(Normalize(v))
    decreases v, 0
  {
    match v {
      case Arr(elems) => NormalizeElemsIsCanonical(elems);
      case Obj(members) =>
        NormalizeMembersIsCanonical(members);
        CollectIsCanonical(NormalizeMembers(members), Nil);
        CollectIsMap(NormalizeMembers(members), Nil, "");
      case _ =>
    }
  }

  lemma {:induction false} NormalizeElemsIsCanonical(vs: List<Value>)
    ensures CanonicalElems(NormalizeElems(vs))
  {
    if vs.Cons? {
      NormalizeIsCanonical(vs.head);
      NormalizeElemsIsCanonical(vs.tail);
    }
  }

  lemma {:induction false} NormalizeMembersIsCanonical(ms: List<Member>)
    ensures CanonicalMembers(NormalizeMembers(ms))
  {
    if ms.Cons? {
      NormalizeIsCanonical(ms.head.value);
      NormalizeMembersIsCanonical(ms.tail);
    }
  }

  /** Normalizing a canonical value changes nothing. */
  lemma {:induction false} CanonicalIsFixed(v: Value)
    requires IsCanonical(v)
    ensures Normalize(v) == v
    decreases v, 0
  {
    match v {
      case Arr(elems) => CanonicalElemsAreFixed(elems);
      case Obj(members) =>
        CanonicalMembersAreFixed(members);
        CollectIsMap(members, Nil, "");
        forall k ensures Lookup(Collect(members, Nil), k) == Lookup(members, k) {
          CollectIsMap(members, Nil, k);
        }
        SortedIsMap(None, Collect(members, Nil), members);
      case _ =>
    }
  }

  lemma {:induction false} CanonicalElemsAreFixed(vs: List<Value>)
    requires CanonicalElems(vs)
    ensures NormalizeElems(vs) == vs
  {
    if vs.Cons? {
      CanonicalIsFixed(vs.head);
      CanonicalElemsAreFixed(vs.tail);
    }
  }

  lemma {:induction false} CanonicalMembersAreFixed(ms: List<Member>)
    requires CanonicalMembers(ms)
    ensures NormalizeMembers(ms) == ms
  {
    if ms.Cons? {
      CanonicalIsFixed(ms.head.value);
      CanonicalMembersAreFixed(ms.tail);
    }
  }

  // ----- when two values are the same JSON value -----

  /** Arrays agree element by element; objects agree key by key; numbers, strings
      and literals are equal. */
  ghost predicate Same(v: Value, w: Value)
    decreases Size(v), 0
  {
    match (v, w)
    case (Arr(a), Arr(b)) => SameElems(a, b)
    case (Obj(a), Obj(b)) => forall k :: SameAt(a, b, k)
    case _ => v == w
  }

  ghost predicate SameElems(a: List<Value>, b: List<Value>)
    decreases ElemsSize(a), 1
  {
    match (a, b)
    case (Nil, Nil) => true
    case (Cons(x, a'), Cons(y, b')) => Same(x, y) && SameElems(a', b')
    case _ => false
  }

  /** Neither object has the key, or both have it with the same value. */
  ghost predicate SameAt(a: List<Member>, b: List<Member>, k: string)
    decreases MembersSize(a), 1
  {
    match (Lookup(a, k), Lookup(b, k))
    case (None, None) => true
    case (Some(x), Some(y)) => Same(x, y)
    case _ => false
  }

  /** Two values are the same exactly when their normal forms are equal. */
  lemma {:induction false} SameIsEqualNormalForm(v: Value, w: Value)
    ensures Same(v, w) <==> Normalize(v) == Normalize(w)
    decreases Size(v), 0
  {
    match (v, w) {
      case (Arr(a), Arr(b)) => SameElemsIsEqual(a, b);
      case (Obj(a), Obj(b)) =>
        var x, y := Collect(NormalizeMembers(a), Nil), Collect(NormalizeMembers(b), Nil);
        forall k ensures SameAt(a, b, k) <==> Lookup(x, k) == Lookup(y, k) {
          SameAtIsEqual(a, b, k);
        }
        NormalizeKeepsLookup(a, "");
        NormalizeKeepsLookup(b, "");
        if Same(v, w) {
          forall k ensures Lookup(x, k) == Lookup(y, k) {
            assert SameAt(a, b, k);
          }
          SortedIsMap(None, x, y);
        }
      case _ =>
    }
  }

  lemma {:induction false} SameElemsIsEqual(a: List<Value>, b: List<Value>)
    ensures SameElems(a, b) <==> NormalizeElems(a) == NormalizeElems(b)
    decreases ElemsSize(a), 1
  {
    if a.Cons? && b.Cons? {
      SameIsEqualNormalForm(a.head, b.head);
      SameElemsIsEqual(a.tail, b.tail);
    }
  }

  lemma {:induction false} SameAtIsEqual(a: List<Member>, b: List<Member>, k: string)
    ensures SameAt(a, b, k) <==>
      Lookup(Collect(NormalizeMembers(a), Nil), k) == Lookup(Collect(NormalizeMembers(b), Nil), k)
    decreases MembersSize(a), 1
  {
    NormalizeKeepsLookup(a, k);
    NormalizeKeepsLookup(b, k);
    if Lookup(a, k).Some? && Lookup(b, k).Some? {
      SameIsEqualNormalForm(Lookup(a, k).value, Lookup(b, k).value);
    }
  }

  // ----- the encoder -----

  /** What the encoder writes for v, before k. */
  function Written(v: Value, k: List<Lexeme>): List<Lexeme>
    decreases v, 0
  {
    match v
    case Null => Cons(NullWord, k)
    case Bool(b) => Cons(if b then TrueWord else FalseWord, k)
    case Num(text) => Cons(Number(text), k)
    case Str(s) => Cons(Quoted(Encode(s)), k)
    case Arr(elems) => Cons(Punct('['), if elems == Nil then Cons(Punct(']'), k) else WrittenElems(elems, k))
    case Obj(members) => Cons(Punct('{'), if members == Nil then Cons(Punct('}'), k) else WrittenMembers(members, k))
  }

  function WrittenElems(elems: List<Value>, k: List<Lexeme>): List<Lexeme>
    requires elems.Cons?
  {
    Written(elems.head,
      if elems.tail == Nil then Cons(Punct(']'), k) else Cons(Punct(','), WrittenElems(elems.tail, k)))
  }

  function WrittenMembers(members: List<Member>, k: List<Lexeme>): List<Lexeme>
    requires members.Cons?
  {
    Cons(Quoted(Encode(members.head.key)), Cons(Punct(':'), Written(members.head.value,
      if members.tail == Nil then Cons(Punct('}'), k) else Cons(Punct(','), WrittenMembers(members.tail, k)))))
  }

  function Print(v: Value): string {
    Text(Written(v, Nil))
  }

  /** What is written are valid lexemes that stand for the tokens of the value. */
  lemma {:induction false} WrittenSpellsTokens(v: Value, k: List<Lexeme>)
    requires ValidLexemes(k) && !StartsWithNumber(k)
    ensures ValidLexemes(Written(v, k)) && TokensOf(Written(v, k)) == ValueTokens(v, TokensOf(k))
    decreases v, 0
  {
    match v {
      case Str(s) => DecodeInvertsEncode(s);
      case Arr(elems) => if elems.Cons? { ElemsSpellTokens(elems, k); }
      case Obj(members) => if members.Cons? { MembersSpellTokens(members, k); }
      case _ =>
    }
  }

  lemma {:induction false} ElemsSpellTokens(elems: List<Value>, k: List<Lexeme>)
    requires elems.Cons? && ValidLexemes(k) && !StartsWithNumber(k)
    ensures ValidLexemes(WrittenElems(elems, k)) && TokensOf(WrittenElems(elems, k)) == ElemsTokens(elems, TokensOf(k))
    decreases elems, 1
  {
    if elems.tail.Cons? {
      ElemsSpellTokens(elems.tail, k);
    }
    WrittenSpellsTokens(elems.head,
      if elems.tail == Nil then Cons(Punct(']'), k) else Cons(Punct(','), WrittenElems(elems.tail, k)));
  }

  lemma {:induction false} MembersSpellTokens(members: List<Member>, k: List<Lexeme>)
    requires members.Cons? && ValidLexemes(k) && !StartsWithNumber(k)
    ensures ValidLexemes(WrittenMembers(members, k))
    ensures TokensOf(WrittenMembers(members, k)) == MembersTokens(members, TokensOf(k))
    decreases members, 1
  {
    if members.tail.Cons? {
      MembersSpellTokens(members.tail, k);
    }
    DecodeInvertsEncode(members.head.key);
    WrittenSpellsTokens(members.head.value,
      if members.tail == Nil then Cons(Punct('}'), k) else Cons(Punct(','), WrittenMembers(members.tail, k)));
  }

  // ----- how it is spelled -----

  /** A character that stands for itself in a string. */
  predicate IsPlain(c: char) {
    c >= ' ' && c != '"' && c != '\\' && c != '\U{2028}' && c != '\U{2029}'
  }

  /** A plain character, a two-character escape, or one of the other control
      characters and the two line separators in lower-case hexadecimal. */
  predicate IsMinimal(i: Item) {
    match i
    case Raw(c) => IsPlain(c)
    case Short(c) => c in "\"\\bfnrt"
    case Hex(a, b, c, d) =>
      || [a, b, c, d] == "2028" || [a, b, c, d] == "2029"
      || ([a, b, c] == "000" && d in "01234567bef")
      || ([a, b, c] == "001" && d in "0123456789abcdef")
  }

  predicate AreMinimal(items: List<Item>) {
    items.Cons? ==> IsMinimal(items.head) && AreMinimal(items.tail)
  }

  /** No white space, and no string character escaped needlessly. */
  predicate IsCompact(ls: List<Lexeme>) {
    ls.Cons? ==>
      && !ls.head.Blank? && (ls.head.Quoted? ==> AreMinimal(ls.head.items))
      && IsCompact(ls.tail)
  }

  lemma {:induction false} EncodedIsMinimal(c: char)
    ensures IsMinimal(EncodeChar(c))
  {
    var n := c as int;
    if n < 32 {
      assert EncodeChar(c).Hex? ==> EncodeChar(c).c2 == (if n < 16 then '0' else '1');
    } else if c == '\U{2028}' {
      assert EncodeChar(c) == Hex('2', '0', '2', '8');
    } else if c == '\U{2029}' {
      assert EncodeChar(c) == Hex('2', '0', '2', '9');
    }
  }

  lemma {:induction false} EncodeIsMinimal(s: string)
    ensures AreMinimal(Encode(s))
  {
    if s != [] {
      EncodedIsMinimal(s[0]);
      EncodeIsMinimal(s[1..]);
    }
  }

  /** Each character has one minimal spelling. */
  lemma {:induction false} MinimalIsEncoded(i: Item, rest: List<Item>) returns (c: char)
    requires IsMinimal(i)
    ensures EncodeChar(c) == i && Decode(Cons(i, rest)) == [c] + Decode(rest)
  {
    match i
    case Raw(x) => c := x;
    case Short(x) => c := Unescape(x);
    case Hex(a, b, c2, d) =>
      var u := MinimalUnit(i);
      c := u as char;
      hide HexDigit, HexValue, CodeUnit;
  }

  lemma {:induction false} MinimalUnit(i: Item) returns (u: nat)
    requires i.Hex? && IsMinimal(i)
    ensures u == CodeUnit(i) && (u < 0x20 || u == 0x2028 || u == 0x2029) && EncodeChar(u as char) == i
  {
    u := CodeUnit(i);
    hide CodeUnit, EncodeChar;
    var four, three := [i.a, i.b, i.c2, i.d], [i.a, i.b, i.c2];
    assert four[0] == i.a && four[1] == i.b && four[2] == i.c2 && four[3] == i.d;
    assert three[0] == i.a && three[1] == i.b && three[2] == i.c2;
    if four == "2028" || four == "2029" {
      SeparatorUnit(i.d);
    } else {
      ControlUnit(i.c2, i.d);
    }
  }

  lemma {:induction false} SeparatorUnit(d: char)
    requires d == '8' || d == '9'
    ensures var u := CodeUnit(Hex('2', '0', '2', d));
            (u == 0x2028 || u == 0x2029) && EncodeChar(u as char) == Hex('2', '0', '2', d)
  {
  }

  lemma {:induction false} ControlUnit(c2: char, d: char)
    requires (c2 == '0' && d in "01234567bef") || (c2 == '1' && d in "0123456789abcdef")
    ensures var u := CodeUnit(Hex('0', '0', c2, d));
            u < 0x20 && EncodeChar(u as char) == Hex('0', '0', c2, d)
  {
    LowerCaseDigit(c2);
    LowerCaseDigit(d);
    var hi, lo := HexValue(c2), HexValue(d);
    assert hi == (if c2 == '0' then 0 else 1) && (hi == 0 ==> lo < 8 || lo == 11 || lo > 13);
    assert CodeUnit(Hex('0', '0', c2, d)) == hi * 16 + lo;
    hide HexValue, CodeUnit, HexDigit;
    ControlIsEncoded(hi, lo);
  }

  lemma {:induction false} ControlIsEncoded(hi: nat, lo: nat)
    requires hi < 2 && lo < 16 && (hi == 0 ==> lo < 8 || lo == 11 || lo > 13)
    ensures EncodeChar((hi * 16 + lo) as char) == Hex('0', '0', HexDigit(hi), HexDigit(lo))
  {
    hide HexDigit;
    var u := hi * 16 + lo;
    assert u < 32 && u / 16 == hi && u % 16 == lo;
  }

  lemma {:induction false} LowerCaseDigit(d: char)
    requires d in "0123456789abcdef"
    ensures HexDigit(HexValue(d)) == d
  {
  }

  lemma {:induction false} MinimalItemsAreEncoded(items: List<Item>)
    requires AreMinimal(items)
    ensures Encode(Decode(items)) == items
  {
    if items.Cons? {
      var c := MinimalIsEncoded(items.head, items.tail);
      MinimalItemsAreEncoded(items.tail);
      assert ([c] + Decode(items.tail))[1..] == Decode(items.tail);
      hide EncodeChar, Decode;
    }
  }

  lemma {:induction false} WrittenIsCompact(v: Value, k: List<Lexeme>)
    requires IsCompact(k)
    ensures IsCompact(Written(v, k))
    decreases v, 0
  {
    match v {
      case Str(s) => EncodeIsMinimal(s);
      case Arr(elems) => if elems.Cons? { WrittenElemsAreCompact(elems, k); }
      case Obj(members) => if members.Cons? { WrittenMembersAreCompact(members, k); }
      case _ =>
    }
  }

  lemma {:induction false} WrittenElemsAreCompact(elems: List<Value>, k: List<Lexeme>)
    requires elems.Cons? && IsCompact(k)
    ensures IsCompact(WrittenElems(elems, k))
    decreases elems, 1
  {
    if elems.tail.Cons? {
      WrittenElemsAreCompact(elems.tail, k);
    }
    WrittenIsCompact(elems.head,
      if elems.tail == Nil then Cons(Punct(']'), k) else Cons(Punct(','), WrittenElems(elems.tail, k)));
  }

  lemma {:induction false} WrittenMembersAreCompact(members: List<Member>, k: List<Lexeme>)
    requires members.Cons? && IsCompact(k)
    ensures IsCompact(WrittenMembers(members, k))
    decreases members, 1
  {
    if members.tail.Cons? {
      WrittenMembersAreCompact(members.tail, k);
    }
    EncodeIsMinimal(members.head.key);
    WrittenIsCompact(members.head.value,
      if members.tail == Nil then Cons(Punct('}'), k) else Cons(Punct(','), WrittenMembers(members.tail, k)));
  }

  /** The same tokens have one compact spelling. */
  lemma {:induction false} CompactIsUnique(a: List<Lexeme>, b: List<Lexeme>)
    requires IsCompact(a) && IsCompact(b) && ValidLexemes(a) && ValidLexemes(b) && TokensOf(a) == TokensOf(b)
    ensures a == b
  {
    hide Decode, Encode;
    if a.Cons? && b.Cons? {
      CompactIsUnique(a.tail, b.tail);
      if a.head.Quoted? && b.head.Quoted? {
        MinimalItemsAreEncoded(a.head.items);
        MinimalItemsAreEncoded(b.head.items);
      }
    }
  }

  // ----- CanonicalJSON -----

  /** `Decode` followed by `RequireEOF`: the one value the text consists of. */
  function DecodeText(raw: string): Option<Value> {
    match Lex(raw)
    case None => None
    case Some(ls) =>
      match ParseValue(TokensOf(ls))
      case Fail => None
      case Done(v, rest) => if rest == Nil then Some(v) else None
  }

  function Canonical(raw: string): Option<string> {
    match DecodeText(raw)
    case None => None
    case Some(v) => Some(Print(Normalize(v)))
  }

  /** Exactly the texts of RFC 8259 are decoded: lexemes, blanks anywhere between
      them, that stand for the tokens of a value. */
  lemma {:induction false} DecodesExactlyTheGrammar(raw: string, v: Value)
    ensures DecodeText(raw) == Some(v) <==>
      exists ls :: ValidLexemes(ls) && Text(ls) == raw && TokensOf(ls) == ValueTokens(v, Nil)
  {
    if DecodeText(raw) == Some(v) {
      var ls := Lex(raw).value;
      LexIsSound(raw);
      ParseIsSound(TokensOf(ls));
      assert ValidLexemes(ls) && Text(ls) == raw && TokensOf(ls) == ValueTokens(v, Nil);
    }
    forall ls | ValidLexemes(ls) && Text(ls) == raw && TokensOf(ls) == ValueTokens(v, Nil)
      ensures DecodeText(raw) == Some(v)
    {
      LexInverts(ls);
      ParseInverts(v, Nil);
    }
  }

  /** Decoding what was printed gives back the value, whatever the value. */
  lemma {:induction false} DecodeInvertsPrint(v: Value)
    ensures DecodeText(Print(v)) == Some(v)
  {
    WrittenSpellsTokens(v, Nil);
    LexInverts(Written(v, Nil));
    ParseInverts(v, Nil);
  }

  /** The canonical text denotes the value of the original text. */
  lemma {:induction false} CanonicalDenotesTheSameValue(raw: string)
    requires Canonical(raw).Some?
    ensures DecodeText(Canonical(raw).value).Some?
    ensures Same(DecodeText(raw).value, DecodeText(Canonical(raw).value).value)
  {
    var v := DecodeText(raw).value;
    DecodeInvertsPrint(Normalize(v));
    NormalizeIsCanonical(v);
    CanonicalIsFixed(Normalize(v));
    SameIsEqualNormalForm(v, Normalize(v));
  }

  lemma {:induction false} CanonicalIsIdempotent(raw: string)
    requires Canonical(raw).Some?
    ensures Canonical(Canonical(raw).value) == Canonical(raw)
  {
    var v := DecodeText(raw).value;
    DecodeInvertsPrint(Normalize(v));
    NormalizeIsCanonical(v);
    CanonicalIsFixed(Normalize(v));
  }

  /** Equal canonical bytes exactly when the texts denote the same value. */
  lemma {:induction false} SameBytesExactlyWhenSameValue(a: string, b: string)
    requires Canonical(a).Some? && Canonical(b).Some?
    ensures Canonical(a) == Canonical(b) <==> Same(DecodeText(a).value, DecodeText(b).value)
  {
    var v, w := DecodeText(a).value, DecodeText(b).value;
    SameIsEqualNormalForm(v, w);
    DecodeInvertsPrint(Normalize(v));
    DecodeInvertsPrint(Normalize(w));
  }

  ghost predicate IsCompactText(text: string) {
    exists ls :: ValidLexemes(ls) && Text(ls) == text && IsCompact(ls)
  }

  /** The canonical text is written without white space and with the fewest escapes. */
  lemma {:induction false} CanonicalIsCompact(raw: string)
    requires Canonical(raw).Some?
    ensures IsCompactText(Canonical(raw).value)
  {
    var v := Normalize(DecodeText(raw).value);
    WrittenSpellsTokens(v, Nil);
    WrittenIsCompact(v, Nil);
    assert ValidLexemes(Written(v, Nil)) && Text(Written(v, Nil)) == Canonical(raw).value && IsCompact(Written(v, Nil));
  }

  /** It is the only such text that denotes the value with its keys ascending. */
  lemma {:induction false} CanonicalIsTheOnlySuchText(raw: string, text: string)
    requires Canonical(raw).Some?
    ensures Canonical(raw) == Some(text) <==>
      && IsCompactText(text)
      && DecodeText(text).Some? && IsCanonical(DecodeText(text).value)
      && Same(DecodeText(raw).value, DecodeText(text).value)
  {
    var v := DecodeText(raw).value;
    if Canonical(raw) == Some(text) {
      CanonicalIsCompact(raw);
      DecodeInvertsPrint(Normalize(v));
      NormalizeIsCanonical(v);
      CanonicalDenotesTheSameValue(raw);
    }
    if IsCompactText(text) && DecodeText(text).Some? && IsCanonical(DecodeText(text).value) &&
      Same(v, DecodeText(text).value)
    {
      CompactTextIsPrinted(text);
      SameIsEqualNormalForm(v, DecodeText(text).value);
      CanonicalIsFixed(DecodeText(text).value);
    }
  }

  lemma {:induction false} CompactTextIsPrinted(text: string)
    requires IsCompactText(text) && DecodeText(text).Some?
    ensures Print(DecodeText(text).value) == text
  {
    var ls :| ValidLexemes(ls) && Text(ls) == text && IsCompact(ls);
    var v := DecodeText(text).value;
    LexInverts(ls);
    ParseIsSound(TokensOf(ls));
    WrittenSpellsTokens(v, Nil);
    WrittenIsCompact(v, Nil);
    CompactIsUnique(ls, Written(v, Nil));
  }

  lemma {:induction false} CompactTextStays(text: string, v: Value)
    requires IsCompactText(text) && DecodeText(text) == Some(v) && IsCanonical(v)
    ensures Canonical(text) == Some(text)
  {
    CompactTextIsPrinted(text);
    CanonicalIsFixed(v);
  }

  lemma {:induction false} OneString(items: List<Item>)
    requires ValidItems(items) && AreMinimal(items)
    ensures var text, v := "\"" + SpellItems(items), Str(Decode(items));
            IsCompactText(text) && DecodeText(text) == Some(v) && IsCanonical(v)
  {
    hide Decode, SpellItems, DecodeText;
    var ls, v := Cons(Quoted(items), Nil), Str(Decode(items));
    assert Text(ls) == "\"" + SpellItems(items) + Text(Nil) == "\"" + SpellItems(items);
    var none: List<Lexeme> := Nil;
    assert ValidLexemes(none) && IsCompact(none) && TokensOf(none) == Nil;
    assert TokensOf(ls) == ValueTokens(v, Nil) && ValidLexemes(ls) && IsCompact(ls);
    DecodesExactlyTheGrammar(Text(ls), v);
  }

  function RawItems(s: string): List<Item> {
    if s == [] then Nil else Cons(Raw(s[0]), RawItems(s[1..]))
  }

  lemma {:induction false} RawItemsSpell(s: string)
    requires forall c <- s :: IsPlain(c)
    ensures SpellItems(RawItems(s)) == s + "\"" && ValidItems(RawItems(s)) && AreMinimal(RawItems(s))
  {
    if s != [] {
      RawItemsSpell(s[1..]);
      assert s == [s[0]] + s[1..] && s[0] in s;
    }
  }

  /** Plain characters are written as themselves. */
  lemma {:induction false} PlainStringsStay(s: string)
    requires forall c <- s :: IsPlain(c)
    ensures Canonical("\"" + s + "\"") == Some("\"" + s + "\"")
  {
    var text, items := "\"" + s + "\"", RawItems(s);
    hide *;
    RawItemsSpell(s);
    OneString(items);
    assert text == "\"" + SpellItems(items);
    CompactTextStays(text, Str(Decode(items)));
  }

  /** A canonical text is one line without control characters. */
  lemma {:induction false} CompactHasNoControls(ls: List<Lexeme>)
    requires ValidLexemes(ls) && IsCompact(ls)
    ensures forall c <- Text(ls) :: c >= ' '
  {
    if ls.Cons? {
      CompactHasNoControls(ls.tail);
      match ls.head {
        case Number(text) => NumberHasNumberChars(text);
        case Quoted(items) => MinimalHasNoControls(items);
        case _ =>
      }
      assert forall c <- Spell(ls.head) :: c >= ' ';
    }
  }

  lemma {:induction false} MinimalHasNoControls(items: List<Item>)
    requires AreMinimal(items)
    ensures forall c <- SpellItems(items) :: c >= ' '
  {
    if items.Cons? {
      MinimalHasNoControls(items.tail);
      assert forall c <- SpellItem(items.head) :: c >= ' ';
    }
  }

  lemma {:induction false} CanonicalIsOneLine(raw: string)
    requires Canonical(raw).Some?
    ensures forall c <- Canonical(raw).value :: c >= ' '
  {
    CanonicalIsCompact(raw);
    var ls :| ValidLexemes(ls) && Text(ls) == Canonical(raw).value && IsCompact(ls);
    CompactHasNoControls(ls);
  }

  lemma {:induction false} TokensOfAppend(a: List<Lexeme>, b: List<Lexeme>)
    ensures TokensOf(Append(a, b)) == Append(TokensOf(a), TokensOf(b))
  {
    if a.Cons? {
      TokensOfAppend(a.tail, b);
    }
  }

  lemma {:induction false} AppendValueTokens(v: Value, k: List<Token>, more: List<Token>)
    ensures Append(ValueTokens(v, k), more) == ValueTokens(v, Append(k, more))
    decreases v, 0
  {
    match v {
      case Arr(elems) => if elems.Cons? { AppendElemsTokens(elems, k, more); }
      case Obj(members) => if members.Cons? { AppendMembersTokens(members, k, more); }
      case _ =>
    }
  }

  lemma {:induction false} AppendElemsTokens(elems: List<Value>, k: List<Token>, more: List<Token>)
    requires elems.Cons?
    ensures Append(ElemsTokens(elems, k), more) == ElemsTokens(elems, Append(k, more))
    decreases elems, 1
  {
    if elems.tail.Cons? {
      AppendElemsTokens(elems.tail, k, more);
    }
    AppendValueTokens(elems.head,
      if elems.tail == Nil then Cons(TPunct(']'), k) else Cons(TPunct(','), ElemsTokens(elems.tail, k)), more);
  }

  lemma {:induction false} AppendMembersTokens(members: List<Member>, k: List<Token>, more: List<Token>)
    requires members.Cons?
    ensures Append(MembersTokens(members, k), more) == MembersTokens(members, Append(k, more))
    decreases members, 1
  {
    if members.tail.Cons? {
      AppendMembersTokens(members.tail, k, more);
    }
    AppendValueTokens(members.head.value,
      if members.tail == Nil then Cons(TPunct('}'), k) else Cons(TPunct(','), MembersTokens(members.tail, k)), more);
  }

  lemma {:induction false} OnlyBlanks(x: string)
    requires Lex(x).Some? && TokensOf(Lex(x).value) == Nil
    ensures forall c <- x :: IsBlank(c)
    decreases |x|
  {
    if x != [] {
      OnlyBlanks(LexOne(x).value.1);
      LexOneIsSound(x);
    }
  }

  lemma {:induction false} BlanksHaveNoTokens(x: string)
    requires forall c <- x :: IsBlank(c)
    ensures Lex(x).Some? && TokensOf(Lex(x).value) == Nil
    decreases |x|
  {
    if x != [] {
      assert x[0] in x && LexOne(x) == Some((Blank(x[0]), x[1..]));
      BlanksHaveNoTokens(x[1..]);
    }
  }

  lemma {:induction false} AppendToTokens(v: Value, more: List<Token>)
    ensures ParseValue(Append(ValueTokens(v, Nil), more)) == Done(v, more)
  {
    AppendValueTokens(v, Nil, more);
    ParseInverts(v, more);
  }

  /** White space after an accepted text changes nothing, and anything else after
      it is rejected, unless it continues a number at the end of that text. */
  lemma {:induction false} TrailingDataIsRejected(raw: string, extra: string)
    requires Canonical(raw).Some?
    requires extra != [] && NumberChar(extra[0]) ==> !EndsWithNumber(Lex(raw).value)
    ensures Canonical(raw + extra) == if forall c <- extra :: IsBlank(c) then Canonical(raw) else None
  {
    LexIsSound(raw);
    var ls, v := Lex(raw).value, DecodeText(raw).value;
    LexInvertsBefore(ls, extra);
    if forall c <- extra :: IsBlank(c) {
      BlanksHaveNoTokens(extra);
    }
    if Lex(extra).Some? {
      var more := Lex(extra).value;
      TokensOfAppend(ls, more);
      ParseIsSound(TokensOf(ls));
      AppendToTokens(v, TokensOf(more));
      if TokensOf(more) == Nil {
        OnlyBlanks(extra);
      }
    }
    hide Lex, LexOne, ParseValue, Print, Normalize, ValueTokens, TokensOf;
  }
}
