/** The lexical layer under bench/canonical.go: JSON text as encoding/json scans
    it, and the proof that scanning and spelling are inverse.

    Text is a sequence of Unicode scalar values; numbers, literals and string
    characters follow RFC 8259, sections 2, 6 and 7. */
module JsonText {
  import opened Strings

  datatype List<T> = Nil | Cons(head: T, tail: List<T>)

  // ----- numbers -----

  predicate IsDigit(c: char) {
    '0' <= c <= '9'
  }

  predicate AllDigits(s: string) {
    forall c <- s :: IsDigit(c)
  }

  predicate NumberChar(c: char) {
    IsDigit(c) || c == '-' || c == '+' || c == '.' || c == 'e' || c == 'E'
  }

  /** How many digits the text starts with. */
  function DigitRun(s: string): (n: nat)
    ensures n <= |s| && AllDigits(s[..n])
  {
    if s == [] || !IsDigit(s[0]) then 0 else 1 + DigitRun(s[1..])
  }

  predicate IsExponent(s: string) {
    s == [] ||
    (s[0] in "eE" && var d := if |s| > 1 && s[1] in "+-" then s[2..] else s[1..]; d != [] && AllDigits(d))
  }

  predicate IsFraction(s: string) {
    if s != [] && s[0] == '.' then
      var n := DigitRun(s[1..]);
      n > 0 && IsExponent(s[1 + n..])
    else IsExponent(s)
  }

  predicate IsUnsigned(s: string) {
    if s == [] then false
    else if s[0] == '0' then IsFraction(s[1..])
    else var n := DigitRun(s); n > 0 && IsFraction(s[n..])
  }

  /** [ minus ] int [ frac ] [ exp ], RFC 8259 section 6. */
  predicate IsNumber(s: string) {
    if s != [] && s[0] == '-' then IsUnsigned(s[1..]) else IsUnsigned(s)
  }

  /** A single zero, or digits that do not start with one. */
  predicate IsInteger(s: string) {
    s == "0" || (s != "" && '1' <= s[0] <= '9' && AllDigits(s))
  }

  predicate IsFractionPart(s: string) {
    s == "" || (|s| > 1 && s[0] == '.' && AllDigits(s[1..]))
  }

  predicate IsExponentPart(s: string) {
    s == "" ||
    (|s| > 1 && (s[0] == 'e' || s[0] == 'E') &&
     (AllDigits(s[1..]) || (|s| > 2 && (s[1] == '+' || s[1] == '-') && AllDigits(s[2..]))))
  }

  ghost predicate HasParts(s: string, sign: string, digits: string, fraction: string, exponent: string) {
    && s == sign + (digits + (fraction + exponent))
    && (sign == "" || sign == "-") && IsInteger(digits) && IsFractionPart(fraction) && IsExponentPart(exponent)
  }

  lemma {:induction false} DigitRunIs(digits: string, rest: string)
    requires AllDigits(digits) && (rest != "" ==> !IsDigit(rest[0]))
    ensures DigitRun(digits + rest) == |digits|
  {
    if digits == "" {
      assert digits + rest == rest;
    } else {
      DigitRunIs(digits[1..], rest);
      assert (digits + rest)[1..] == digits[1..] + rest;
    }
  }

  lemma {:induction false} ExponentPart(s: string)
    ensures IsExponent(s) <==> IsExponentPart(s)
    ensures IsExponentPart(s) && s != "" ==> s[0] == 'e' || s[0] == 'E'
  {
    if s != "" {
      assert s[0] in "eE" <==> s[0] == 'e' || s[0] == 'E' by {
        assert "eE"[0] == 'e' && "eE"[1] == 'E';
      }
      if |s| > 1 {
        assert s[1] in "+-" <==> s[1] == '+' || s[1] == '-' by {
          assert "+-"[0] == '+' && "+-"[1] == '-';
        }
        if s[1] == '+' || s[1] == '-' {
          assert s[1..][0] == s[1] && s[1] in s[1..] && !AllDigits(s[1..]);
        }
      }
    }
  }

  lemma {:induction false} FractionHasParts(s: string) returns (fraction: string, exponent: string)
    requires IsFraction(s)
    ensures s == fraction + exponent && IsFractionPart(fraction) && IsExponentPart(exponent)
  {
    if s != "" && s[0] == '.' {
      var n := DigitRun(s[1..]);
      fraction, exponent := s[..1 + n], s[1 + n..];
      assert fraction[1..] == s[1..][..n];
    } else {
      fraction, exponent := "", s;
    }
    ExponentPart(exponent);
  }

  lemma {:induction false} PartsMakeFraction(fraction: string, exponent: string)
    requires IsFractionPart(fraction) && IsExponentPart(exponent)
    ensures IsFraction(fraction + exponent)
    ensures fraction + exponent != "" ==> !IsDigit((fraction + exponent)[0])
  {
    ExponentPart(exponent);
    var s := fraction + exponent;
    if fraction != "" {
      assert s[1..] == fraction[1..] + exponent;
      DigitRunIs(fraction[1..], exponent);
      assert s[|fraction|..] == exponent;
    }
  }

  lemma {:induction false} UnsignedHasParts(s: string) returns (digits: string, rest: string)
    requires IsUnsigned(s)
    ensures s == digits + rest && IsInteger(digits) && IsFraction(rest)
  {
    hide IsFraction;
    var n := if s[0] == '0' then 1 else DigitRun(s);
    digits, rest := s[..n], s[n..];
    assert digits[0] == s[0] && digits[0] in digits;
    assert s[0] == '0' ==> digits == "0";
  }

  lemma {:induction false} PartsMakeUnsigned(digits: string, rest: string)
    requires IsInteger(digits) && IsFraction(rest) && (rest != "" ==> !IsDigit(rest[0]))
    ensures IsUnsigned(digits + rest) && (digits + rest)[0] != '-'
  {
    hide IsFraction;
    assert (digits + rest)[|digits|..] == rest;
    if digits != "0" {
      DigitRunIs(digits, rest);
    }
  }

  /** A number is a sign, an integer, a fraction and an exponent, RFC 8259 section 6. */
  lemma {:induction false} NumberGrammar(s: string)
    ensures IsNumber(s) <==> exists sign, digits, fraction, exponent :: HasParts(s, sign, digits, fraction, exponent)
  {
    hide HasParts, IsNumber;
    if IsNumber(s) {
      var sign, digits, fraction, exponent := NumberHasParts(s);
    }
    if sign, digits, fraction, exponent :| HasParts(s, sign, digits, fraction, exponent) {
      PartsMakeNumber(s, sign, digits, fraction, exponent);
    }
  }

  lemma {:induction false} NumberHasParts(s: string)
      returns (sign: string, digits: string, fraction: string, exponent: string)
    requires IsNumber(s)
    ensures HasParts(s, sign, digits, fraction, exponent)
  {
    var rest;
    sign := if s[0] == '-' then "-" else "";
    digits, rest := UnsignedHasParts(s[|sign|..]);
    fraction, exponent := FractionHasParts(rest);
    hide IsUnsigned, IsFraction, IsInteger, IsFractionPart, IsExponentPart, IsNumber;
    assert s == sign + s[|sign|..];
  }

  lemma {:induction false} PartsMakeNumber(s: string, sign: string, digits: string, fraction: string, exponent: string)
    requires HasParts(s, sign, digits, fraction, exponent)
    ensures IsNumber(s)
  {
    PartsMakeFraction(fraction, exponent);
    PartsMakeUnsigned(digits, fraction + exponent);
    hide IsUnsigned, IsFraction, IsInteger, IsFractionPart, IsExponentPart;
    var u := digits + (fraction + exponent);
    if sign == "-" {
      assert s[0] == '-' && s[1..] == u;
    } else {
      assert s == u;
    }
  }

  predicate AllNumberChars(s: string) {
    forall c <- s :: NumberChar(c)
  }

  lemma {:induction false} NumberHasNumberChars(s: string)
    requires IsNumber(s)
    ensures s != [] && (IsDigit(s[0]) || s[0] == '-') && AllNumberChars(s)
  {
    var u := if s[0] == '-' then s[1..] else s;
    UnsignedHasNumberChars(u);
    assert s[0] == '-' ==> s == ['-'] + u;
  }

  lemma {:induction false} UnsignedHasNumberChars(s: string)
    requires IsUnsigned(s)
    ensures s != [] && IsDigit(s[0]) && AllNumberChars(s)
  {
    var n := if s[0] == '0' then 1 else DigitRun(s);
    assert s == s[..n] + s[n..];
    assert forall c <- s[..n] :: IsDigit(c);
    FractionHasNumberChars(s[n..]);
    assert s[0] == s[..n][0];
  }

  lemma {:induction false} FractionHasNumberChars(s: string)
    requires IsFraction(s)
    ensures AllNumberChars(s)
  {
    if s != [] && s[0] == '.' {
      var n := DigitRun(s[1..]);
      assert s == ['.'] + s[1..][..n] + s[1 + n..];
      assert forall c <- s[1..][..n] :: IsDigit(c);
      ExponentHasNumberChars(s[1 + n..]);
    } else {
      ExponentHasNumberChars(s);
    }
  }

  lemma {:induction false} ExponentHasNumberChars(s: string)
    requires IsExponent(s)
    ensures AllNumberChars(s)
  {
    if s != [] {
      var d := if |s| > 1 && s[1] in "+-" then s[2..] else s[1..];
      var head := s[..|s| - |d|];
      assert s == head + d;
      assert forall c <- head :: NumberChar(c);
      assert forall c <- d :: IsDigit(c);
    }
  }

  type NumberText = s: string | IsNumber(s) witness "0"

  // ----- lexemes -----

  /** One character of a string literal: itself, a two-character escape, or \u
      with four hexadecimal digits. */
  datatype Item = Raw(c: char) | Short(c: char) | Hex(a: char, b: char, c2: char, d: char)

  datatype Lexeme =
    | Blank(c: char)
    | Punct(c: char)
    | NullWord | TrueWord | FalseWord
    | Number(text: NumberText)
    | Quoted(items: List<Item>)

  predicate IsBlank(c: char) {
    c == ' ' || c == '\t' || c == '\n' || c == '\r'
  }

  predicate IsPunct(c: char) {
    c in "[]{}:,"
  }

  predicate IsHexDigit(c: char) {
    IsDigit(c) || 'a' <= c <= 'f' || 'A' <= c <= 'F'
  }

  predicate ValidItem(i: Item) {
    match i
    case Raw(c) => c >= ' ' && c != '"' && c != '\\'
    case Short(c) => c in "\"\\/bfnrt"
    case Hex(a, b, c, d) => IsHexDigit(a) && IsHexDigit(b) && IsHexDigit(c) && IsHexDigit(d)
  }

  predicate ValidItems(items: List<Item>) {
    match items
    case Nil => true
    case Cons(i, rest) => ValidItem(i) && ValidItems(rest)
  }

  predicate ValidLexeme(l: Lexeme) {
    match l
    case Blank(c) => IsBlank(c)
    case Punct(c) => IsPunct(c)
    case Quoted(items) => ValidItems(items)
    case _ => true
  }

  /** Valid lexemes; two numbers are never adjacent, as they would read as one. */
  predicate ValidLexemes(ls: List<Lexeme>) {
    match ls
    case Nil => true
    case Cons(l, rest) => ValidLexeme(l) && ValidLexemes(rest) && !(l.Number? && StartsWithNumber(rest))
  }

  predicate StartsWithNumber(ls: List<Lexeme>) {
    ls.Cons? && ls.head.Number?
  }

  function SpellItem(i: Item): (r: string)
    ensures r != ""
  {
    match i
    case Raw(c) => [c]
    case Short(c) => ['\\', c]
    case Hex(a, b, c, d) => ['\\', 'u', a, b, c, d]
  }

  function SpellItems(items: List<Item>): string {
    match items
    case Nil => "\""
    case Cons(i, rest) => SpellItem(i) + SpellItems(rest)
  }

  function Spell(l: Lexeme): string {
    match l
    case Blank(c) => [c]
    case Punct(c) => [c]
    case NullWord => "null"
    case TrueWord => "true"
    case FalseWord => "false"
    case Number(text) => text
    case Quoted(items) => "\"" + SpellItems(items)
  }

  function Text(ls: List<Lexeme>): string {
    match ls
    case Nil => []
    case Cons(l, rest) => Spell(l) + Text(rest)
  }

  // ----- the scanner -----

  /** The items up to the closing quote, and the text after it. */
  function LexItems(s: string): (r: Option<(List<Item>, string)>)
    ensures r.Some? ==> |r.value.1| < |s|
  {
    if s == [] then None
    else if s[0] == '"' then Some((Nil, s[1..]))
    else
      var i := LexItem(s);
      if i.None? then None
      else
        var rest := LexItems(s[|SpellItem(i.value)|..]);
        if rest.None? then None else Some((Cons(i.value, rest.value.0), rest.value.1))
  }

  function LexItem(s: string): (r: Option<Item>)
    requires s != [] && s[0] != '"'
    ensures r.Some? ==> SpellItem(r.value) <= s && ValidItem(r.value)
  {
    if s[0] == '\\' then
      if |s| < 2 then None
      else if s[1] in "\"\\/bfnrt" then Some(Short(s[1]))
      else if s[1] == 'u' && |s| >= 6 && IsHexDigit(s[2]) && IsHexDigit(s[3]) && IsHexDigit(s[4]) && IsHexDigit(s[5])
      then Some(Hex(s[2], s[3], s[4], s[5]))
      else None
    else if s[0] < ' ' then None
    else Some(Raw(s[0]))
  }

  function NumberRun(s: string): (n: nat)
    ensures n <= |s| && AllNumberChars(s[..n]) && (n < |s| ==> !NumberChar(s[n]))
  {
    if s == [] || !NumberChar(s[0]) then 0
    else
      var n := 1 + NumberRun(s[1..]);
      assert s[..n] == [s[0]] + s[1..][..n - 1];
      n
  }

  /** The first lexeme and the text after it. */
  function LexOne(s: string): (r: Option<(Lexeme, string)>)
    requires s != []
    ensures r.Some? ==> |r.value.1| < |s|
  {
    if IsBlank(s[0]) then Some((Blank(s[0]), s[1..]))
    else if IsPunct(s[0]) then Some((Punct(s[0]), s[1..]))
    else if s[0] == '"' then
      var r := LexItems(s[1..]);
      if r.None? then None else Some((Quoted(r.value.0), r.value.1))
    else if "null" <= s then Some((NullWord, s[4..]))
    else if "true" <= s then Some((TrueWord, s[4..]))
    else if "false" <= s then Some((FalseWord, s[5..]))
    else if IsDigit(s[0]) || s[0] == '-' then
      var n := NumberRun(s);
      if IsNumber(s[..n]) then Some((Number(s[..n]), s[n..])) else None
    else None
  }

  function Lex(s: string): Option<List<Lexeme>>
    decreases |s|
  {
    if s == [] then Some(Nil)
    else
      var one := LexOne(s);
      if one.None? then None
      else
        var rest := Lex(one.value.1);
        if rest.None? then None else Some(Cons(one.value.0, rest.value))
  }

  // ----- scanning and spelling are inverse -----

  lemma {:induction false} LexItemInverts(i: Item, rest: string)
    requires ValidItem(i)
    ensures SpellItem(i) + rest != [] && (SpellItem(i) + rest)[0] != '"' && LexItem(SpellItem(i) + rest) == Some(i)
  {
  }

  lemma {:induction false} LexItemsInverts(items: List<Item>, rest: string)
    requires ValidItems(items)
    ensures LexItems(SpellItems(items) + rest) == Some((items, rest))
  {
    match items {
      case Nil =>
        assert ("\"" + rest)[1..] == rest;
      case Cons(i, more) =>
        LexItemsInverts(more, rest);
        var tail := SpellItems(more) + rest;
        LexItemInverts(i, tail);
        assert SpellItems(items) + rest == SpellItem(i) + tail;
        assert (SpellItem(i) + tail)[|SpellItem(i)|..] == tail;
    }
  }

  lemma {:induction false} LexItemsIsSound(s: string)
    requires LexItems(s).Some?
    ensures var (items, rest) := LexItems(s).value; ValidItems(items) && SpellItems(items) + rest == s
    decreases |s|
  {
    hide LexItem, ValidItem, SpellItem;
    if s[0] == '"' {
      assert SpellItems(Nil) + s[1..] == s;
    } else {
      var i := LexItem(s).value;
      var tail := s[|SpellItem(i)|..];
      LexItemsIsSound(tail);
      var (items, rest) := LexItems(tail).value;
      assert LexItems(s).value == (Cons(i, items), rest);
      assert s == SpellItem(i) + tail;
      assert SpellItems(Cons(i, items)) + rest == SpellItem(i) + (SpellItems(items) + rest);
    }
  }

  lemma {:induction false} NumberRunIs(text: string, rest: string)
    requires AllNumberChars(text) && (rest != [] ==> !NumberChar(rest[0]))
    ensures NumberRun(text + rest) == |text|
  {
    if text == [] {
      assert text + rest == rest;
    } else {
      NumberRunIs(text[1..], rest);
      assert (text + rest)[1..] == text[1..] + rest;
    }
  }

  lemma {:induction false} NumberStarts(text: NumberText)
    ensures text != "" && (IsDigit(text[0]) || text[0] == '-')
  {
  }

  lemma {:induction false} NotAWord(s: string)
    requires s != [] && s[0] != 'n' && s[0] != 't' && s[0] != 'f'
    ensures !("null" <= s) && !("true" <= s) && !("false" <= s)
  {
    assert "null"[0] == 'n' && "true"[0] == 't' && "false"[0] == 'f';
  }

  lemma {:induction false} LexOneNumber(s: string)
    requires s != [] && (IsDigit(s[0]) || s[0] == '-') && IsNumber(s[..NumberRun(s)])
    ensures LexOne(s) == Some((Number(s[..NumberRun(s)]), s[NumberRun(s)..]))
  {
    hide LexItems, NumberRun, IsNumber;
    NotAWord(s);
  }

  lemma {:induction false} LexOneQuoted(s: string)
    requires s != [] && s[0] == '"'
    ensures LexOne(s) == match LexItems(s[1..]) case None => None case Some(r) => Some((Quoted(r.0), r.1))
  {
    hide LexItems, NumberRun, IsNumber;
  }

  lemma {:induction false} LexNumberInverts(text: NumberText, rest: string)
    requires rest != [] ==> !NumberChar(rest[0])
    ensures text + rest != [] && LexOne(text + rest) == Some((Number(text), rest))
  {
    NumberHasNumberChars(text);
    NumberRunIs(text, rest);
    NumberStarts(text);
    hide LexOne, NumberRun, IsNumber;
    var s := text + rest;
    assert s[..|text|] == text && s[|text|..] == rest;
    LexOneNumber(s);
  }

  lemma {:induction false} LexWordInverts(l: Lexeme, rest: string)
    requires l.NullWord? || l.TrueWord? || l.FalseWord?
    ensures Spell(l) + rest != [] && LexOne(Spell(l) + rest) == Some((l, rest))
  {
    hide LexItems, SpellItems, NumberRun, IsNumber;
    var s, n := Spell(l) + rest, |Spell(l)|;
    assert Spell(l) <= s && s[n..] == rest;
    assert "null"[0] == 'n' && "true"[0] == 't' && "false"[0] == 'f' && s[0] == Spell(l)[0];
  }

  lemma {:induction false} LexQuotedInverts(items: List<Item>, rest: string)
    requires ValidItems(items)
    ensures "\"" + SpellItems(items) + rest != []
    ensures LexOne("\"" + SpellItems(items) + rest) == Some((Quoted(items), rest))
  {
    hide LexOne, LexItems, SpellItems;
    var s := "\"" + SpellItems(items) + rest;
    LexItemsInverts(items, rest);
    LexOneQuoted(s);
    assert s[0] == '"' && s[1..] == SpellItems(items) + rest;
  }

  lemma {:induction false} LexOneInverts(l: Lexeme, rest: string)
    requires ValidLexeme(l) && (l.Number? && rest != [] ==> !NumberChar(rest[0]))
    ensures Spell(l) + rest != [] && LexOne(Spell(l) + rest) == Some((l, rest))
  {
    hide LexItems, SpellItems, NumberRun, IsNumber;
    match l {
      case Number(text) => LexNumberInverts(text, rest);
      case Quoted(items) => LexQuotedInverts(items, rest);
      case Blank(c) => assert ([c] + rest)[1..] == rest;
      case Punct(c) => assert ([c] + rest)[1..] == rest;
      case _ => LexWordInverts(l, rest);
    }
  }

  /** A number ends where the next lexeme starts. */
  lemma {:induction false} NextStart(ls: List<Lexeme>)
    requires ValidLexemes(ls) && ls.Cons? && !ls.head.Number?
    ensures Text(ls) != [] && !NumberChar(Text(ls)[0])
  {
    assert Spell(ls.head) != [] && Text(ls)[0] == Spell(ls.head)[0];
  }

  lemma {:induction false} LexCons(s: string, l: Lexeme, after: string)
    requires s != [] && LexOne(s) == Some((l, after))
    ensures Lex(s) == match Lex(after) case None => None case Some(more) => Some(Cons(l, more))
  {
    hide LexOne;
  }

  /** What scanning yields for lexemes followed by any text that does not extend
      a number at the end of the lexemes. */
  lemma {:induction false} LexInvertsBefore(ls: List<Lexeme>, rest: string)
    requires ValidLexemes(ls)
    requires rest != [] && NumberChar(rest[0]) ==> !EndsWithNumber(ls)
    ensures Lex(Text(ls) + rest) == match Lex(rest) case None => None case Some(more) => Some(Append(ls, more))
  {
    hide Lex, LexOne, Spell, ValidLexeme;
    match ls {
      case Nil => assert Text(ls) + rest == rest;
      case Cons(l, tail) =>
        LexInvertsBefore(tail, rest);
        var after := Text(tail) + rest;
        assert Text(ls) + rest == Spell(l) + after;
        if l.Number? && tail.Cons? {
          NextStart(tail);
          assert after[0] == Text(tail)[0];
        }
        assert tail == Nil ==> after == rest;
        LexOneInverts(l, after);
        LexCons(Spell(l) + after, l, after);
    }
  }

  predicate EndsWithNumber(ls: List<Lexeme>) {
    ls.Cons? && if ls.tail == Nil then ls.head.Number? else EndsWithNumber(ls.tail)
  }

  function Append<T>(a: List<T>, b: List<T>): List<T> {
    match a
    case Nil => b
    case Cons(x, rest) => Cons(x, Append(rest, b))
  }

  lemma {:induction false} AppendNil<T>(a: List<T>)
    ensures Append(a, Nil) == a
  {
    if a.Cons? {
      AppendNil(a.tail);
    }
  }

  lemma {:induction false} LexInverts(ls: List<Lexeme>)
    requires ValidLexemes(ls)
    ensures Lex(Text(ls)) == Some(ls)
  {
    LexInvertsBefore(ls, []);
    AppendNil(ls);
    assert Text(ls) + [] == Text(ls);
  }

  lemma {:induction false} LexOneIsSound(s: string)
    requires s != [] && LexOne(s).Some?
    ensures var (l, rest) := LexOne(s).value; ValidLexeme(l) && Spell(l) + rest == s
    ensures var (l, rest) := LexOne(s).value; l.Number? && rest != [] ==> !NumberChar(rest[0])
  {
    hide LexItems, SpellItems, ValidItems, NumberRun, IsNumber;
    if s[0] == '"' && LexItems(s[1..]).Some? {
      LexItemsIsSound(s[1..]);
    }
  }

  lemma {:induction false} LexIsSound(s: string)
    requires Lex(s).Some?
    ensures ValidLexemes(Lex(s).value) && Text(Lex(s).value) == s
    decreases |s|
  {
    if s != [] {
      LexOneIsSound(s);
      var (l, rest) := LexOne(s).value;
      LexIsSound(rest);
      var more := Lex(rest).value;
      if StartsWithNumber(more) {
        NumberHasNumberChars(more.head.text);
        assert Text(more)[0] == more.head.text[0];
      }
    }
  }
}
