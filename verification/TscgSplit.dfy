/** `EncodeIndexMetadata` of bench/arms/tscg.go: a tool's compiled text is cut
    into name, description and parameters. The compiled text is any string. */
module TscgSplit {
  import opened Strings

  datatype Metadata = Metadata(name: string, server: string, description: string, paramsJson: string)

  /** Go stops with a run-time panic when a slice's bounds cross. */
  datatype Outcome = NoHeader | NoClosure | Panics | Ok(meta: Metadata)

  /** The line break and the opening of the closure line. */
  function Marker(): (m: string)
    ensures |m| == 10 && m[0] == '\n' && m[9] == ':'
    ensures forall i :: 0 < i < 10 ==> m[i] != '\n'
    ensures forall i :: 0 <= i < 10 ==> m[i] != ' '
  {
    "\n[CLOSURE:"
  }

  predicate MarkerAt(s: string, k: nat) {
    k + |Marker()| <= |s| && s[k..k + |Marker()|] == Marker()
  }

  ghost predicate MarkerFree(s: string) {
    forall k: nat :: !MarkerAt(s, k)
  }

  /** `strings.LastIndex(s, "\n[CLOSURE:")` among the positions below n. */
  function LastMarker(s: string, n: nat): (at: Option<nat>)
    ensures at.Some? ==> at.value < n && MarkerAt(s, at.value) && forall k: nat :: at.value < k < n ==> !MarkerAt(s, k)
    ensures at.None? ==> forall k: nat :: k < n ==> !MarkerAt(s, k)
  {
    if n == 0 then None else if MarkerAt(s, n - 1) then Some(n - 1) else LastMarker(s, n - 1)
  }

  // ----- lines -----

  /** `strings.Split(s, "\n")` */
  function SplitLines(s: string): (lines: seq<string>)
    ensures lines != []
  {
    Split(s, "\n")
  }

  /** `strings.Join(lines, "\n")` */
  function JoinLines(lines: seq<string>): string {
    Join(lines, "\n")
  }

  predicate IsLine(s: string) {
    '\n' !in s
  }

  lemma {:induction false} JoinCons(line: string, rest: seq<string>)
    ensures JoinLines([line] + rest) == if rest == [] then line else line + "\n" + JoinLines(rest)
  {
    assert ([line] + rest)[1..] == rest;
  }

  lemma {:induction false} JoinLonger(c: char, lines: seq<string>)
    requires lines != []
    ensures JoinLines([[c] + lines[0]] + lines[1..]) == [c] + JoinLines(lines)
  {
    hide JoinLines;
    assert lines == [lines[0]] + lines[1..];
    JoinCons(lines[0], lines[1..]);
    JoinCons([c] + lines[0], lines[1..]);
  }

  lemma {:induction false} JoinInvertsSplit(s: string)
    ensures JoinLines(SplitLines(s)) == s
  {
    SplitNothing("\n", if s == "" then "" else s[1..]);
    if s == "" {
      JoinCons("", []);
      assert SplitLines(s) == [""] + [];
    } else {
      JoinInvertsSplit(s[1..]);
      var rest := SplitLines(s[1..]);
      assert s == [s[0]] + s[1..] && rest == [rest[0]] + rest[1..];
      hide JoinLines, Split;
      if s[0] == '\n' {
        assert s == "\n" + s[1..];
        JoinCons("", rest);
      } else {
        SplitOneChar(s, "\n");
        JoinLonger(s[0], rest);
      }
    }
  }

  lemma {:induction false} SplitGivesLines(s: string)
    ensures forall l <- SplitLines(s) :: IsLine(l)
  {
    if s != "" {
      SplitGivesLines(s[1..]);
      var rest := SplitLines(s[1..]);
      assert rest == [rest[0]] + rest[1..] && IsLine(rest[0]);
      assert s[0] != '\n' ==> IsLine([s[0]] + rest[0]);
    }
  }

  lemma {:induction false} SplitInvertsJoin(lines: seq<string>)
    requires lines != [] && forall l <- lines :: IsLine(l)
    ensures SplitLines(JoinLines(lines)) == lines
  {
    forall l | l in lines ensures IsPart(l, "\n") {
      OtherCharsArePart(l, "\n");
    }
    Strings.SplitInvertsJoin(lines, "\n");
  }

  lemma {:induction false} JoinAppend(a: seq<string>, b: seq<string>)
    requires a != [] && b != []
    ensures JoinLines(a + b) == JoinLines(a) + "\n" + JoinLines(b)
  {
    if |a| == 1 {
      assert (a + b)[1..] == b;
    } else {
      JoinAppend(a[1..], b);
      assert (a + b)[1..] == a[1..] + b;
    }
  }

  // ----- the split -----

  predicate Indented(line: string) {
    "  " <= line
  }

  /** Where the trailing run of indented lines begins. */
  function ParamStart(lines: seq<string>): (n: nat)
    ensures n <= |lines|
    ensures forall i :: n <= i < |lines| ==> Indented(lines[i])
    ensures n > 0 ==> !Indented(lines[n - 1])
  {
    if lines == [] then 0
    else if Indented(lines[|lines| - 1]) then ParamStart(lines[..|lines| - 1])
    else |lines|
  }

  lemma {:induction false} ParamStartIsUnique(lines: seq<string>, n: nat)
    requires n <= |lines| && forall i :: n <= i < |lines| ==> Indented(lines[i])
    requires n > 0 ==> !Indented(lines[n - 1])
    ensures ParamStart(lines) == n
  {}

  function ParamsText(params: seq<string>, closure: string): string {
    var text := JoinLines(params);
    if text != "" then text + "\n" + closure else closure
  }

  function Prefix(name: string): string {
    name + ": "
  }

  function Divide(encoded: string, name: string, server: string): Outcome {
    var last := LastMarker(encoded, |encoded|);
    if !(Prefix(name) <= encoded) then NoHeader
    else if last.None? || encoded[|encoded| - 1] != ']' then NoClosure
    else if last.value < |Prefix(name)| then Panics
    else
      var lines := SplitLines(encoded[|Prefix(name)|..last.value]);
      var n := ParamStart(lines);
      Ok(Metadata(name, server, JoinLines(lines[..n]), ParamsText(lines[n..], encoded[last.value + 1..])))
  }

  /** `EncodeIndexMetadata`, after the tool's text has been compiled. */
  method IndexMetadata(encoded: string, name: string, server: string) returns (outcome: Outcome)
    ensures outcome == Divide(encoded, name, server)
  {
    hide LastMarker, MarkerAt, SplitLines, JoinLines, ParamStart;
    var prefix := name + ": ";
    if !(prefix <= encoded) {
      return NoHeader;
    }
    var closureIdx := LastMarker(encoded, |encoded|);
    if closureIdx.None? || !(encoded != "" && encoded[|encoded| - 1] == ']') {
      return NoClosure;
    }
    var closure := encoded[closureIdx.value + 1..];
    if closureIdx.value < |prefix| {
      return Panics;
    }
    var body := encoded[|prefix|..closureIdx.value];
    var lines := SplitLines(body);
    var paramStart := |lines|;
    while paramStart > 0 && Indented(lines[paramStart - 1])
      invariant 0 <= paramStart <= |lines| && forall i :: paramStart <= i < |lines| ==> Indented(lines[i])
    {
      paramStart := paramStart - 1;
    }
    ParamStartIsUnique(lines, paramStart);
    var description := JoinLines(lines[..paramStart]);
    var params := JoinLines(lines[paramStart..]);
    var paramsJson := closure;
    if params != "" {
      paramsJson := params + "\n" + closure;
    }
    outcome := Ok(Metadata(name, server, description, paramsJson));
  }

  // ----- what the split keeps -----

  /** The three index fields, put together as the documentation of the split says. */
  function Reassemble(m: Metadata): string {
    m.name + ": " + m.description + "\n" + m.paramsJson
  }

  /** The lines between the header and the closure line. */
  function BodyLines(encoded: string, name: string): seq<string>
    requires Divide(encoded, name, "").Ok?
  {
    SplitLines(encoded[|Prefix(name)|..LastMarker(encoded, |encoded|).value])
  }

  lemma {:induction false} IndentedJoin(params: seq<string>)
    requires forall l <- params :: Indented(l)
    ensures JoinLines(params) == "" <==> params == []
  {
    if params != [] {
      assert Indented(params[0]);
    }
  }

  lemma {:induction false} NoLines()
    ensures JoinLines([]) == ""
  {}

  lemma {:induction false} BodyIsJoined(lines: seq<string>, n: nat, closure: string)
    requires n <= |lines| && lines != [] && forall l <- lines[n..] :: Indented(l)
    ensures JoinLines(lines[..n]) + "\n" + ParamsText(lines[n..], closure)
         == (if n == 0 then "\n" else "") + JoinLines(lines) + "\n" + closure
  {
    IndentedJoin(lines[n..]);
    hide Indented, JoinLines;
    assert lines == lines[..n] + lines[n..];
    if n == 0 {
      NoLines();
      assert lines[..n] == [] && lines[n..] == lines;
    } else if n == |lines| {
      assert lines[..n] == lines && lines[n..] == [];
    } else {
      JoinAppend(lines[..n], lines[n..]);
    }
  }

  lemma {:induction false} DivideCutsLines(encoded: string, name: string, server: string)
    requires Divide(encoded, name, server).Ok?
    ensures var lines, closure := BodyLines(encoded, name), encoded[LastMarker(encoded, |encoded|).value + 1..];
      && encoded == Prefix(name) + (JoinLines(lines) + "\n" + closure)
      && Divide(encoded, name, server) ==
           Ok(Metadata(name, server, JoinLines(lines[..ParamStart(lines)]),
                       ParamsText(lines[ParamStart(lines)..], closure)))
  {
    hide *;
    DivideCutsText(encoded, name, server);
    DivideCutsBody(encoded, name, server);
  }

  lemma {:induction false} DivideCutsBody(encoded: string, name: string, server: string)
    requires Divide(encoded, name, server).Ok?
    ensures var lines, closure := BodyLines(encoded, name), encoded[LastMarker(encoded, |encoded|).value + 1..];
      var n := ParamStart(lines);
      Divide(encoded, name, server) ==
        Ok(Metadata(name, server, JoinLines(lines[..n]), ParamsText(lines[n..], closure)))
  {
    hide SplitLines, JoinLines, ParamStart, ParamsText, LastMarker, Marker, Prefix;
  }

  lemma {:induction false} DivideCutsText(encoded: string, name: string, server: string)
    requires Divide(encoded, name, server).Ok?
    ensures var lines, closure := BodyLines(encoded, name), encoded[LastMarker(encoded, |encoded|).value + 1..];
      encoded == Prefix(name) + (JoinLines(lines) + "\n" + closure)
  {
    hide SplitLines, JoinLines, ParamStart, ParamsText, LastMarker;
    var at, p := LastMarker(encoded, |encoded|).value, |Prefix(name)|;
    JoinInvertsSplit(encoded[p..at]);
    assert encoded[at..at + |Marker()|][0] == '\n';
    CutInThree(encoded, p, at);
  }

  lemma {:induction false} CutInThree(s: string, p: nat, at: nat)
    requires p <= at < |s| && s[at] == '\n'
    ensures s == s[..p] + (s[p..at] + "\n" + s[at + 1..])
  {}

  lemma {:induction false} AllIndentedExactlyWhen(lines: seq<string>)
    ensures ParamStart(lines) == 0 <==> forall l <- lines :: "  " <= l
  {
    var n := ParamStart(lines);
    assert n > 0 ==> lines[n - 1] in lines;
  }

  lemma {:induction false} ReassembledText(name: string, server: string, lines: seq<string>, closure: string)
    requires lines != []
    ensures var n := ParamStart(lines);
      Reassemble(Metadata(name, server, JoinLines(lines[..n]), ParamsText(lines[n..], closure)))
        == Prefix(name) + ((if n == 0 then "\n" else "") + JoinLines(lines) + "\n" + closure)
  {
    hide JoinLines, ParamsText, Indented;
    var n := ParamStart(lines);
    BodyIsJoined(lines, n, closure);
    hide ParamStart;
    var d, p := JoinLines(lines[..n]), ParamsText(lines[n..], closure);
    assert name + ": " + d + "\n" + p == name + ": " + (d + "\n" + p);
  }

  /** A closure line is opened at position k. */
  ghost predicate OpensAt(s: string, k: nat) {
    k + 10 <= |s| && s[k..k + 10] == "\n[CLOSURE:"
  }

  ghost predicate IsLastOpening(s: string, k: nat) {
    OpensAt(s, k) && forall j: nat :: j > k ==> !OpensAt(s, j)
  }

  /** Each outcome exactly when: the header is missing, no closure line is opened or
      the text does not end with a bracket, the last one opens inside the header, or
      none of these. */
  lemma {:induction false} OutcomeExactlyWhen(encoded: string, name: string, server: string)
    ensures var outcome := Divide(encoded, name, server);
      && (outcome.NoHeader? <==> !(name + ": " <= encoded))
      && (outcome.NoClosure? <==> (
            && name + ": " <= encoded
            && ((forall k: nat :: !OpensAt(encoded, k)) || encoded[|encoded| - 1] != ']')))
      && (outcome.Panics? <==> (
            && name + ": " <= encoded && encoded[|encoded| - 1] == ']'
            && exists k: nat :: IsLastOpening(encoded, k) && k < |name| + 2))
  {
    var last := LastMarker(encoded, |encoded|);
    forall k: nat ensures OpensAt(encoded, k) <==> MarkerAt(encoded, k) && k < |encoded| {}
    hide OpensAt, MarkerAt, LastMarker, SplitLines, ParamStart, ParamsText;
    forall k: nat ensures IsLastOpening(encoded, k) <==> last == Some(k) {
      if last.Some? && k != last.value {
        assert OpensAt(encoded, last.value);
      }
    }
  }

  /** The fields reassemble to the compiled text exactly when some line of the
      body is not indented; otherwise a line break too many is put in. */
  lemma {:induction false} LosslessExactlyWhen(encoded: string, name: string, server: string)
    requires Divide(encoded, name, server).Ok?
    ensures var again := Reassemble(Divide(encoded, name, server).meta);
      (again == encoded <==> exists l <- BodyLines(encoded, name) :: !("  " <= l)) &&
      (again != encoded ==> again == Prefix(name) + "\n" + encoded[|Prefix(name)|..])
  {
    var lines, closure := BodyLines(encoded, name), encoded[LastMarker(encoded, |encoded|).value + 1..];
    DivideCutsLines(encoded, name, server);
    ReassembledText(name, server, lines, closure);
    AllIndentedExactlyWhen(lines);
    hide *;
    LineBreakTooMany(Prefix(name), JoinLines(lines), closure, ParamStart(lines) == 0);
  }

  /** The reassembled text, with one line break too many when there is no description. */
  lemma {:induction false} LineBreakTooMany(prefix: string, body: string, closure: string, tooMany: bool)
    ensures var text := prefix + (body + "\n" + closure);
      var again := prefix + ((if tooMany then "\n" else "") + body + "\n" + closure);
      (again == text <==> !tooMany) && (tooMany ==> again == prefix + "\n" + text[|prefix|..])
  {
    var tail := body + "\n" + closure;
    assert (prefix + tail)[|prefix|..] == tail;
    if tooMany {
      assert "\n" + body + "\n" + closure == "\n" + tail;
      assert |prefix + ("\n" + tail)| == |prefix + tail| + 1;
    } else {
      assert "" + body == body;
    }
  }

  ghost predicate AllIndented(lines: seq<string>) {
    forall l <- lines :: Indented(l) && IsLine(l)
  }

  /** A compiled text of the documented shape. */
  function Assemble(name: string, description: string, params: seq<string>, closure: string): string {
    Prefix(name) + description + "\n" + ParamsText(params, closure)
  }

  /** The closure line and what may follow it: opened, closed, and not opened again. */
  ghost predicate IsClosure(closure: string) {
    Marker() <= "\n" + closure && closure[|closure| - 1] == ']' && MarkerFree(closure)
  }

  lemma {:induction false} LastMarkerIsTheClosure(before: string, closure: string)
    requires IsClosure(closure)
    ensures LastMarker(before + "\n" + closure, |before| + 1 + |closure|) == Some(|before|)
  {
    var s := before + "\n" + closure;
    var opening := "\n" + closure;
    assert opening[..|Marker()|] == Marker();
    assert s[|before|..|before| + |Marker()|] == opening[..|Marker()|];
    assert MarkerAt(s, |before|);
    forall k: nat | |before| < k ensures !MarkerAt(s, k) {
      assert !MarkerAt(closure, k - |before| - 1);
      if k + |Marker()| <= |s| {
        assert s[k..k + |Marker()|] == closure[k - |before| - 1..k - |before| - 1 + |Marker()|];
      }
    }
  }

  lemma {:induction false} DivideFindsLines(name: string, server: string, lines: seq<string>, closure: string)
    requires lines != [] && (forall l <- lines :: IsLine(l)) && IsClosure(closure)
    ensures var n := ParamStart(lines);
      Divide(Prefix(name) + JoinLines(lines) + "\n" + closure, name, server)
        == Ok(Metadata(name, server, JoinLines(lines[..n]), ParamsText(lines[n..], closure)))
  {
    hide SplitLines, JoinLines, ParamStart, ParamsText, Marker, MarkerAt;
    var body, p := JoinLines(lines), |Prefix(name)|;
    var encoded := Prefix(name) + body + "\n" + closure;
    LastMarkerIsTheClosure(Prefix(name) + body, closure);
    assert encoded[p..p + |body|] == body;
    assert encoded[p + |body| + 1..] == closure;
    assert encoded[|encoded| - 1] == closure[|closure| - 1];
    SplitInvertsJoin(lines);
  }

  /** Splitting undoes assembling: whatever the name, a description whose last
      line is not indented, indented parameter lines and a closure line are
      given back. */
  lemma {:induction false} SplitInvertsAssemble(name: string, server: string, description: string,
                                                params: seq<string>, closure: string)
    requires AllIndented(params) && IsClosure(closure)
    requires var lines := SplitLines(description); !Indented(lines[|lines| - 1])
    ensures Divide(Assemble(name, description, params, closure), name, server)
         == Ok(Metadata(name, server, description, ParamsText(params, closure)))
  {
    hide SplitLines, ParamStart, Marker, MarkerAt, MarkerFree, Divide;
    var first := SplitLines(description);
    var lines := first + params;
    JoinInvertsSplit(description);
    SplitGivesLines(description);
    ParamStartIsUnique(lines, |first|);
    assert lines[..|first|] == first && lines[|first|..] == params;
    BodyIsJoined(lines, |first|, closure);
    var text := description + "\n" + ParamsText(params, closure);
    assert Assemble(name, description, params, closure) == Prefix(name) + text;
    DivideFindsLines(name, server, lines, closure);
    hide *;
    assert "" + JoinLines(lines) == JoinLines(lines);
    assert Prefix(name) + (JoinLines(lines) + "\n" + closure) == Prefix(name) + JoinLines(lines) + "\n" + closure;
  }

  /** A body of indented lines alone is split, but does not reassemble. */
  lemma {:induction false} IndentedBodyIsLossy(name: string, server: string, params: seq<string>, closure: string)
    requires params != [] && AllIndented(params) && IsClosure(closure)
    ensures var encoded := Prefix(name) + JoinLines(params) + "\n" + closure;
      Divide(encoded, name, server).Ok? && Reassemble(Divide(encoded, name, server).meta) != encoded
  {
    assert ParamStart(params) == 0 by { AllIndentedExactlyWhen(params); }
    hide *;
    AllIndentedAreLines(params);
    DivideFindsLines(name, server, params, closure);
    ReassembledText(name, server, params, closure);
    LineBreakTooMany(Prefix(name), JoinLines(params), closure, true);
    assert Prefix(name) + (JoinLines(params) + "\n" + closure) == Prefix(name) + JoinLines(params) + "\n" + closure;
  }

  lemma {:induction false} AllIndentedAreLines(lines: seq<string>)
    requires AllIndented(lines)
    ensures forall l <- lines :: IsLine(l)
  {}

  lemma {:induction false} ShortClosure()
    ensures IsClosure("[CLOSURE:n()]")
  {
    assert forall k: nat :: k < 13 ==> "[CLOSURE:n()]"[k] != '\n';
    forall k: nat ensures !MarkerAt("[CLOSURE:n()]", k) {
      if k + 10 <= 13 {
        assert "[CLOSURE:n()]"[k..k + 10][0] == "[CLOSURE:n()]"[k];
      }
    }
    assert ("\n" + "[CLOSURE:n()]")[..10] == "\n[CLOSURE:";
  }

  /** A tool without a description is such a case. */
  lemma {:induction false} SomeTextIsLossy(server: string)
    ensures var encoded := "n:   p\n[CLOSURE:n()]";
      Divide(encoded, "n", server).Ok? && Reassemble(Divide(encoded, "n", server).meta) != encoded
  {
    hide Divide, Reassemble, IsClosure, SplitLines, Marker;
    ShortClosure();
    assert JoinLines(["  p"]) == "  p" && AllIndented(["  p"]);
    IndentedBodyIsLossy("n", server, ["  p"], "[CLOSURE:n()]");
    assert Prefix("n") + "  p" + "\n" + "[CLOSURE:n()]" == "n:   p\n[CLOSURE:n()]";
  }

  lemma {:induction false} MarkerStaysBeforeTheBlank(name: string, rest: string, k: nat)
    requires MarkerAt(Prefix(name) + rest, k) && k < |Prefix(name)|
    ensures MarkerAt(name + ":", k)
  {
    var s, n := Prefix(name) + rest, |Marker()|;
    assert s[|name| + 1] == ' ' && s[k..k + n] == Marker();
    hide Marker, Prefix;
    assert forall i :: k <= i < k + n ==> s[i] == s[k..k + n][i - k];
    assert forall i :: k <= i < k + n ==> s[i] != ' ';
    assert k + n <= |name| + 1;
    assert (name + ":")[k..k + n] == s[k..k + n];
  }

  /** Some text makes the split panic exactly when the name followed by a colon
      holds the closure marker. */
  lemma {:induction false} PanicsExactlyForSuchNames(name: string, server: string)
    ensures (exists encoded :: Divide(encoded, name, server) == Panics) <==> !MarkerFree(name + ":")
  {
    if encoded :| Divide(encoded, name, server) == Panics {
      var k := LastMarker(encoded, |encoded|).value;
      assert encoded == Prefix(name) + encoded[|Prefix(name)|..];
      MarkerStaysBeforeTheBlank(name, encoded[|Prefix(name)|..], k);
    }
    if k: nat :| MarkerAt(name + ":", k) {
      var encoded := Prefix(name) + "]";
      assert encoded[k..k + |Marker()|] == (name + ":")[k..k + |Marker()|];
      assert MarkerAt(encoded, k);
      var last := LastMarker(encoded, |encoded|).value;
      if last >= |Prefix(name)| {
        assert false;
      }
      assert Divide(encoded, name, server) == Panics;
    }
  }
}
