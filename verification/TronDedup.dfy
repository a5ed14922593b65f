/** The class-dedup listing of bench/arms/tron.go. Each distinct canonical schema
    is declared once as a class and the tools refer to it by a name hashed from
    its text. The hash is an arbitrary function, so collisions are possible. */
module TronDedup {
  import opened Strings
  import Json = CanonicalJson

  datatype Error = BadSchema(toolId: string) | Collision(className: string, toolId: string)

  datatype Result<T> = Ok(value: T) | Err(error: Error)

  datatype Tool = Tool(toolId: string, server: string, name: string, description: string, schema: string)

  datatype Metadata = Metadata(name: string, server: string, description: string, paramsJson: string)

  type Digest = string -> string

  /** A listing before it is joined into text. */
  datatype Class = Class(name: string, body: string)
  datatype Entry = Entry(name: string, description: string, class_: Option<string>)
  datatype Listing = Listing(classes: seq<Class>, entries: seq<Entry>)

  const SEPARATOR: string := "\n\n"

  function Canon(t: Tool): Option<string> {
    var c := Json.Canonical(t.schema);
    if c.None? then None else Some(c.value)
  }

  predicate HasSchema(t: Tool) {
    t.schema != ""
  }

  /** `EncodeTool`: the form of one tool that shares nothing. */
  function EncodeTool(t: Tool): Result<string> {
    if !HasSchema(t) then Ok(t.name + "|" + t.description)
    else if Canon(t).None? then Err(BadSchema(t.toolId))
    else Ok(t.name + "|" + t.description + "|" + Canon(t).value)
  }

  /** `EncodeIndexMetadata` */
  function EncodeIndexMetadata(t: Tool, digest: Digest): Result<Metadata> {
    if !HasSchema(t) then Ok(Metadata(t.name, t.server, t.description, ""))
    else if Canon(t).None? then Err(BadSchema(t.toolId))
    else Ok(Metadata(t.name, t.server, t.description, Reference(digest(Canon(t).value))))
  }

  function Reference(className: string): string {
    "{\"$class\":\"" + className + "\"}"
  }

  // ----- what a listing is -----

  predicate Readable(t: Tool) {
    HasSchema(t) ==> Canon(t).Some?
  }

  /** Two tools whose different canonical schemas hash to one class name. */
  predicate Clash(t: Tool, u: Tool, digest: Digest) {
    HasSchema(t) && HasSchema(u) && Canon(t).Some? && Canon(u).Some? &&
    Canon(t) != Canon(u) && digest(Canon(t).value) == digest(Canon(u).value)
  }

  predicate Encodable(ts: seq<Tool>, digest: Digest) {
    (forall t <- ts :: Readable(t)) && (forall t <- ts, u <- ts :: !Clash(t, u, digest))
  }

  /** The canonical schemas, each once, in the order in which they first appear. */
  function Bodies(ts: seq<Tool>): seq<string> {
    if ts == [] then []
    else
      var before, t := Bodies(ts[..|ts| - 1]), ts[|ts| - 1];
      if HasSchema(t) && Canon(t).Some? && Canon(t).value !in before then before + [Canon(t).value] else before
  }

  function EntryOf(t: Tool, digest: Digest): Entry {
    Entry(t.name, t.description, if HasSchema(t) && Canon(t).Some? then Some(digest(Canon(t).value)) else None)
  }

  function ListingOf(ts: seq<Tool>, digest: Digest): (r: Listing)
    ensures |r.classes| == |Bodies(ts)| && |r.entries| == |ts|
  {
    var bodies := Bodies(ts);
    Listing(
      seq(|bodies|, i requires 0 <= i < |bodies| => Class(digest(bodies[i]), bodies[i])),
      seq(|ts|, i requires 0 <= i < |ts| => EntryOf(ts[i], digest)))
  }

  function ClassText(c: Class): string {
    "class " + c.name + " = " + c.body
  }

  function EntryText(e: Entry): string {
    e.name + "|" + e.description + if e.class_.None? then "" else "|" + e.class_.value
  }

  function ClassTexts(classes: seq<Class>): (r: seq<string>)
    ensures |r| == |classes| && forall i :: 0 <= i < |r| ==> r[i] == ClassText(classes[i])
  {
    if classes == [] then [] else ClassTexts(classes[..|classes| - 1]) + [ClassText(classes[|classes| - 1])]
  }

  function EntryTexts(entries: seq<Entry>): (r: seq<string>)
    ensures |r| == |entries| && forall i :: 0 <= i < |r| ==> r[i] == EntryText(entries[i])
  {
    if entries == [] then [] else EntryTexts(entries[..|entries| - 1]) + [EntryText(entries[|entries| - 1])]
  }

  function Text(listing: Listing): string {
    var tools := Join(EntryTexts(listing.entries), SEPARATOR);
    if listing.classes == [] then tools
    else Join(ClassTexts(listing.classes), "\n") + SEPARATOR + tools
  }

  /** What is wrong with the last tool, the ones before it being encodable. */
  predicate FailsAt(ts: seq<Tool>, i: nat, digest: Digest, error: Error)
    requires i < |ts|
  {
    Encodable(ts[..i], digest) &&
    if !Readable(ts[i]) then error == BadSchema(ts[i].toolId)
    else
      HasSchema(ts[i]) && error == Collision(digest(Canon(ts[i]).value), ts[i].toolId) &&
      exists u <- ts[..i] :: Clash(u, ts[i], digest)
  }

  /** Every body is some tool's, every tool's schema is among the bodies, and no
      body stands twice. */
  lemma {:induction false} BodiesAreTheSchemas(ts: seq<Tool>)
    ensures forall t <- ts :: HasSchema(t) && Canon(t).Some? ==> Canon(t).value in Bodies(ts)
    ensures forall b <- Bodies(ts) :: exists t <- ts :: HasSchema(t) && Canon(t) == Some(b)
    ensures forall i, j :: 0 <= i < j < |Bodies(ts)| ==> Bodies(ts)[i] != Bodies(ts)[j]
  {
    if ts != [] {
      var init, last := ts[..|ts| - 1], ts[|ts| - 1];
      BodiesAreTheSchemas(init);
      assert ts == init + [last];
      forall b | b in Bodies(ts) ensures exists t <- ts :: HasSchema(t) && Canon(t) == Some(b) {
        if b in Bodies(init) {
          var t :| t in init && HasSchema(t) && Canon(t) == Some(b);
          assert t in ts;
        } else {
          assert last in ts && HasSchema(last) && Canon(last) == Some(b);
        }
      }
    }
  }

  ghost predicate Tracks(ts: seq<Tool>, digest: Digest, classOrder: seq<string>, classBody: map<string, string>) {
    && |classOrder| == |Bodies(ts)|
    && (forall i :: 0 <= i < |classOrder| ==> classOrder[i] == digest(Bodies(ts)[i]))
    && (forall b <- Bodies(ts) :: digest(b) in classBody && classBody[digest(b)] == b)
    && (forall n <- classBody :: classBody[n] in Bodies(ts) && digest(classBody[n]) == n)
  }

  lemma {:induction false} EncodablePrefix(ts: seq<Tool>, t: Tool, digest: Digest)
    requires Encodable(ts, digest)
    ensures Encodable(ts + [t], digest) <==> Readable(t) && forall u <- ts :: !Clash(u, t, digest)
  {
    assert t in ts + [t];
    forall u | u in ts ensures u in ts + [t] {}
  }

  /** A name that is not taken belongs to a new schema, and a name that is taken
      by another schema is a clash with an earlier tool. */
  lemma {:induction false} LookupDecides(ts: seq<Tool>, t: Tool, digest: Digest,
                                         classOrder: seq<string>, classBody: map<string, string>)
    requires Encodable(ts, digest) && Tracks(ts, digest, classOrder, classBody) && HasSchema(t) && Canon(t).Some?
    ensures var n := digest(Canon(t).value);
      && (n !in classBody ==> Canon(t).value !in Bodies(ts) && Encodable(ts + [t], digest))
      && (n in classBody && classBody[n] == Canon(t).value ==>
            Canon(t).value in Bodies(ts) && Encodable(ts + [t], digest))
      && (n in classBody && classBody[n] != Canon(t).value ==> exists u <- ts :: Clash(u, t, digest))
  {
    var c := Canon(t).value;
    var n := digest(c);
    BodiesAreTheSchemas(ts);
    EncodablePrefix(ts, t, digest);
    if n in classBody {
      assert classBody[n] in Bodies(ts);
      var u :| u in ts && HasSchema(u) && Canon(u) == Some(classBody[n]);
      assert classBody[n] != c ==> Clash(u, t, digest);
    }
    forall u | u in ts && Clash(u, t, digest) ensures n in classBody && classBody[n] != c {
      assert Canon(u).value in Bodies(ts);
    }
  }

  lemma {:induction false} TracksAsBefore(ts: seq<Tool>, t: Tool, digest: Digest,
                                          classOrder: seq<string>, classBody: map<string, string>)
    requires Tracks(ts, digest, classOrder, classBody)
    requires HasSchema(t) && Canon(t).Some? ==> Canon(t).value in Bodies(ts)
    ensures Tracks(ts + [t], digest, classOrder, classBody)
  {
    assert (ts + [t])[..|ts|] == ts;
  }

  lemma {:induction false} TracksOneMore(ts: seq<Tool>, t: Tool, digest: Digest,
                                         classOrder: seq<string>, classBody: map<string, string>)
    requires Tracks(ts, digest, classOrder, classBody) && HasSchema(t) && Canon(t).Some?
    requires digest(Canon(t).value) !in classBody && Canon(t).value !in Bodies(ts)
    ensures var n := digest(Canon(t).value);
      Tracks(ts + [t], digest, classOrder + [n], classBody[n := Canon(t).value])
  {
    assert (ts + [t])[..|ts|] == ts;
    hide Canon;
  }

  lemma {:induction false} TracksNothing(digest: Digest)
    ensures Encodable([], digest) && Tracks([], digest, [], map[])
  {}

  lemma {:induction false} NoSchemaNoClash(ts: seq<Tool>, t: Tool, digest: Digest)
    requires Encodable(ts, digest) && !HasSchema(t)
    ensures Encodable(ts + [t], digest)
  {
    EncodablePrefix(ts, t, digest);
  }

  lemma {:induction false} TracksAll(ts: seq<Tool>, digest: Digest,
                                     classOrder: seq<string>, classBody: map<string, string>)
    requires Tracks(ts, digest, classOrder, classBody)
    ensures |ListingOf(ts, digest).classes| == |classOrder|
  {}

  lemma {:induction false} TracksGivesClass(ts: seq<Tool>, digest: Digest,
                                            classOrder: seq<string>, classBody: map<string, string>, k: nat)
    requires Tracks(ts, digest, classOrder, classBody) && k < |classOrder|
    ensures k < |ListingOf(ts, digest).classes| && classOrder[k] in classBody
    ensures "class " + classOrder[k] + " = " + classBody[classOrder[k]] == ClassText(ListingOf(ts, digest).classes[k])
  {
    assert Bodies(ts)[k] in Bodies(ts);
  }

  // ----- reading the text back -----

  predicate IsLine(s: string) {
    '\n' !in s
  }

  /** No line break in names, descriptions and class names. */
  ghost predicate OnOneLine(ts: seq<Tool>, digest: Digest) {
    forall t <- ts ::
      IsLine(t.name) && IsLine(t.description) && (HasSchema(t) && Canon(t).Some? ==> IsLine(digest(Canon(t).value)))
  }

  /** One line for each distinct canonical schema, in order. */
  ghost predicate DeclaresSchemas(lines: seq<string>, ts: seq<Tool>, digest: Digest) {
    && |lines| == |Bodies(ts)|
    && forall i | 0 <= i < |lines| :: lines[i] == "class " + digest(Bodies(ts)[i]) + " = " + Bodies(ts)[i]
  }

  ghost predicate Declares(lines: seq<string>, name: string, body: string) {
    "class " + name + " = " + body in lines
  }

  /** The part is the tool's own form, with the class declared on some line in
      the place of its body. */
  ghost predicate StandsFor(part: string, t: Tool, lines: seq<string>) {
    if t.schema == "" then part == t.name + "|" + t.description && EncodeTool(t) == Ok(part)
    else
      exists name, body ::
        && part == t.name + "|" + t.description + "|" + name
        && Declares(lines, name, body)
        && EncodeTool(t) == Ok(t.name + "|" + t.description + "|" + body)
  }

  /** Split at blank lines, the text is the block of class lines, if some tool has
      a schema, and then one part per tool in order. */
  ghost predicate ReadsBack(text: string, ts: seq<Tool>, digest: Digest) {
    var parts := Split(text, "\n\n");
    if ts == [] then text == ""
    else if forall t <- ts :: t.schema == "" then
      |parts| == |ts| && forall k | 0 <= k < |ts| :: StandsFor(parts[k], ts[k], [])
    else
      var lines := Split(parts[0], "\n");
      && |parts| == 1 + |ts| && DeclaresSchemas(lines, ts, digest)
      && forall k | 0 <= k < |ts| :: StandsFor(parts[1 + k], ts[k], lines)
  }

  /** Lines joined with line breaks hold no blank line. */
  lemma {:induction false} LinesArePart(lines: seq<string>)
    requires lines != [] && forall l <- lines :: l != "" && IsLine(l)
    ensures IsPart(Join(lines, "\n"), "\n\n")
    ensures Join(lines, "\n") != "" && Join(lines, "\n")[0] != '\n'
  {
    hide IsPart;
    assert lines[0] in lines && lines[0][0] in lines[0];
    assert forall l <- lines[1..] :: l in lines;
    if |lines| == 1 {
      OtherCharsArePart(lines[0], "\n\n");
    } else {
      LinesArePart(lines[1..]);
      LineBeforePart(lines[0], Join(lines[1..], "\n"));
    }
  }

  lemma {:induction false} LineBeforePart(line: string, rest: string)
    requires IsLine(line) && IsPart(rest, "\n\n") && rest != "" && rest[0] != '\n'
    ensures IsPart(line + "\n" + rest, "\n\n")
  {
    var all := line + "\n" + rest;
    forall k | 0 <= k < |all| ensures !("\n\n" <= (all + "\n\n")[k..]) {
      var from := (all + "\n\n")[k..];
      if k < |line| {
        assert from[0] == line[k] && line[k] in line;
      } else if k == |line| {
        assert from[1] == rest[0];
      } else {
        assert from == (rest + "\n\n")[k - |line| - 1..];
      }
    }
  }

  lemma {:induction false} EntriesAreLines(ts: seq<Tool>, digest: Digest)
    requires OnOneLine(ts, digest)
    ensures forall e <- EntryTexts(ListingOf(ts, digest).entries) :: IsLine(e)
  {
    hide Canon;
    var texts := EntryTexts(ListingOf(ts, digest).entries);
    forall e | e in texts ensures IsLine(e) {
      var k :| 0 <= k < |texts| && texts[k] == e;
      assert ts[k] in ts && e == EntryText(EntryOf(ts[k], digest));
    }
  }

  lemma {:induction false} CanonIsLine(t: Tool)
    requires Canon(t).Some?
    ensures IsLine(Canon(t).value)
  {
    Json.CanonicalIsOneLine(t.schema);
  }

  lemma {:induction false} ClassesAreLines(ts: seq<Tool>, digest: Digest)
    requires OnOneLine(ts, digest)
    ensures forall c <- ClassTexts(ListingOf(ts, digest).classes) :: c != "" && IsLine(c)
  {
    var texts, bodies := ClassTexts(ListingOf(ts, digest).classes), Bodies(ts);
    BodiesAreTheSchemas(ts);
    hide Canon, Bodies, Json.Canonical;
    forall c | c in texts ensures c != "" && IsLine(c) {
      var i :| 0 <= i < |texts| && texts[i] == c;
      assert bodies[i] in bodies;
      var t :| t in ts && HasSchema(t) && Canon(t) == Some(bodies[i]);
      CanonIsLine(t);
      assert IsLine(bodies[i]) && IsLine(digest(bodies[i]));
      assert c == "class " + digest(bodies[i]) + " = " + bodies[i];
    }
  }

  lemma {:induction false} EntriesSplit(entries: seq<string>)
    requires entries != [] && forall e <- entries :: IsLine(e)
    ensures Split(Join(entries, "\n\n"), "\n\n") == entries
  {
    forall e | e in entries ensures IsPart(e, "\n\n") {
      OtherCharsArePart(e, "\n\n");
    }
    SplitInvertsJoin(entries, "\n\n");
  }

  lemma {:induction false} LinesSplit(lines: seq<string>)
    requires lines != [] && forall l <- lines :: IsLine(l)
    ensures Split(Join(lines, "\n"), "\n") == lines
  {
    forall l | l in lines ensures IsPart(l, "\n") {
      OtherCharsArePart(l, "\n");
    }
    SplitInvertsJoin(lines, "\n");
  }

  lemma {:induction false} NoSchemaNoBody(ts: seq<Tool>)
    ensures (forall t <- ts :: Readable(t)) ==> (Bodies(ts) == [] <==> forall t <- ts :: t.schema == "")
  {
    BodiesAreTheSchemas(ts);
    if Bodies(ts) != [] {
      assert Bodies(ts)[0] in Bodies(ts);
    }
  }

  lemma {:induction false} EntryStandsForTool(ts: seq<Tool>, digest: Digest, k: nat)
    requires Encodable(ts, digest) && k < |ts|
    ensures StandsFor(EntryText(EntryOf(ts[k], digest)), ts[k], ClassTexts(ListingOf(ts, digest).classes))
  {
    hide Canon, Bodies;
    var t := ts[k];
    assert t in ts && Readable(t);
    if HasSchema(t) {
      var body := Canon(t).value;
      SchemaIsDeclared(ts, digest, t);
      hide *;
      EntryWithReference(t, digest);
      ReferenceStandsFor(t, digest(body), body, ClassTexts(ListingOf(ts, digest).classes));
    }
  }

  lemma {:induction false} EntryWithReference(t: Tool, digest: Digest)
    requires HasSchema(t) && Canon(t).Some?
    ensures EntryText(EntryOf(t, digest)) == t.name + "|" + t.description + "|" + digest(Canon(t).value)
  {
    hide Canon;
  }

  lemma {:induction false} SchemaIsDeclared(ts: seq<Tool>, digest: Digest, t: Tool)
    requires t in ts && HasSchema(t) && Canon(t).Some?
    ensures Declares(ClassTexts(ListingOf(ts, digest).classes), digest(Canon(t).value), Canon(t).value)
  {
    hide Canon;
    BodiesAreTheSchemas(ts);
    hide Bodies;
    var classes, body := ClassTexts(ListingOf(ts, digest).classes), Canon(t).value;
    var i: nat :| i < |Bodies(ts)| && Bodies(ts)[i] == body;
    assert classes[i] == "class " + digest(body) + " = " + body;
  }

  lemma {:induction false} ReferenceStandsFor(t: Tool, name: string, body: string, lines: seq<string>)
    requires HasSchema(t) && Canon(t) == Some(body) && Declares(lines, name, body)
    ensures StandsFor(t.name + "|" + t.description + "|" + name, t, lines)
  {
    hide Canon;
  }

  /** The text gives back every tool, whatever the tools and the hash. */
  lemma {:induction false} TextReadsBack(ts: seq<Tool>, digest: Digest)
    requires Encodable(ts, digest) && OnOneLine(ts, digest)
    ensures ReadsBack(Text(ListingOf(ts, digest)), ts, digest)
  {
    var listing := ListingOf(ts, digest);
    var classes, entries := ClassTexts(listing.classes), EntryTexts(listing.entries);
    EntriesAreLines(ts, digest);
    ClassesAreLines(ts, digest);
    EntriesStandForTools(ts, digest);
    ClassesDeclareSchemas(ts, digest);
    assert forall t <- ts :: Readable(t);
    NoSchemaNoBody(ts);
    hide *;
    if ts != [] {
      JoinedPartsReadBack(classes, entries, ts, digest);
    }
  }

  lemma {:induction false} ClassesDeclareSchemas(ts: seq<Tool>, digest: Digest)
    ensures DeclaresSchemas(ClassTexts(ListingOf(ts, digest).classes), ts, digest)
  {
    hide Bodies;
  }

  lemma {:induction false} JoinedPartsReadBack(classes: seq<string>, entries: seq<string>, ts: seq<Tool>,
                                               digest: Digest)
    requires ts != [] && |entries| == |ts| && (classes == [] <==> forall t <- ts :: t.schema == "")
    requires (forall c <- classes :: c != "" && IsLine(c)) && (forall e <- entries :: IsLine(e))
    requires DeclaresSchemas(classes, ts, digest) && forall k | 0 <= k < |ts| :: StandsFor(entries[k], ts[k], classes)
    ensures ReadsBack(if classes == [] then Join(entries, "\n\n")
                      else Join(classes, "\n") + "\n\n" + Join(entries, "\n\n"), ts, digest)
  {
    hide StandsFor, Join, Split, IsLine, DeclaresSchemas;
    if classes == [] {
      EntriesSplit(entries);
    } else {
      BlockSplits(classes, entries);
    }
  }

  lemma {:induction false} EntriesStandForTools(ts: seq<Tool>, digest: Digest)
    requires Encodable(ts, digest)
    ensures var listing := ListingOf(ts, digest);
      forall k | 0 <= k < |ts| :: StandsFor(EntryTexts(listing.entries)[k], ts[k], ClassTexts(listing.classes))
  {
    hide StandsFor, Encodable, EntryText, EntryOf, ClassTexts, Bodies;
    forall k | 0 <= k < |ts|
      ensures StandsFor(EntryTexts(ListingOf(ts, digest).entries)[k], ts[k], ClassTexts(ListingOf(ts, digest).classes))
    {
      EntryStandsForTool(ts, digest, k);
    }
  }

  lemma {:induction false} BlockSplits(classes: seq<string>, entries: seq<string>)
    requires classes != [] && forall c <- classes :: c != "" && IsLine(c)
    requires entries != [] && forall e <- entries :: IsLine(e)
    ensures var block := Join(classes, "\n");
      && Split(block + "\n\n" + Join(entries, "\n\n"), "\n\n") == [block] + entries
      && Split(block, "\n") == classes
  {
    hide *;
    LinesArePart(classes);
    EntriesSplit(entries);
    SplitAfterPart(Join(classes, "\n"), "\n\n", Join(entries, "\n\n"));
    LinesSplit(classes);
  }

  /** `EncodeListing`: it succeeds exactly on encodable tools, and otherwise
      reports the first tool that cannot be added. */
  method EncodeListing(ts: seq<Tool>, digest: Digest) returns (result: Result<string>)
    ensures result.Ok? <==> Encodable(ts, digest)
    ensures result.Ok? ==> result.value == Text(ListingOf(ts, digest))
    ensures result.Ok? && OnOneLine(ts, digest) ==> ReadsBack(result.value, ts, digest)
    ensures result.Err? ==> exists i: nat :: i < |ts| && FailsAt(ts, i, digest, result.error)
  {
    var classOrder: seq<string> := [];
    var classBody: map<string, string> := map[];
    var entries: seq<string> := [];
    hide Canon, Clash, Tracks, Bodies, Join, ClassText, Encodable, ReadsBack, OnOneLine;
    TracksNothing(digest);
    assert ts[..0] == [];
    for k := 0 to |ts|
      invariant Encodable(ts[..k], digest)
      invariant Tracks(ts[..k], digest, classOrder, classBody)
      invariant |entries| == k && forall i :: 0 <= i < k ==> entries[i] == EntryText(EntryOf(ts[i], digest))
    {
      var t := ts[k];
      ghost var before := ts[..k];
      assert ts[..k + 1] == before + [t] && (before + [t])[..k] == before;
      var entry := t.name + "|" + t.description;
      EncodablePrefix(before, t, digest);
      if HasSchema(t) {
        var canon := Canon(t);
        if canon.None? {
          NotEncodable(ts, k, digest);
          assert FailsAt(ts, k, digest, BadSchema(t.toolId));
          return Err(BadSchema(t.toolId));
        }
        var name := digest(canon.value);
        LookupDecides(before, t, digest, classOrder, classBody);
        if name in classBody {
          if classBody[name] != canon.value {
            NotEncodable(ts, k, digest);
            assert FailsAt(ts, k, digest, Collision(name, t.toolId));
            return Err(Collision(name, t.toolId));
          }
          TracksAsBefore(before, t, digest, classOrder, classBody);
        } else {
          TracksOneMore(before, t, digest, classOrder, classBody);
          classBody := classBody[name := canon.value];
          classOrder := classOrder + [name];
        }
        entry := entry + "|" + name;
      } else {
        NoSchemaNoClash(before, t, digest);
        TracksAsBefore(before, t, digest, classOrder, classBody);
      }
      entries := entries + [entry];
    }
    assert ts[..|ts|] == ts;
    ghost var listing := ListingOf(ts, digest);
    if OnOneLine(ts, digest) {
      TextReadsBack(ts, digest);
    }
    assert entries == EntryTexts(listing.entries);
    var tools := Join(entries, SEPARATOR);
    TracksAll(ts, digest, classOrder, classBody);
    if |classOrder| == 0 {
      return Ok(tools);
    }
    var preamble := ClassLines(ts, digest, classOrder, classBody);
    return Ok(Join(preamble, "\n") + SEPARATOR + tools);
  }

  /** The loop that writes the preamble. */
  method ClassLines(ghost ts: seq<Tool>, ghost digest: Digest, classOrder: seq<string>, classBody: map<string, string>)
      returns (preamble: seq<string>)
    requires Tracks(ts, digest, classOrder, classBody)
    ensures preamble == ClassTexts(ListingOf(ts, digest).classes)
  {
    hide Bodies, ClassText, Canon;
    ghost var listing := ListingOf(ts, digest);
    preamble := [];
    for k := 0 to |classOrder|
      invariant |preamble| == k <= |listing.classes|
      invariant forall i :: 0 <= i < k ==> preamble[i] == ClassText(listing.classes[i])
    {
      TracksGivesClass(ts, digest, classOrder, classBody, k);
      preamble := preamble + ["class " + classOrder[k] + " = " + classBody[classOrder[k]]];
    }
    TracksAll(ts, digest, classOrder, classBody);
  }

  lemma {:induction false} NotEncodable(ts: seq<Tool>, k: nat, digest: Digest)
    requires k < |ts| && !Encodable(ts[..k + 1], digest)
    ensures !Encodable(ts, digest)
  {
    forall t | t in ts[..k + 1] ensures t in ts {}
  }

  // ----- what a listing means -----

  /** The body of the first class with the name. */
  function LookUp(classes: seq<Class>, name: string): Option<string> {
    if classes == [] then None
    else if classes[0].name == name then Some(classes[0].body)
    else LookUp(classes[1..], name)
  }

  /** An entry with its class reference replaced by the declared body. */
  function Expand(listing: Listing, e: Entry): Option<string> {
    if e.class_.None? then Some(e.name + "|" + e.description)
    else
      var body := LookUp(listing.classes, e.class_.value);
      if body.None? then None else Some(e.name + "|" + e.description + "|" + body.value)
  }

  lemma {:induction false} LookUpFinds(classes: seq<Class>, k: nat)
    requires k < |classes| && forall i, j :: 0 <= i < j < |classes| ==> classes[i].name != classes[j].name
    ensures LookUp(classes, classes[k].name) == Some(classes[k].body)
  {
    if k > 0 {
      assert classes[1..][k - 1] == classes[k];
      LookUpFinds(classes[1..], k - 1);
    }
  }

  /** Every class is declared once: its name and its body stand nowhere else. */
  lemma {:induction false} ClassesAreDeclaredOnce(ts: seq<Tool>, digest: Digest)
    requires Encodable(ts, digest)
    ensures var cs := ListingOf(ts, digest).classes;
      forall i, j :: 0 <= i < j < |cs| ==> cs[i].name != cs[j].name && cs[i].body != cs[j].body
  {
    BodiesAreTheSchemas(ts);
    var cs, bodies := ListingOf(ts, digest).classes, Bodies(ts);
    forall i, j | 0 <= i < j < |cs| ensures cs[i].name != cs[j].name && cs[i].body != cs[j].body {
      assert bodies[i] in bodies && bodies[j] in bodies;
      var t :| t in ts && HasSchema(t) && Canon(t) == Some(bodies[i]);
      var u :| u in ts && HasSchema(u) && Canon(u) == Some(bodies[j]);
      assert !Clash(t, u, digest);
    }
  }

  lemma {:induction false} ClassOfTool(ts: seq<Tool>, digest: Digest, k: nat)
    requires Encodable(ts, digest) && k < |ts| && HasSchema(ts[k])
    ensures Canon(ts[k]).Some?
    ensures Class(digest(Canon(ts[k]).value), Canon(ts[k]).value) in ListingOf(ts, digest).classes
    ensures LookUp(ListingOf(ts, digest).classes, digest(Canon(ts[k]).value)) == Some(Canon(ts[k]).value)
  {
    assert ts[k] in ts && Readable(ts[k]);
    BodiesAreTheSchemas(ts);
    ClassesAreDeclaredOnce(ts, digest);
    var i: nat :| i < |Bodies(ts)| && Bodies(ts)[i] == Canon(ts[k]).value;
    var cs := ListingOf(ts, digest).classes;
    assert cs[i] == Class(digest(Bodies(ts)[i]), Bodies(ts)[i]);
    LookUpFinds(cs, i);
  }

  /** Expanding the class references gives every tool back in its own form. */
  lemma {:induction false} ExpandingGivesTheTools(ts: seq<Tool>, digest: Digest, k: nat)
    requires Encodable(ts, digest) && k < |ts|
    ensures var listing := ListingOf(ts, digest);
      EncodeTool(ts[k]).Ok? && Expand(listing, listing.entries[k]) == Some(EncodeTool(ts[k]).value)
  {
    assert ts[k] in ts && Readable(ts[k]);
    if HasSchema(ts[k]) {
      ClassOfTool(ts, digest, k);
    }
  }

  /** Two tools refer to one class exactly when their schemas denote one value. */
  lemma {:induction false} ClassIsSharedExactlyBySameSchema(ts: seq<Tool>, digest: Digest, i: nat, j: nat)
    requires Encodable(ts, digest) && i < |ts| && j < |ts| && HasSchema(ts[i]) && HasSchema(ts[j])
    ensures var es, v, w := ListingOf(ts, digest).entries, Json.DecodeText(ts[i].schema), Json.DecodeText(ts[j].schema);
      && es[i].class_.Some? && es[j].class_.Some? && v.Some? && w.Some?
      && (es[i].class_ == es[j].class_ <==> Json.Same(v.value, w.value))
  {
    assert ts[i] in ts && Readable(ts[i]) && ts[j] in ts && Readable(ts[j]) && !Clash(ts[i], ts[j], digest);
    Json.SameBytesExactlyWhenSameValue(ts[i].schema, ts[j].schema);
  }

  /** The classes stand in the order in which their schemas first appear. */
  lemma {:induction false} ClassesFollowFirstAppearance(ts: seq<Tool>, digest: Digest, i: nat, j: nat, q: nat)
    requires i < j < |Bodies(ts)| && q < |ts| && HasSchema(ts[q]) && Canon(ts[q]) == Some(Bodies(ts)[j])
    ensures exists p: nat :: p < q && HasSchema(ts[p]) && Canon(ts[p]) == Some(Bodies(ts)[i])
  {
    var init := ts[..|ts| - 1];
    if q < |init| && j < |Bodies(init)| {
      ClassesFollowFirstAppearance(init, digest, i, j, q);
      var p: nat :| p < q && HasSchema(init[p]) && Canon(init[p]) == Some(Bodies(init)[i]);
      assert ts[p] == init[p];
    } else {
      BodiesAreTheSchemas(init);
      BodiesAreTheSchemas(ts);
      if q < |init| {
        assert false;
      }
      assert Bodies(ts)[i] == Bodies(init)[i] && Bodies(init)[i] in Bodies(init);
      var t :| t in init && HasSchema(t) && Canon(t) == Some(Bodies(init)[i]);
      var p: nat :| p < |init| && init[p] == t;
      assert ts[p] == t;
    }
  }

  /** The index has the tool's own fields, fails exactly for an unreadable schema,
      and has no parameters exactly for a tool without schema. */
  lemma {:induction false} IndexKeepsFields(t: Tool, digest: Digest)
    ensures var r := EncodeIndexMetadata(t, digest);
      && (r.Ok? <==> t.schema == "" || Json.Canonical(t.schema).Some?)
      && (r.Ok? ==>
            && r.value.name == t.name && r.value.server == t.server && r.value.description == t.description
            && r.value.paramsJson == (if t.schema == "" then ""
                                      else "{\"$class\":\"" + digest(Json.Canonical(t.schema).value) + "\"}"))
  {
    hide Json.Canonical;
  }

  /** The index refers to a declared class exactly when the listing entry does. */
  lemma {:induction false} IndexNamesTheSameClass(ts: seq<Tool>, digest: Digest, k: nat, c: Class)
    requires Encodable(ts, digest) && k < |ts| && HasSchema(ts[k])
    ensures ListingOf(ts, digest).entries[k].class_ == Some(c.name) <==>
      EncodeIndexMetadata(ts[k], digest) == Ok(Metadata(ts[k].name, ts[k].server, ts[k].description, Reference(c.name)))
  {
    var t := ts[k];
    assert t in ts && Readable(t);
    assert ListingOf(ts, digest).entries[k] == EntryOf(t, digest);
    var n := digest(Canon(t).value);
    assert Reference(n)[11..|Reference(n)| - 2] == n && Reference(c.name)[11..|Reference(c.name)| - 2] == c.name;
  }
}
