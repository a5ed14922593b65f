/** The compact signatures of bench/arms/compact.go: a tool's parameter list and
    the type names in it, from the decoded parts of its input schema. */
module CompactSignature {
  import opened Strings
  import opened Sorting

  /** A property's "type" member; an unreadable one is neither a string nor an
      array of strings. */
  datatype TypeField = Missing | Single(name: string) | Union(names: seq<string>) | Unreadable

  datatype Property = Property(type_: TypeField, anyOf: seq<string>, oneOf: seq<string>)

  datatype Schema = Schema(properties: map<string, Property>, required: seq<string>)

  const ANY_TYPE: string := "any"

  function TypeNames(): map<string, string> {
    map["string" := "string", "integer" := "int", "number" := "number",
        "boolean" := "bool", "object" := "obj", "array" := "arr"]
  }

  function Mapped(n: string): string {
    if n in TypeNames() then TypeNames()[n] else ANY_TYPE
  }

  // ----- each element once, where it first appears -----

  function Distinct(s: seq<string>): seq<string> {
    if s == [] then []
    else
      var before, x := Distinct(s[..|s| - 1]), s[|s| - 1];
      if x in before then before else before + [x]
  }

  ghost predicate FirstAt(s: seq<string>, x: string, i: nat) {
    i < |s| && s[i] == x && forall k :: 0 <= k < i ==> s[k] != x
  }

  ghost predicate InOrder(s: seq<string>, x: string, y: string) {
    exists i: nat, j: nat :: i < j && FirstAt(s, x, i) && FirstAt(s, y, j)
  }

  lemma {:induction false} FirstExists(s: seq<string>, x: string)
    requires x in s
    ensures exists i: nat :: FirstAt(s, x, i)
  {
    var init := s[..|s| - 1];
    assert s == init + [s[|s| - 1]];
    if x in init {
      FirstExists(init, x);
      var i: nat :| FirstAt(init, x, i);
      assert FirstAt(s, x, i);
    } else {
      assert FirstAt(s, x, |s| - 1);
    }
  }

  lemma {:induction false} StillInOrder(s: seq<string>, z: string, x: string, y: string)
    requires InOrder(s, x, y)
    ensures InOrder(s + [z], x, y)
  {
    var i: nat, j: nat :| i < j && FirstAt(s, x, i) && FirstAt(s, y, j);
    assert FirstAt(s + [z], x, i) && FirstAt(s + [z], y, j);
  }

  /** The elements of s, none twice, in the order of their first appearance. */
  lemma {:induction false} DistinctKeepsFirsts(s: seq<string>)
    ensures NoRepeats(Distinct(s)) && forall x :: x in Distinct(s) <==> x in s
    ensures forall i, j :: 0 <= i < j < |Distinct(s)| ==> InOrder(s, Distinct(s)[i], Distinct(s)[j])
  {
    if s != [] {
      var init, x, d := s[..|s| - 1], s[|s| - 1], Distinct(s);
      DistinctKeepsFirsts(init);
      assert s == init + [x];
      forall i, j | 0 <= i < j < |d| ensures InOrder(s, d[i], d[j]) {
        if j < |Distinct(init)| {
          assert InOrder(init, Distinct(init)[i], Distinct(init)[j]);
          assert d[i] == Distinct(init)[i] && d[j] == Distinct(init)[j];
          StillInOrder(init, x, d[i], d[j]);
        } else {
          FirstExists(init, d[i]);
          var a: nat :| FirstAt(init, d[i], a);
          assert FirstAt(s, d[i], a) && FirstAt(s, d[j], |init|);
        }
      }
    }
  }

  // ----- type names -----

  function Typed(names: seq<string>): seq<string> {
    if names == [] then []
    else
      var before, n := Typed(names[..|names| - 1]), names[|names| - 1];
      if n == "null" || n == "" then before else before + [Mapped(n)]
  }

  function UnionText(names: seq<string>): string {
    var types := Distinct(Typed(names));
    if types == [] then ANY_TYPE else Join(types, "|")
  }

  /** `compactUnion` */
  method CompactUnion(names: seq<string>) returns (text: string)
    ensures text == UnionText(names)
  {
    var mapped: seq<string> := [];
    var seen: map<string, bool> := map[];
    for i := 0 to |names|
      invariant mapped == Distinct(Typed(names[..i]))
      invariant forall m :: m in seen <==> m in mapped
    {
      assert names[..i + 1][..i] == names[..i];
      if names[i] == "null" || names[i] == "" {
        continue;
      }
      var m := Mapped(names[i]);
      ghost var types := Typed(names[..i]);
      assert (types + [m])[..|types|] == types;
      if m !in seen {
        seen := seen[m := true];
        mapped := mapped + [m];
      }
    }
    assert names[..|names|] == names;
    if |mapped| == 0 {
      return ANY_TYPE;
    }
    text := Join(mapped, "|");
  }

  /** The types in a union are the mapped names of its members other than null. */
  lemma {:induction false} UnionHoldsExactly(names: seq<string>, m: string)
    ensures m in Distinct(Typed(names)) <==> exists n <- names :: n != "null" && n != "" && Mapped(n) == m
  {
    hide Typed, Distinct, Mapped;
    DistinctKeepsFirsts(Typed(names));
    TypedHoldsExactly(names, m);
  }

  lemma {:induction false} TypedHoldsExactly(names: seq<string>, m: string)
    ensures m in Typed(names) <==> exists n <- names :: n != "null" && n != "" && Mapped(n) == m
  {
    hide Mapped;
    if names != [] {
      var init, last := names[..|names| - 1], names[|names| - 1];
      TypedHoldsExactly(init, m);
      assert names == init + [last];
    }
  }

  /** The type names a property declares, whichever way it declares them. */
  function DeclaredNames(p: Property): seq<string> {
    match p.type_
    case Single(n) => [n]
    case Union(names) => names
    case Unreadable => []
    case Missing => if p.anyOf == [] then p.oneOf else p.anyOf
  }

  /** However it is declared, a type reads as the union of its declared names. */
  function TypeText(p: Property): string {
    UnionText(DeclaredNames(p))
  }

  lemma {:induction false} SingleIsUnion(n: string)
    ensures UnionText([n]) == Mapped(n)
  {
    var m := Mapped(n);
    assert [n][..0] == [] && [m][..0] == [] && Typed([]) == [];
    assert Distinct([m]) == [m];
    assert Typed([n]) == if n == "null" || n == "" then [] else [m];
  }

  lemma {:induction false} TypedAppend(a: seq<string>, b: seq<string>)
    ensures Typed(a + b) == Typed(a) + Typed(b)
  {
    if b == [] {
      assert a + b == a;
    } else {
      TypedAppend(a, b[..|b| - 1]);
      assert (a + b)[..|a + b| - 1] == a + b[..|b| - 1];
    }
  }

  /** Null does not show, wherever it stands: a nullable type reads as the type. */
  lemma {:induction false} NullDoesNotShow(a: seq<string>, b: seq<string>)
    ensures UnionText(a + ["null"] + b) == UnionText(a + b)
    ensures b == [] && |a| == 1 ==> UnionText(a + ["null"] + b) == Mapped(a[0])
  {
    assert ["null"][..0] == [] && Typed(["null"]) == [];
    TypedAppend(a + ["null"], b);
    TypedAppend(a, ["null"]);
    TypedAppend(a, b);
    if b == [] && |a| == 1 {
      assert a + b == [a[0]];
      SingleIsUnion(a[0]);
    }
  }

  lemma {:induction false} TypeNameTable(n: string)
    ensures Mapped("string") == "string" && Mapped("integer") == "int" && Mapped("number") == "number"
    ensures Mapped("boolean") == "bool" && Mapped("object") == "obj" && Mapped("array") == "arr"
    ensures n !in ["string", "integer", "number", "boolean", "object", "array"] ==> Mapped(n) == "any"
    ensures Mapped(n) in ["string", "int", "number", "bool", "obj", "arr", "any"]
  {
    var names := ["string", "integer", "number", "boolean", "object", "array"];
    if n in TypeNames() {
      assert n == names[0] || n == names[1] || n == names[2] || n == names[3] || n == names[4] || n == names[5];
    } else {
      assert forall m <- names :: m in TypeNames();
    }
  }

  /** The property declares this type name: by its type, or, without a type, by
      anyOf, or, without both, by oneOf. */
  ghost predicate DeclaresName(p: Property, n: string) {
    match p.type_
    case Single(name) => n == name
    case Union(names) => n in names
    case Unreadable => false
    case Missing => n in p.anyOf || (p.anyOf == [] && n in p.oneOf)
  }

  /** Some declared name other than null and the empty one is mapped to m. */
  ghost predicate DeclaresType(p: Property, m: string) {
    exists n :: DeclaresName(p, n) && n != "null" && n != "" && Mapped(n) == m
  }

  predicate IsShort(m: string) {
    '|' !in m && ',' !in m
  }

  lemma {:induction false} MappedIsShort(n: string)
    ensures IsShort(Mapped(n))
  {
    TypeNameTable(n);
    hide Mapped;
    var short := ["string", "int", "number", "bool", "obj", "arr", "any"];
    var i :| 0 <= i < 7 && short[i] == Mapped(n);
    assert IsShort(short[0]) && IsShort(short[1]) && IsShort(short[2]) && IsShort(short[3]) && IsShort(short[4])
        && IsShort(short[5]) && IsShort(short[6]);
  }

  /** Split at the bars, a type gives back exactly the mapped names the property
      declares, null and empty ones aside, and "any" if there are none. */
  lemma {:induction false} TypeReadsBack(p: Property)
    ensures if exists n :: DeclaresName(p, n) && n != "null" && n != "" then
              forall m :: m in Split(TypeText(p), "|") <==> DeclaresType(p, m)
            else TypeText(p) == "any"
  {
    var names := DeclaredNames(p);
    forall n ensures n in names <==> DeclaresName(p, n) {}
    UnionReadsBack(names);
    hide DeclaredNames, UnionText, Mapped, DeclaresName;
    if n :| DeclaresName(p, n) && n != "null" && n != "" {
      assert n in names;
    }
  }

  lemma {:induction false} UnionReadsBack(names: seq<string>)
    ensures if exists n <- names :: n != "null" && n != "" then
              forall m :: m in Split(UnionText(names), "|") <==>
                exists n <- names :: n != "null" && n != "" && Mapped(n) == m
            else UnionText(names) == "any"
  {
    var types := Distinct(Typed(names));
    forall m ensures m in types <==> exists n <- names :: n != "null" && n != "" && Mapped(n) == m {
      UnionHoldsExactly(names, m);
    }
    hide Distinct, Typed, Mapped, Join, Split;
    if n :| n in names && n != "null" && n != "" {
      assert Mapped(n) in types;
      forall m | m in types ensures IsPart(m, "|") {
        var n' :| n' in names && Mapped(n') == m;
        MappedIsShort(n');
        OtherCharsArePart(m, "|");
      }
      SplitInvertsJoin(types, "|");
    } else if types != [] {
      assert types[0] in types;
    }
  }

  lemma {:induction false} TypeHasNoComma(p: Property)
    ensures ',' !in TypeText(p)
  {
    var types := Distinct(Typed(DeclaredNames(p)));
    forall m | m in types ensures ',' !in m {
      UnionHoldsExactly(DeclaredNames(p), m);
      var n :| n in DeclaredNames(p) && Mapped(n) == m;
      MappedIsShort(n);
    }
    JoinHasNoComma(types);
    hide Distinct, Typed, Mapped, DeclaredNames;
  }

  lemma {:induction false} JoinHasNoComma(parts: seq<string>)
    requires forall p <- parts :: ',' !in p
    ensures ',' !in Join(parts, "|")
  {
    if |parts| > 1 {
      JoinHasNoComma(parts[1..]);
    }
  }

  /** `compactType` */
  method CompactType(p: Property) returns (text: string)
    ensures text == UnionText(DeclaredNames(p))
  {
    match p.type_
    case Single(n) =>
      SingleIsUnion(n);
      text := Mapped(n);
    case Union(names) => text := CompactUnion(names);
    case Unreadable => text := ANY_TYPE;
    case Missing =>
      var variants := p.anyOf;
      if |variants| == 0 {
        variants := p.oneOf;
      }
      if |variants| > 0 {
        text := CompactUnion(variants);
      } else {
        text := ANY_TYPE;
      }
  }

  // ----- parameters -----

  function Keep(s: seq<string>, among: set<string>): seq<string> {
    if s == [] then []
    else
      var before, x := Keep(s[..|s| - 1], among), s[|s| - 1];
      if x in among then before + [x] else before
  }

  function Required(schema: Schema): seq<string> {
    Distinct(Keep(schema.required, schema.properties.Keys))
  }

  /** The properties that are not required, in the order of the iteration. */
  function Unrequired(schema: Schema, iteration: seq<string>): seq<string> {
    Keep(iteration, schema.properties.Keys - (set x <- Required(schema)))
  }

  function Optional(schema: Schema, iteration: seq<string>): seq<string> {
    Sort(Unrequired(schema, iteration), StringOrder())
  }

  /** One order in which Go may range over a map with these keys. */
  ghost predicate Enumerates(iteration: seq<string>, keys: set<string>) {
    NoRepeats(iteration) && forall x :: x in iteration <==> x in keys
  }

  function ParamTexts(names: seq<string>, infix: string, schema: Schema): seq<string>
    requires forall n <- names :: n in schema.properties
  {
    if names == [] then []
    else
      var n := names[|names| - 1];
      assert forall m <- names[..|names| - 1] :: m in names;
      ParamTexts(names[..|names| - 1], infix, schema) + [n + infix + TypeText(schema.properties[n])]
  }

  lemma {:induction false} KeepIsFilter(s: seq<string>, among: set<string>)
    ensures forall x :: x in Keep(s, among) <==> x in s && x in among
    ensures NoRepeats(s) ==> NoRepeats(Keep(s, among))
  {
    if s != [] {
      var init := s[..|s| - 1];
      KeepIsFilter(init, among);
      assert s == init + [s[|s| - 1]];
    }
  }

  lemma {:induction false} RequiredHolds(schema: Schema)
    ensures NoRepeats(Required(schema))
    ensures forall x :: x in Required(schema) <==> x in schema.required && x in schema.properties
  {
    DistinctKeepsFirsts(Keep(schema.required, schema.properties.Keys));
    KeepIsFilter(schema.required, schema.properties.Keys);
    hide Distinct, Keep;
  }

  lemma {:induction false} OptionalHolds(schema: Schema, iteration: seq<string>)
    requires Enumerates(iteration, schema.properties.Keys)
    ensures NoRepeats(Optional(schema, iteration)) && Ordered(Optional(schema, iteration), StringOrder())
    ensures forall x :: x in Optional(schema, iteration) <==> x in schema.properties && x !in Required(schema)
  {
    var rest := Unrequired(schema, iteration);
    KeepIsFilter(iteration, schema.properties.Keys - (set x <- Required(schema)));
    StringOrderIsTotal();
    SortSorts(rest, StringOrder());
    SameRepeats(rest, Optional(schema, iteration));
    hide StringOrder, Distinct, Keep, Sort, Required;
  }

  /** Every property is listed exactly once: the required ones as the required
      array first names them, then the others in ascending order. */
  lemma {:induction false} EachPropertyOnce(schema: Schema, iteration: seq<string>)
    requires Enumerates(iteration, schema.properties.Keys)
    ensures NoRepeats(Required(schema) + Optional(schema, iteration))
    ensures forall x :: x in Required(schema) + Optional(schema, iteration) <==> x in schema.properties
    ensures forall x :: x in Required(schema) <==> x in schema.required && x in schema.properties
    ensures Ordered(Optional(schema, iteration), StringOrder())
  {
    RequiredHolds(schema);
    OptionalHolds(schema, iteration);
    DisjointHaveNoRepeats(Required(schema), Optional(schema, iteration));
    hide *;
  }

  lemma {:induction false} RequiredInArrayOrder(schema: Schema, i: nat, j: nat)
    requires i < j < |Required(schema)|
    ensures InOrder(schema.required, Required(schema)[i], Required(schema)[j])
  {
    var s, keys := schema.required, schema.properties.Keys;
    DistinctKeepsFirsts(Keep(s, keys));
    KeepIsFilter(s, keys);
    var x, y := Required(schema)[i], Required(schema)[j];
    assert x in Required(schema) && y in Required(schema);
    KeepKeepsOrder(s, keys, x, y);
  }

  lemma {:induction false} KeepKeepsOrder(s: seq<string>, among: set<string>, x: string, y: string)
    requires x in among && y in among && InOrder(Keep(s, among), x, y)
    ensures InOrder(s, x, y)
  {
    var init, last := s[..|s| - 1], s[|s| - 1];
    var k := Keep(init, among);
    assert s == init + [last];
    var i: nat, j: nat :| i < j && FirstAt(Keep(s, among), x, i) && FirstAt(Keep(s, among), y, j);
    KeepIsFilter(init, among);
    var w := Keep(s, among);
    assert |k| <= |w| <= |k| + 1 && forall m :: 0 <= m < |k| ==> w[m] == k[m];
    assert FirstAt(k, x, i);
    assert x == k[i] && x in k;
    if j < |k| {
      assert FirstAt(k, y, j);
      KeepKeepsOrder(init, among, x, y);
      StillInOrder(init, last, x, y);
    } else {
      assert y == last;
      assert y !in k;
      FirstExists(init, x);
      var a: nat :| FirstAt(init, x, a);
      assert FirstAt(s, x, a) && FirstAt(s, y, |init|);
    }
  }

  lemma {:induction false} RepeatsShow(s: seq<string>)
    ensures NoRepeats(s) <==> forall x :: multiset(s)[x] <= 1
  {
    if s != [] {
      var init, last := s[..|s| - 1], s[|s| - 1];
      RepeatsShow(init);
      assert s == init + [last];
      assert last in init <==> multiset(init)[last] > 0;
      assert forall x :: multiset(s)[x] == multiset(init)[x] + (if x == last then 1 else 0);
    }
  }

  lemma {:induction false} SameRepeats(a: seq<string>, b: seq<string>)
    requires multiset(a) == multiset(b) && NoRepeats(a)
    ensures NoRepeats(b)
  {
    RepeatsShow(a);
    RepeatsShow(b);
  }

  lemma {:induction false} NoRepeatsCount(s: seq<string>, x: string)
    requires NoRepeats(s)
    ensures multiset(s)[x] == if x in s then 1 else 0
  {
    RepeatsShow(s);
    assert x in s <==> x in multiset(s);
  }

  function Signature(schema: Schema, iteration: seq<string>): string
    requires forall x <- Required(schema) + Optional(schema, iteration) :: x in schema.properties
  {
    Join(ParamTexts(Required(schema), ":", schema) + ParamTexts(Optional(schema, iteration), "?:", schema), ", ")
  }

  lemma {:induction false} ParamTextsAre(names: seq<string>, infix: string, schema: Schema)
    requires forall n <- names :: n in schema.properties
    ensures |ParamTexts(names, infix, schema)| == |names|
    ensures forall i | 0 <= i < |names| ::
      ParamTexts(names, infix, schema)[i] == names[i] + infix + TypeText(schema.properties[names[i]])
  {
    hide TypeText;
    if names != [] {
      assert forall m <- names[..|names| - 1] :: m in names;
      ParamTextsAre(names[..|names| - 1], infix, schema);
    }
  }

  /** The i-th parameter: a required one bare, another one marked. */
  ghost predicate IsParam(part: string, name: string, schema: Schema) {
    && name in schema.properties
    && part == name + (if name in schema.required then ":" else "?:") + TypeText(schema.properties[name])
  }

  lemma {:induction false} ParamsAre(schema: Schema, required: seq<string>, optional: seq<string>)
    requires forall n <- required :: n in schema.required && n in schema.properties
    requires forall n <- optional :: n !in schema.required && n in schema.properties
    ensures var parts := ParamTexts(required, ":", schema) + ParamTexts(optional, "?:", schema);
      && |parts| == |required + optional|
      && forall i | 0 <= i < |parts| :: IsParam(parts[i], (required + optional)[i], schema)
  {
    ParamTextsAre(required, ":", schema);
    ParamTextsAre(optional, "?:", schema);
    hide TypeText, ParamTexts;
    var parts := ParamTexts(required, ":", schema) + ParamTexts(optional, "?:", schema);
    forall i | 0 <= i < |parts| ensures IsParam(parts[i], (required + optional)[i], schema) {
      if i < |required| {
        assert parts[i] == required[i] + ":" + TypeText(schema.properties[required[i]]) && required[i] in required;
      } else {
        var k := i - |required|;
        assert parts[i] == optional[k] + "?:" + TypeText(schema.properties[optional[k]]) && optional[k] in optional;
      }
    }
  }

  lemma {:induction false} ParamIsPart(part: string, name: string, schema: Schema)
    requires IsParam(part, name, schema) && ',' !in name
    ensures IsPart(part, ", ")
  {
    hide TypeText;
    TypeHasNoComma(schema.properties[name]);
    OtherCharsArePart(part, ", ");
  }

  /** Split at the commas, a signature gives the parameters in order, the required
      ones bare and the others marked, each with its type. */
  lemma {:induction false} SignatureReadsBack(schema: Schema, iteration: seq<string>)
    requires Enumerates(iteration, schema.properties.Keys)
    requires forall n <- schema.properties :: ',' !in n
    ensures forall n <- Required(schema) + Optional(schema, iteration) :: n in schema.properties
    ensures var names, text := Required(schema) + Optional(schema, iteration), Signature(schema, iteration);
      if schema.properties == map[] then text == ""
      else
        var parts := Split(text, ", ");
        |parts| == |names| && forall i | 0 <= i < |parts| :: IsParam(parts[i], names[i], schema)
  {
    var required, optional := Required(schema), Optional(schema, iteration);
    EachPropertyOnce(schema, iteration);
    hide Required, Optional, Join, Split, ParamTexts, Ordered, IsParam, IsPart;
    var names := required + optional;
    assert forall n :: n in names <==> n in required || n in optional;
    NoneTwice(required, optional);
    ParamsAre(schema, required, optional);
    var parts := ParamTexts(required, ":", schema) + ParamTexts(optional, "?:", schema);
    ParamsSplit(parts, names, schema);
    if parts == [] {
      assert names == [] && schema.properties == map[];
      JoinNothing();
    } else {
      assert names[0] in names;
    }
  }

  lemma {:induction false} ParamsSplit(parts: seq<string>, names: seq<string>, schema: Schema)
    requires |parts| == |names| && forall i | 0 <= i < |parts| :: IsParam(parts[i], names[i], schema)
    requires forall n <- names :: ',' !in n
    ensures parts != [] ==> Split(Join(parts, ", "), ", ") == parts
  {
    hide IsParam, IsPart, Join, Split;
    forall part | part in parts ensures IsPart(part, ", ") {
      var i :| 0 <= i < |parts| && parts[i] == part;
      assert names[i] in names;
      ParamIsPart(part, names[i], schema);
    }
    if parts != [] {
      SplitInvertsJoin(parts, ", ");
    }
  }

  lemma {:induction false} JoinNothing()
    ensures Join([], ", ") == ""
  {}

  lemma {:induction false} NoneTwice(a: seq<string>, b: seq<string>)
    requires NoRepeats(a + b)
    ensures forall x <- b :: x !in a
  {
    PartsHaveNoRepeats(a, b);
  }

  /** Go's map order does not show: any two iterations give one parameter list. */
  lemma {:induction false} IterationDoesNotShow(schema: Schema, iteration: seq<string>, other: seq<string>)
    requires Enumerates(iteration, schema.properties.Keys) && Enumerates(other, schema.properties.Keys)
    ensures Optional(schema, iteration) == Optional(schema, other)
  {
    var a, b := Unrequired(schema, iteration), Unrequired(schema, other);
    KeepIsFilter(iteration, schema.properties.Keys - (set x <- Required(schema)));
    KeepIsFilter(other, schema.properties.Keys - (set x <- Required(schema)));
    forall x: string ensures multiset(a)[x] == multiset(b)[x] {
      NoRepeatsCount(a, x);
      NoRepeatsCount(b, x);
    }
    assert multiset(a) == multiset(b);
    StringOrderIsTotal();
    SortIgnoresOrder(a, b, StringOrder());
  }

  lemma {:induction false} KeepNext(s: seq<string>, i: nat, among: set<string>)
    requires i < |s|
    ensures Keep(s[..i + 1], among) == Keep(s[..i], among) + if s[i] in among then [s[i]] else []
  {
    assert s[..i + 1][..i] == s[..i];
  }

  lemma {:induction false} DistinctNext(s: seq<string>, x: string)
    ensures Distinct(s + [x]) == Distinct(s) + if x in Distinct(s) then [] else [x]
    ensures s + [] == s
  {
    assert (s + [x])[..|s|] == s;
  }

  lemma {:induction false} NothingKept(s: seq<string>, among: set<string>)
    ensures Keep(s[..0], among) == [] && Distinct([]) == []
  {
    assert s[..0] == [];
  }

  /** `compactParams`, from the decoded schema; `iteration` is the order in which
      the property map happens to be walked. */
  method CompactParams(schema: Schema, iteration: seq<string>) returns (text: string)
    requires Enumerates(iteration, schema.properties.Keys)
    ensures forall x <- Required(schema) + Optional(schema, iteration) :: x in schema.properties
    ensures text == Signature(schema, iteration)
  {
    hide Keep, Distinct, StringOrder, Sort, ParamTexts, Join;
    var required: seq<string> := [];
    var isRequired: map<string, bool> := map[];
    NothingKept(schema.required, schema.properties.Keys);
    for i := 0 to |schema.required|
      invariant required == Distinct(Keep(schema.required[..i], schema.properties.Keys))
      invariant forall n :: n in isRequired <==> n in required
    {
      var name := schema.required[i];
      KeepNext(schema.required, i, schema.properties.Keys);
      DistinctNext(Keep(schema.required[..i], schema.properties.Keys), name);
      if name !in schema.properties || name in isRequired {
        continue;
      }
      isRequired := isRequired[name := true];
      required := required + [name];
    }
    assert schema.required[..|schema.required|] == schema.required;
    assert required == Required(schema);
    var optional: seq<string> := [];
    ghost var others := schema.properties.Keys - (set x <- Required(schema));
    NothingKept(iteration, others);
    for i := 0 to |iteration|
      invariant optional == Keep(iteration[..i], others)
    {
      KeepNext(iteration, i, others);
      assert iteration[i] in iteration;
      if iteration[i] !in isRequired {
        optional := optional + [iteration[i]];
      }
    }
    assert iteration[..|iteration|] == iteration;
    optional := Sort(optional, StringOrder());
    assert optional == Optional(schema, iteration);
    EachPropertyOnce(schema, iteration);
    hide Required, Optional;
    assert forall x :: x in required || x in optional <==> x in required + optional;
    var params := AppendParams([], required, ":", schema);
    params := AppendParams(params, optional, "?:", schema);
    assert params == ParamTexts(required, ":", schema) + ParamTexts(optional, "?:", schema);
    text := Join(params, ", ");
  }

  /** The two loops that render parameters. */
  method AppendParams(before: seq<string>, names: seq<string>, infix: string, schema: Schema)
      returns (params: seq<string>)
    requires forall n <- names :: n in schema.properties
    ensures params == before + ParamTexts(names, infix, schema)
  {
    params := before;
    for i := 0 to |names|
      invariant forall n <- names[..i] :: n in schema.properties
      invariant params == before + ParamTexts(names[..i], infix, schema)
    {
      assert names[i] in names && names[..i + 1][..i] == names[..i];
      assert forall n <- names[..i + 1] :: n in names;
      var t := CompactType(schema.properties[names[i]]);
      params := params + [names[i] + infix + t];
    }
    assert names[..|names|] == names;
  }
}
