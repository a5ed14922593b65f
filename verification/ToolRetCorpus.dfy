/** Loading and subsetting the ToolRet benchmark: bench/corpusio/toolret.go, from
    the decoded cache files on. */
module ToolRetCorpus {
  import opened Strings
  import opened Sorting

  datatype ToolRow = ToolRow(id: string, config: string, documentation: string)
  datatype LabelRow = LabelRow(id: string, relevance: int)
  datatype QueryRow = QueryRow(id: string, query: string, labels: seq<LabelRow>)
  datatype Cache = Cache(toolsRevision: string, tools: seq<ToolRow>, queriesRevision: string, queries: seq<QueryRow>)

  datatype Tool = Tool(toolId: string, server: string, name: string, description: string)
  datatype Label = Label(toolId: string, relevance: int)
  datatype GoldenQuery = GoldenQuery(id: string, query: string, labels: seq<Label>)
  datatype ToolRet = ToolRet(version: string, tools: seq<Tool>, golden: seq<GoldenQuery>, dropped: nat)

  datatype Error =
    | NoToolsRevision | NoQueriesRevision | NoTools | NoQueries
    | ToolWithoutId(i: nat) | EmptyDocumentation(id: string) | DuplicateTool(id: string)
    | QueryWithoutId(i: nat) | EmptyQuery(id: string) | DuplicateQuery(id: string)
    | LabelWithoutId(id: string, j: nat) | UnknownTool(id: string, tool: string)
    | NothingScoreable

  datatype Result<T> = Ok(value: T) | Err(error: Error)

  // ----- what is accepted -----

  /** White space to `strings.TrimSpace`. */
  predicate IsSpace(c: char) {
    c in "\t\n\U{B}\U{C}\r \U{85}\U{A0}\U{1680}\U{2028}\U{2029}\U{202F}\U{205F}\U{3000}" ||
    '\U{2000}' <= c <= '\U{200A}'
  }

  predicate IsBlank(s: string) {
    forall c <- s :: IsSpace(c)
  }

  predicate GoodTool(t: ToolRow) {
    t.id != "" && !IsBlank(t.documentation)
  }

  predicate KnownLabel(lab: LabelRow, ids: set<string>) {
    lab.id != "" && lab.id in ids
  }

  predicate GoodQuery(q: QueryRow, ids: set<string>) {
    q.id != "" && !IsBlank(q.query) && forall lab <- q.labels :: KnownLabel(lab, ids)
  }

  predicate Scoreable(q: QueryRow) {
    exists lab <- q.labels :: lab.relevance >= 1
  }

  function ToolRowId(): ToolRow -> string { (t: ToolRow) => t.id }
  function QueryRowId(): QueryRow -> string { (q: QueryRow) => q.id }
  function ToolId(): Tool -> string { (t: Tool) => t.toolId }
  function LabelId(): Label -> string { (l: Label) => l.toolId }
  function QueryId(): GoldenQuery -> string { (q: GoldenQuery) => q.id }

  function Ids(tools: seq<ToolRow>): set<string> {
    set t <- tools :: t.id
  }

  ghost predicate GoodTools(tools: seq<ToolRow>) {
    (forall t <- tools :: GoodTool(t)) && UniqueKeys(tools, ToolRowId())
  }

  ghost predicate GoodQueries(queries: seq<QueryRow>, ids: set<string>) {
    (forall q <- queries :: GoodQuery(q, ids)) && UniqueKeys(queries, QueryRowId())
  }

  ghost predicate Acceptable(c: Cache) {
    && c.toolsRevision != "" && c.queriesRevision != "" && c.tools != [] && c.queries != []
    && GoodTools(c.tools) && GoodQueries(c.queries, Ids(c.tools))
    && exists q <- c.queries :: Scoreable(q)
  }

  /** The record an error names is at fault. */
  ghost predicate Blames(c: Cache, e: Error) {
    match e
    case NoToolsRevision => c.toolsRevision == ""
    case NoQueriesRevision => c.queriesRevision == ""
    case NoTools => c.tools == []
    case NoQueries => c.queries == []
    case ToolWithoutId(i) => i < |c.tools| && c.tools[i].id == ""
    case EmptyDocumentation(id) => exists t <- c.tools :: t.id == id && IsBlank(t.documentation)
    case DuplicateTool(id) => exists i, j :: 0 <= i < j < |c.tools| && c.tools[i].id == c.tools[j].id == id
    case QueryWithoutId(i) => i < |c.queries| && c.queries[i].id == ""
    case EmptyQuery(id) => exists q <- c.queries :: q.id == id && IsBlank(q.query)
    case DuplicateQuery(id) => exists i, j :: 0 <= i < j < |c.queries| && c.queries[i].id == c.queries[j].id == id
    case LabelWithoutId(id, j) => exists q <- c.queries :: q.id == id && j < |q.labels| && q.labels[j].id == ""
    case UnknownTool(id, tool) =>
      tool !in Ids(c.tools) && exists q <- c.queries :: q.id == id && exists lab <- q.labels :: lab.id == tool
    case NothingScoreable => forall q <- c.queries :: !Scoreable(q)
  }

  ghost predicate HasText(s: string) {
    exists c <- s :: !IsSpace(c)
  }

  ghost predicate DifferentIds(ids: seq<string>) {
    NoRepeats(ids) && "" !in ids
  }

  /** What a cache must be like, on its own fields. */
  lemma {:induction false} AcceptableExactlyWhen(c: Cache)
    ensures Acceptable(c) <==>
      && c.toolsRevision != "" && c.queriesRevision != ""
      && DifferentIds(seq(|c.tools|, i requires 0 <= i < |c.tools| => c.tools[i].id))
      && DifferentIds(seq(|c.queries|, i requires 0 <= i < |c.queries| => c.queries[i].id))
      && (forall t <- c.tools :: HasText(t.documentation))
      && (forall q <- c.queries :: HasText(q.query))
      && (forall q <- c.queries, lab <- q.labels :: lab.id != "" && exists t <- c.tools :: t.id == lab.id)
      && (exists q <- c.queries :: exists lab <- q.labels :: lab.relevance >= 1)
  {
    hide IsSpace;
    var toolIds := seq(|c.tools|, i requires 0 <= i < |c.tools| => c.tools[i].id);
    var queryIds := seq(|c.queries|, i requires 0 <= i < |c.queries| => c.queries[i].id);
    ToolIdsDiffer(c.tools, toolIds);
    QueryIdsDiffer(c.queries, queryIds);
    hide UniqueKeys, DifferentIds;
  }

  lemma {:induction false} ToolIdsDiffer(tools: seq<ToolRow>, ids: seq<string>)
    requires |ids| == |tools| && forall i | 0 <= i < |ids| :: ids[i] == tools[i].id
    ensures DifferentIds(ids) <==> UniqueKeys(tools, ToolRowId()) && forall t <- tools :: t.id != ""
  {
    assert "" in ids <==> exists t <- tools :: t.id == "";
    assert UniqueKeys(tools, ToolRowId()) ==>
      forall i, j | 0 <= i < j < |ids| :: ToolRowId()(tools[i]) != ToolRowId()(tools[j]);
  }

  lemma {:induction false} QueryIdsDiffer(queries: seq<QueryRow>, ids: seq<string>)
    requires |ids| == |queries| && forall i | 0 <= i < |ids| :: ids[i] == queries[i].id
    ensures DifferentIds(ids) <==> UniqueKeys(queries, QueryRowId()) && forall q <- queries :: q.id != ""
  {
    assert "" in ids <==> exists q <- queries :: q.id == "";
    assert UniqueKeys(queries, QueryRowId()) ==>
      forall i, j | 0 <= i < j < |ids| :: QueryRowId()(queries[i]) != QueryRowId()(queries[j]);
  }

  // ----- what is loaded -----

  function ToolOf(t: ToolRow): Tool {
    Tool(t.id, if t.config == "" then "toolret" else t.config, t.id, t.documentation)
  }

  function ToolsOf(tools: seq<ToolRow>): (r: seq<Tool>)
    ensures |r| == |tools| && forall i :: 0 <= i < |r| ==> r[i] == ToolOf(tools[i])
  {
    if tools == [] then [] else ToolsOf(tools[..|tools| - 1]) + [ToolOf(tools[|tools| - 1])]
  }

  function LabelsOf(labels: seq<LabelRow>): seq<Label> {
    if labels == [] then []
    else
      var before, lab := LabelsOf(labels[..|labels| - 1]), labels[|labels| - 1];
      if lab.relevance < 1 then before else before + [Label(lab.id, lab.relevance)]
  }

  function GoldenOf(q: QueryRow): GoldenQuery {
    GoldenQuery(q.id, q.query, Sort(LabelsOf(q.labels), ByKey(LabelId())))
  }

  function Scored(queries: seq<QueryRow>): seq<GoldenQuery> {
    if queries == [] then []
    else
      var before, q := Scored(queries[..|queries| - 1]), queries[|queries| - 1];
      if LabelsOf(q.labels) == [] then before else before + [GoldenOf(q)]
  }

  function Load(c: Cache): ToolRet
    requires |Scored(c.queries)| <= |c.queries|
  {
    ToolRet(
      "toolret-tools@" + c.toolsRevision,
      Sort(ToolsOf(c.tools), ByKey(ToolId())),
      Sort(Scored(c.queries), ByKey(QueryId())),
      |c.queries| - |Scored(c.queries)|)
  }

  lemma {:induction false} LabelsAreTheRelevantOnes(labels: seq<LabelRow>, l: Label)
    ensures l in LabelsOf(labels) <==> l.relevance >= 1 && LabelRow(l.toolId, l.relevance) in labels
  {
    if labels != [] {
      var init, last := labels[..|labels| - 1], labels[|labels| - 1];
      LabelsAreTheRelevantOnes(init, l);
      assert labels == init + [last];
    }
  }

  lemma {:induction false} ScoreableHasLabels(q: QueryRow)
    ensures Scoreable(q) <==> LabelsOf(q.labels) != []
  {
    if lab :| lab in q.labels && lab.relevance >= 1 {
      LabelsAreTheRelevantOnes(q.labels, Label(lab.id, lab.relevance));
    }
    if LabelsOf(q.labels) != [] {
      LabelsAreTheRelevantOnes(q.labels, LabelsOf(q.labels)[0]);
    }
  }

  /** The golden queries are exactly the scoreable rows. */
  lemma {:induction false} ScoredAreTheScoreable(queries: seq<QueryRow>)
    ensures |Scored(queries)| <= |queries|
    ensures forall g <- Scored(queries) :: exists q <- queries :: Scoreable(q) && g == GoldenOf(q)
    ensures forall q <- queries :: Scoreable(q) ==> GoldenOf(q) in Scored(queries)
  {
    if queries != [] {
      var init, last, r := queries[..|queries| - 1], queries[|queries| - 1], Scored(queries);
      ScoredAreTheScoreable(init);
      ScoreableHasLabels(last);
      assert queries == init + [last];
      hide LabelsOf, Sort, Scoreable, GoldenOf;
      forall g | g in r ensures exists q <- queries :: Scoreable(q) && g == GoldenOf(q) {
        if g in Scored(init) {
          var q :| q in init && Scoreable(q) && g == GoldenOf(q);
          assert q in queries;
        } else {
          assert last in queries && g == GoldenOf(last);
        }
      }
    }
  }

  lemma {:induction false} ScoredKeepsIds(queries: seq<QueryRow>)
    requires UniqueKeys(queries, QueryRowId())
    ensures UniqueKeys(Scored(queries), QueryId())
  {
    if queries != [] {
      var init, n, r := queries[..|queries| - 1], |queries| - 1, Scored(queries);
      ScoredKeepsIds(init);
      ScoredAreTheScoreable(init);
      hide LabelsOf, Sort, Scoreable;
      forall i, j | 0 <= i < j < |r| ensures r[i].id != r[j].id {
        assert i < |Scored(init)| && r[i] == Scored(init)[i];
        if j == |Scored(init)| {
          assert r[i] in Scored(init);
          var q :| q in init && Scoreable(q) && r[i] == GoldenOf(q);
          var k :| 0 <= k < n && init[k] == q;
          assert QueryRowId()(queries[k]) != QueryRowId()(queries[n]);
        } else {
          assert QueryId()(Scored(init)[i]) != QueryId()(Scored(init)[j]);
        }
      }
    }
  }

  // ----- loading -----

  lemma {:induction false} UniqueStart<T>(s: seq<T>, n: nat, key: T -> string)
    requires n <= |s| && UniqueKeys(s, key)
    ensures UniqueKeys(s[..n], key)
  {
    forall i, j | 0 <= i < j < n ensures key(s[..n][i]) != key(s[..n][j]) {
      assert s[..n][i] == s[i] && s[..n][j] == s[j];
    }
  }

  lemma {:induction false} UniqueNext<T>(s: seq<T>, i: nat, key: T -> string)
    requires i < |s| && UniqueKeys(s[..i], key)
    ensures UniqueKeys(s[..i + 1], key) <==> forall x <- s[..i] :: key(x) != key(s[i])
  {
    if UniqueKeys(s[..i + 1], key) {
      forall x | x in s[..i] ensures key(x) != key(s[i]) {
        var k :| 0 <= k < i && s[..i][k] == x;
        assert s[..i + 1][k] == x && s[..i + 1][i] == s[i];
      }
    } else {
      var a, b :| 0 <= a < b < i + 1 && key(s[..i + 1][a]) == key(s[..i + 1][b]);
      assert s[..i + 1][..i] == s[..i] && b == i;
      assert s[a] == s[..i][a] && s[a] in s[..i];
    }
  }

  lemma {:induction false} ToolsNext(tools: seq<ToolRow>, i: nat)
    requires i < |tools| && GoodTools(tools[..i])
    ensures GoodTools(tools[..i + 1]) <==> GoodTool(tools[i]) && tools[i].id !in Ids(tools[..i])
    ensures GoodTools(tools) ==> GoodTools(tools[..i + 1])
  {
    UniqueNext(tools, i, ToolRowId());
    hide GoodTool;
    assert tools[..i + 1] == tools[..i] + [tools[i]];
    if GoodTools(tools) {
      forall t | t in tools[..i + 1] ensures GoodTool(t) {
        assert t in tools;
      }
      UniqueStart(tools, i + 1, ToolRowId());
    }
  }

  lemma {:induction false} ToolsOfNext(tools: seq<ToolRow>, i: nat)
    requires i < |tools|
    ensures ToolsOf(tools[..i + 1]) == ToolsOf(tools[..i]) + [ToolOf(tools[i])]
    ensures Ids(tools[..i + 1]) == Ids(tools[..i]) + {tools[i].id}
  {
    hide ToolOf;
    assert tools[..i + 1] == tools[..i] + [tools[i]] && tools[..i + 1][..i] == tools[..i];
  }

  lemma {:induction false} DuplicateToolShows(c: Cache, i: nat)
    requires i < |c.tools| && c.tools[i].id in Ids(c.tools[..i])
    ensures Blames(c, DuplicateTool(c.tools[i].id))
  {
    var u :| u in c.tools[..i] && u.id == c.tools[i].id;
    var k :| 0 <= k < i && c.tools[..i][k] == u;
    assert c.tools[k].id == c.tools[i].id;
  }

  lemma {:induction false} BadToolShows(c: Cache, i: nat)
    requires i < |c.tools|
    ensures c.tools[i].id == "" ==> Blames(c, ToolWithoutId(i))
    ensures IsBlank(c.tools[i].documentation) ==> Blames(c, EmptyDocumentation(c.tools[i].id))
  {
    hide IsBlank;
    assert c.tools[i] in c.tools;
  }

  /** The loop over the tool rows. */
  method LoadTools(c: Cache) returns (r: Result<seq<Tool>>, seen: set<string>)
    ensures r.Ok? <==> GoodTools(c.tools)
    ensures r.Ok? ==> r.value == ToolsOf(c.tools) && seen == Ids(c.tools)
    ensures r.Err? ==> Blames(c, r.error)
  {
    var out: seq<Tool> := [];
    seen := {};
    for i := 0 to |c.tools|
      invariant out == ToolsOf(c.tools[..i]) && seen == Ids(c.tools[..i])
      invariant GoodTools(c.tools[..i])
    {
      hide IsBlank, GoodTools, Ids, ToolsOf, Blames;
      var t := c.tools[i];
      BadToolShows(c, i);
      ToolsNext(c.tools, i);
      ToolsOfNext(c.tools, i);
      if t.id == "" {
        return Err(ToolWithoutId(i)), seen;
      }
      if IsBlank(t.documentation) {
        return Err(EmptyDocumentation(t.id)), seen;
      }
      if t.id in seen {
        DuplicateToolShows(c, i);
        return Err(DuplicateTool(t.id)), seen;
      }
      seen := seen + {t.id};
      out := out + [ToolOf(t)];
    }
    assert c.tools[..|c.tools|] == c.tools;
    r := Ok(out);
  }

  /** The loop over one query's labels. */
  method LoadLabels(c: Cache, q: QueryRow, seen: set<string>) returns (r: Result<seq<Label>>)
    requires q in c.queries && seen == Ids(c.tools)
    ensures r.Ok? <==> forall lab <- q.labels :: KnownLabel(lab, seen)
    ensures r.Ok? ==> r.value == LabelsOf(q.labels)
    ensures r.Err? ==> Blames(c, r.error)
  {
    var labels: seq<Label> := [];
    for j := 0 to |q.labels|
      invariant labels == LabelsOf(q.labels[..j])
      invariant forall lab <- q.labels[..j] :: KnownLabel(lab, seen)
    {
      var lab := q.labels[j];
      assert lab in q.labels && q.labels[..j + 1] == q.labels[..j] + [lab] && q.labels[..j + 1][..j] == q.labels[..j];
      if lab.id == "" {
        return Err(LabelWithoutId(q.id, j));
      }
      if lab.id !in seen {
        return Err(UnknownTool(q.id, lab.id));
      }
      if lab.relevance < 1 {
        continue;
      }
      labels := labels + [Label(lab.id, lab.relevance)];
    }
    assert q.labels[..|q.labels|] == q.labels;
    r := Ok(labels);
  }

  function QueryIds(queries: seq<QueryRow>): set<string> {
    set q <- queries :: q.id
  }

  lemma {:induction false} QueriesNext(queries: seq<QueryRow>, i: nat, ids: set<string>)
    requires i < |queries| && GoodQueries(queries[..i], ids)
    ensures GoodQueries(queries[..i + 1], ids) <==>
      GoodQuery(queries[i], ids) && queries[i].id !in QueryIds(queries[..i])
    ensures GoodQueries(queries, ids) ==> GoodQueries(queries[..i + 1], ids)
  {
    UniqueNext(queries, i, QueryRowId());
    hide GoodQuery;
    assert queries[..i + 1] == queries[..i] + [queries[i]];
    if GoodQueries(queries, ids) {
      forall q | q in queries[..i + 1] ensures GoodQuery(q, ids) {
        assert q in queries;
      }
      UniqueStart(queries, i + 1, QueryRowId());
    }
  }

  lemma {:induction false} ScoredNext(queries: seq<QueryRow>, i: nat)
    requires i < |queries|
    ensures Scored(queries[..i + 1])
         == Scored(queries[..i]) + if LabelsOf(queries[i].labels) == [] then [] else [GoldenOf(queries[i])]
    ensures QueryIds(queries[..i + 1]) == QueryIds(queries[..i]) + {queries[i].id}
  {
    hide LabelsOf, GoldenOf;
    assert queries[..i + 1] == queries[..i] + [queries[i]] && queries[..i + 1][..i] == queries[..i];
  }

  lemma {:induction false} DuplicateQueryShows(c: Cache, i: nat)
    requires i < |c.queries| && c.queries[i].id in QueryIds(c.queries[..i])
    ensures Blames(c, DuplicateQuery(c.queries[i].id))
  {
    var u :| u in c.queries[..i] && u.id == c.queries[i].id;
    var k :| 0 <= k < i && c.queries[..i][k] == u;
    assert c.queries[k].id == c.queries[i].id;
  }

  lemma {:induction false} NothingScored(ids: set<string>)
    ensures Scored([]) == [] && GoodQueries([], ids) && QueryIds([]) == {}
  {}

  /** The loop over the query rows. */
  method LoadQueries(c: Cache, seenTools: set<string>) returns (r: Result<seq<GoldenQuery>>, dropped: nat)
    requires seenTools == Ids(c.tools)
    ensures r.Ok? <==> GoodQueries(c.queries, seenTools)
    ensures r.Ok? ==> r.value == Scored(c.queries) && dropped + |r.value| == |c.queries|
    ensures r.Err? ==> Blames(c, r.error)
  {
    hide IsBlank, KnownLabel, LabelsOf, Sort, Ids, GoodQueries, Scored, QueryIds;
    var golden: seq<GoldenQuery> := [];
    var seen: set<string> := {};
    dropped := 0;
    NothingScored(seenTools);
    assert c.queries[..0] == [];
    for i := 0 to |c.queries|
      invariant golden == Scored(c.queries[..i]) && dropped + |golden| == i
      invariant seen == QueryIds(c.queries[..i])
      invariant GoodQueries(c.queries[..i], seenTools)
    {
      var q := c.queries[i];
      assert q in c.queries;
      QueriesNext(c.queries, i, seenTools);
      ScoredNext(c.queries, i);
      if q.id == "" {
        return Err(QueryWithoutId(i)), dropped;
      }
      if IsBlank(q.query) {
        return Err(EmptyQuery(q.id)), dropped;
      }
      if q.id in seen {
        DuplicateQueryShows(c, i);
        return Err(DuplicateQuery(q.id)), dropped;
      }
      seen := seen + {q.id};
      var labels := LoadLabels(c, q, seenTools);
      if labels.Err? {
        return Err(labels.error), dropped;
      }
      if |labels.value| == 0 {
        dropped := dropped + 1;
        continue;
      }
      golden := golden + [GoldenQuery(q.id, q.query, Sort(labels.value, ByKey(LabelId())))];
    }
    assert c.queries[..|c.queries|] == c.queries;
    r := Ok(golden);
  }

  lemma {:induction false} SortedIsEmptyExactlyWhen(queries: seq<QueryRow>)
    ensures |Scored(queries)| <= |queries|
    ensures Sort(Scored(queries), ByKey(QueryId())) == [] <==> forall q <- queries :: !Scoreable(q)
  {
    ScoredAreTheScoreable(queries);
    ByKeyIsTotal(QueryId());
    SortSorts(Scored(queries), ByKey(QueryId()));
    hide Sort, Scored, Scoreable;
    if Scored(queries) != [] {
      assert Scored(queries)[0] in Scored(queries);
    }
  }

  /** `LoadToolRet`, from the decoded files on. */
  method LoadToolRet(c: Cache) returns (r: Result<ToolRet>)
    ensures r.Ok? <==> Acceptable(c)
    ensures |Scored(c.queries)| <= |c.queries| && (r.Ok? ==> r.value == Load(c))
    ensures r.Err? ==> Blames(c, r.error)
  {
    hide Sort, Scored, GoodTools, GoodQueries, Scoreable, Ids, ToolsOf;
    SortedIsEmptyExactlyWhen(c.queries);
    if c.toolsRevision == "" {
      return Err(NoToolsRevision);
    }
    if c.queriesRevision == "" {
      return Err(NoQueriesRevision);
    }
    if |c.tools| == 0 {
      return Err(NoTools);
    }
    if |c.queries| == 0 {
      return Err(NoQueries);
    }
    var tools, seenTools := LoadTools(c);
    if tools.Err? {
      return Err(tools.error);
    }
    var golden, dropped := LoadQueries(c, seenTools);
    if golden.Err? {
      return Err(golden.error);
    }
    var sorted := Sort(golden.value, ByKey(QueryId()));
    if |sorted| == 0 {
      return Err(NothingScoreable);
    }
    r := Ok(ToolRet("toolret-tools@" + c.toolsRevision, Sort(tools.value, ByKey(ToolId())), sorted, dropped));
  }

  // ----- what a loaded benchmark satisfies -----

  ghost predicate SortedById<T>(s: seq<T>, key: T -> string) {
    Ordered(s, ByKey(key)) && UniqueKeys(s, key)
  }

  /** The labels are ordered, of relevance 1 or more, and of tools among these. */
  ghost predicate SoundGolden(g: GoldenQuery, tools: seq<Tool>) {
    && g.labels != [] && Ordered(g.labels, ByKey(LabelId()))
    && forall l <- g.labels :: l.relevance >= 1 && exists u <- tools :: u.toolId == l.toolId
  }

  /** Ids are unique and ascending, no query is lost, and each golden query keeps
      exactly the labels with relevance 1 or more, all of tools in the corpus. */
  lemma {:induction false} LoadedIsSound(c: Cache)
    requires Acceptable(c)
    ensures |Scored(c.queries)| <= |c.queries|
    ensures var t := Load(c);
      && SortedById(t.tools, ToolId()) && SortedById(t.golden, QueryId())
      && |t.golden| + t.dropped == |c.queries| && |t.golden| > 0
      && forall g <- t.golden :: SoundGolden(g, t.tools)
  {
    ScoredAreTheScoreable(c.queries);
    var t := Load(c);
    ToolsKeepIds(c.tools);
    SortedIsSound(ToolsOf(c.tools), ToolId());
    ScoredKeepsIds(c.queries);
    SortedIsSound(Scored(c.queries), QueryId());
    var q :| q in c.queries && Scoreable(q);
    assert GoldenOf(q) in t.golden;
    forall g | g in t.golden ensures SoundGolden(g, t.tools) {
      hide *;
      GoldenIsSound(c, g, t.tools);
    }
  }

  /** The tool that a row describes. */
  ghost predicate IsToolOf(u: Tool, t: ToolRow) {
    && u.toolId == t.id && u.name == t.id && u.description == t.documentation
    && u.server == (if t.config == "" then "toolret" else t.config)
  }

  /** The golden query of a row: its labels of relevance 1 or more. */
  ghost predicate IsGoldenOf(g: GoldenQuery, q: QueryRow) {
    && g.id == q.id && g.query == q.query
    && forall l :: l in g.labels <==> l.relevance >= 1 && LabelRow(l.toolId, l.relevance) in q.labels
  }

  /** The benchmark holds every tool row, and every query row with a label of
      relevance 1 or more, and nothing else. */
  lemma {:induction false} LoadedHoldsTheRows(c: Cache)
    requires Acceptable(c)
    ensures |Scored(c.queries)| <= |c.queries|
    ensures var t := Load(c);
      && t.version == "toolret-tools@" + c.toolsRevision
      && |t.tools| == |c.tools|
      && (forall r <- c.tools :: exists u <- t.tools :: IsToolOf(u, r))
      && (forall q <- c.queries :: HasRelevant(q) ==> exists g <- t.golden :: IsGoldenOf(g, q))
      && (forall g <- t.golden :: exists q <- c.queries :: IsGoldenOf(g, q) && HasRelevant(q))
  {
    LoadedTools(c.tools);
    LoadedQueries(c.queries);
    hide GoodTools, GoodQueries, Sort, Scored, ToolsOf, IsToolOf, IsGoldenOf, HasRelevant;
  }

  ghost predicate HasRelevant(q: QueryRow) {
    exists lab <- q.labels :: lab.relevance >= 1
  }

  lemma {:induction false} LoadedTools(tools: seq<ToolRow>)
    requires GoodTools(tools)
    ensures var r := Sort(ToolsOf(tools), ByKey(ToolId()));
      |r| == |tools| && forall t <- tools :: exists u <- r :: IsToolOf(u, t)
  {
    ToolsKeepIds(tools);
    SortedIsSound(ToolsOf(tools), ToolId());
    hide ToolsOf, Sort;
    forall t | t in tools ensures exists u <- Sort(ToolsOf(tools), ByKey(ToolId())) :: IsToolOf(u, t) {
      assert IsToolOf(ToolOf(t), t);
    }
  }

  lemma {:induction false} LoadedQueries(queries: seq<QueryRow>)
    requires UniqueKeys(queries, QueryRowId())
    ensures |Scored(queries)| <= |queries|
    ensures var r := Sort(Scored(queries), ByKey(QueryId()));
      && (forall q <- queries :: HasRelevant(q) ==> exists g <- r :: IsGoldenOf(g, q))
      && (forall g <- r :: exists q <- queries :: IsGoldenOf(g, q) && HasRelevant(q))
  {
    ScoredAreTheScoreable(queries);
    ScoredKeepsIds(queries);
    SortedIsSound(Scored(queries), QueryId());
    hide LabelsOf, Sort, GoldenOf, Scored, IsGoldenOf;
    var r := Sort(Scored(queries), ByKey(QueryId()));
    forall q | q in queries && HasRelevant(q) ensures exists g <- r :: IsGoldenOf(g, q) {
      GoldenOfRow(q);
      assert Scoreable(q) && GoldenOf(q) in r;
    }
    forall g | g in r ensures exists q <- queries :: IsGoldenOf(g, q) && HasRelevant(q) {
      var q :| q in queries && Scoreable(q) && g == GoldenOf(q);
      GoldenOfRow(q);
    }
  }

  lemma {:induction false} GoldenOfRow(q: QueryRow)
    ensures IsGoldenOf(GoldenOf(q), q)
  {
    ByKeyIsTotal(LabelId());
    SortSorts(LabelsOf(q.labels), ByKey(LabelId()));
    forall l ensures l in GoldenOf(q).labels <==> l.relevance >= 1 && LabelRow(l.toolId, l.relevance) in q.labels {
      LabelsAreTheRelevantOnes(q.labels, l);
    }
  }

  lemma {:induction false} GoldenIsSound(c: Cache, g: GoldenQuery, tools: seq<Tool>)
    requires GoodQueries(c.queries, Ids(c.tools)) && g in Scored(c.queries)
    requires forall r <- c.tools :: ToolOf(r) in tools
    ensures SoundGolden(g, tools)
  {
    ScoredAreTheScoreable(c.queries);
    hide LabelsOf, Sort, Scoreable, GoldenOf, GoodQueries, Scored;
    var q :| q in c.queries && Scoreable(q) && g == GoldenOf(q);
    GoldenKeepsLabels(c, q);
    forall l | l in g.labels ensures exists u <- tools :: u.toolId == l.toolId {
      var r :| r in c.tools && r.id == l.toolId;
      assert ToolOf(r) in tools;
    }
  }

  lemma {:induction false} SortedIsSound<T(!new)>(s: seq<T>, key: T -> string)
    requires UniqueKeys(s, key)
    ensures SortedById(Sort(s, ByKey(key)), key) && |Sort(s, ByKey(key))| == |s|
    ensures forall x :: x in Sort(s, ByKey(key)) <==> x in s
  {
    ByKeyIsTotal(key);
    SortSorts(s, ByKey(key));
    SortKeepsUniqueKeys(s, ByKey(key), key);
  }

  lemma {:induction false} ToolsKeepIds(tools: seq<ToolRow>)
    requires UniqueKeys(tools, ToolRowId())
    ensures UniqueKeys(ToolsOf(tools), ToolId())
    ensures forall r <- tools :: ToolOf(r) in ToolsOf(tools)
  {
    forall i, j | 0 <= i < j < |tools| ensures ToolsOf(tools)[i].toolId != ToolsOf(tools)[j].toolId {
      assert ToolRowId()(tools[i]) != ToolRowId()(tools[j]);
    }
    forall r | r in tools ensures ToolOf(r) in ToolsOf(tools) {
      var i :| 0 <= i < |tools| && tools[i] == r;
      assert ToolsOf(tools)[i] == ToolOf(r);
    }
  }

  lemma {:induction false} GoldenKeepsLabels(c: Cache, q: QueryRow)
    requires GoodQueries(c.queries, Ids(c.tools)) && q in c.queries && Scoreable(q)
    ensures var ls := GoldenOf(q).labels;
      && ls != [] && Ordered(ls, ByKey(LabelId())) && multiset(ls) == multiset(LabelsOf(q.labels))
      && forall l <- ls :: l.relevance >= 1 && LabelRow(l.toolId, l.relevance) in q.labels && l.toolId in Ids(c.tools)
  {
    ScoreableHasLabels(q);
    ByKeyIsTotal(LabelId());
    SortSorts(LabelsOf(q.labels), ByKey(LabelId()));
    assert GoodQuery(q, Ids(c.tools));
    forall l | l in GoldenOf(q).labels
      ensures l.relevance >= 1 && LabelRow(l.toolId, l.relevance) in q.labels && l.toolId in Ids(c.tools) {
      LabelsAreTheRelevantOnes(q.labels, l);
      assert KnownLabel(LabelRow(l.toolId, l.relevance), Ids(c.tools));
    }
  }

  ghost predicate SameRows<T(!new)>(a: seq<T>, b: seq<T>) {
    forall x :: x in a <==> x in b
  }

  /** The order of the rows in the cache files does not show: two accepted files
      with the same rows load as one benchmark. */
  lemma {:induction false} RowOrderDoesNotShow(c: Cache, d: Cache)
    requires Acceptable(c) && Acceptable(d)
    requires SameRows(c.tools, d.tools) && SameRows(c.queries, d.queries) && c.toolsRevision == d.toolsRevision
    ensures |Scored(c.queries)| <= |c.queries| && |Scored(d.queries)| <= |d.queries| && Load(c) == Load(d)
  {
    SameToolRows(c.tools, d.tools);
    SameQueryRows(c.queries, d.queries);
    hide Sort, Scored, ToolsOf;
  }

  lemma {:induction false} SameToolRows(a: seq<ToolRow>, b: seq<ToolRow>)
    requires SameRows(a, b) && UniqueKeys(a, ToolRowId()) && UniqueKeys(b, ToolRowId())
    ensures Sort(ToolsOf(a), ByKey(ToolId())) == Sort(ToolsOf(b), ByKey(ToolId()))
  {
    ToolsKeepIds(a);
    ToolsKeepIds(b);
    SameTools(a, b);
    SameTools(b, a);
    SortIsOfTheSet(ToolsOf(a), ToolsOf(b), ToolId());
  }

  lemma {:induction false} SameQueryRows(a: seq<QueryRow>, b: seq<QueryRow>)
    requires SameRows(a, b) && UniqueKeys(a, QueryRowId()) && UniqueKeys(b, QueryRowId())
    ensures |a| == |b| && |Scored(a)| == |Scored(b)| <= |a|
    ensures Sort(Scored(a), ByKey(QueryId())) == Sort(Scored(b), ByKey(QueryId()))
  {
    ScoredKeepsIds(a);
    ScoredKeepsIds(b);
    ScoredAreTheScoreable(a);
    SameScored(a, b);
    SameScored(b, a);
    hide Scored;
    SortIsOfTheSet(Scored(a), Scored(b), QueryId());
    SortIsOfTheSet(a, b, QueryRowId());
  }

  lemma {:induction false} SameTools(a: seq<ToolRow>, b: seq<ToolRow>)
    requires SameRows(a, b) && forall r <- b :: ToolOf(r) in ToolsOf(b)
    ensures forall x <- ToolsOf(a) :: x in ToolsOf(b)
  {
    forall x | x in ToolsOf(a) ensures x in ToolsOf(b) {
      var i :| 0 <= i < |a| && ToolsOf(a)[i] == x;
      assert a[i] in a;
    }
  }

  lemma {:induction false} SameScored(a: seq<QueryRow>, b: seq<QueryRow>)
    requires SameRows(a, b)
    ensures forall g <- Scored(a) :: g in Scored(b)
  {
    ScoredAreTheScoreable(a);
    ScoredAreTheScoreable(b);
    hide Scored, Scoreable, GoldenOf;
    forall g | g in Scored(a) ensures g in Scored(b) {
      var q :| q in a && Scoreable(q) && g == GoldenOf(q);
      assert q in b;
    }
  }

  // ----- subsets -----

  datatype SubsetError = EmptyGoldenSet | SizeNotPositive

  datatype SubsetResult = Subset(queries: seq<GoldenQuery>) | NoSubset(error: SubsetError)

  /** What `rand.Perm` promises; the seed decides which permutation it is. */
  ghost predicate IsPermutation(perm: seq<nat>) {
    (forall i <- perm :: i < |perm|) && NoRepeats(perm)
  }

  function IntOrder(): Order<nat> {
    (a: nat, b: nat) => a <= b
  }

  function Min(a: nat, b: nat): nat {
    if a <= b then a else b
  }

  /** The elements of s at the given positions. */
  function Pick(s: seq<GoldenQuery>, positions: seq<nat>): (r: seq<GoldenQuery>)
    requires forall k :: 0 <= k < |positions| ==> positions[k] < |s|
    ensures |r| == |positions| && forall k :: 0 <= k < |r| ==> r[k] == s[positions[k]]
  {
    seq(|positions|, k requires 0 <= k < |positions| => s[positions[k]])
  }

  ghost predicate Ascending(positions: seq<nat>, n: nat) {
    (forall k :: 0 <= k < |positions| ==> positions[k] < n) &&
    forall k, l :: 0 <= k < l < |positions| ==> positions[k] < positions[l]
  }

  function Positions(perm: seq<nat>, size: nat): seq<nat> {
    Sort(perm[..Min(size, |perm|)], IntOrder())
  }

  lemma {:induction false} PositionsAscend(perm: seq<nat>, size: nat)
    requires IsPermutation(perm)
    ensures Ascending(Positions(perm, size), |perm|) && |Positions(perm, size)| == Min(size, |perm|)
  {
    var head, r := perm[..Min(size, |perm|)], Positions(perm, size);
    SortSorts(head, IntOrder());
    forall k | 0 <= k < |r| ensures r[k] < |perm| {
      assert r[k] in head && r[k] in perm;
    }
    forall k, l | 0 <= k < l < |r| ensures r[k] < r[l] {
      assert IntOrder()(r[k], r[l]);
      if r[k] == r[l] {
        TwiceInSort(head, k, l);
      }
    }
  }

  lemma {:induction false} TwiceInSort(s: seq<nat>, k: nat, l: nat)
    requires k < l < |Sort(s, IntOrder())| && Sort(s, IntOrder())[k] == Sort(s, IntOrder())[l]
    requires Total(IntOrder())
    ensures !NoRepeats(s)
  {
    var r := Sort(s, IntOrder());
    SortSorts(s, IntOrder());
    hide *;
    TwiceCounted(r, k, l);
    if NoRepeats(s) {
      AtMostOnce(s, r[k]);
    }
  }

  lemma {:induction false} TwiceCounted(r: seq<nat>, k: nat, l: nat)
    requires k < l < |r| && r[k] == r[l]
    ensures multiset(r)[r[k]] > 1
  {
    var front, back := r[..l], r[l..];
    assert r == front + back;
    assert front[k] in front && back[0] in back;
  }

  lemma {:induction false} AtMostOnce(s: seq<nat>, x: nat)
    requires NoRepeats(s)
    ensures multiset(s)[x] <= 1
  {
    if s != [] {
      var init, last := s[..|s| - 1], s[|s| - 1];
      AtMostOnce(init, x);
      assert s == init + [last];
      assert last in init <==> multiset(init)[last] > 0;
    }
  }

  /** `SubsetQueries`. `perm` is the permutation that the seed gives for this length. */
  method SubsetQueries(queries: seq<GoldenQuery>, perm: seq<nat>, size: int) returns (r: SubsetResult)
    requires IsPermutation(perm) && |perm| == |queries|
    ensures queries == [] ==> r == NoSubset(EmptyGoldenSet)
    ensures queries != [] && size <= 0 ==> r == NoSubset(SizeNotPositive)
    ensures queries != [] && size > 0 ==> r == Subset(Chosen(queries, perm, size))
  {
    ChosenIsPicked(queries, perm, if size > 0 then size else 0);
    if |queries| == 0 {
      return NoSubset(EmptyGoldenSet);
    }
    if size <= 0 {
      return NoSubset(SizeNotPositive);
    }
    var sorted := Sort(queries, ByKey(QueryId()));
    if size >= |sorted| {
      return Subset(sorted);
    }
    var picked := Sort(perm[..size], IntOrder());
    assert picked == Positions(perm, size);
    hide Sort, Positions;
    var out: seq<GoldenQuery> := [];
    for k := 0 to |picked|
      invariant |out| == k && forall m :: 0 <= m < k ==> out[m] == sorted[picked[m]]
    {
      out := out + [sorted[picked[k]]];
    }
    assert out == Pick(sorted, picked);
    r := Subset(out);
  }

  function Chosen(queries: seq<GoldenQuery>, perm: seq<nat>, size: nat): seq<GoldenQuery>
    requires |perm| == |queries|
  {
    var sorted, positions := Sort(queries, ByKey(QueryId())), Positions(perm, size);
    if size >= |queries| then sorted
    else if forall k :: 0 <= k < |positions| ==> positions[k] < |sorted| then Pick(sorted, positions)
    else []
  }

  lemma {:induction false} ChosenIsPicked(queries: seq<GoldenQuery>, perm: seq<nat>, size: nat)
    requires IsPermutation(perm) && |perm| == |queries|
    ensures |Sort(queries, ByKey(QueryId()))| == |queries|
    ensures Ascending(Positions(perm, size), |queries|)
    ensures size < |queries| ==>
      Chosen(queries, perm, size) == Pick(Sort(queries, ByKey(QueryId())), Positions(perm, size))
  {
    ByKeyIsTotal(QueryId());
    SortSorts(queries, ByKey(QueryId()));
    PositionsAscend(perm, size);
  }

  /** The subset holds exactly the queries that the first `size` entries of the
      permutation name, as positions in the list sorted by id; all of them when size
      reaches their number. */
  lemma {:induction false} SubsetIsTheFirstPicks(queries: seq<GoldenQuery>, perm: seq<nat>, size: nat,
                                                 sorted: seq<GoldenQuery>)
    requires IsPermutation(perm) && |perm| == |queries| && UniqueKeys(queries, QueryId())
    requires multiset(sorted) == multiset(queries) && Ordered(sorted, ByKey(QueryId()))
    ensures |sorted| == |perm|
    ensures size >= |queries| ==> Chosen(queries, perm, size) == sorted
    ensures size < |queries| ==> forall g :: g in Chosen(queries, perm, size) <==> IsNamed(g, sorted, perm[..size])
  {
    SortedIsTheSort(queries, sorted);
    ChosenIsPicked(queries, perm, size);
    if size < |queries| {
      SortSorts(perm[..size], IntOrder());
      hide Sort, IntOrder, Total, Ordered, IsPermutation, Ascending, Pick, Chosen;
      PickedAreNamed(sorted, Positions(perm, size), perm[..size]);
    }
  }

  /** The query stands at one of these positions. */
  ghost predicate IsNamed(g: GoldenQuery, sorted: seq<GoldenQuery>, positions: seq<nat>) {
    exists p <- positions :: p < |sorted| && sorted[p] == g
  }

  lemma {:induction false} PickedAreNamed(sorted: seq<GoldenQuery>, positions: seq<nat>, named: seq<nat>)
    requires forall k :: 0 <= k < |positions| ==> positions[k] < |sorted|
    requires forall p :: p in positions <==> p in named
    ensures forall g :: g in Pick(sorted, positions) <==> IsNamed(g, sorted, named)
  {
    var chosen := Pick(sorted, positions);
    forall g | g in chosen ensures IsNamed(g, sorted, named) {
      var i: nat :| i < |chosen| && chosen[i] == g;
      assert positions[i] in positions;
    }
    forall g | IsNamed(g, sorted, named) ensures g in chosen {
      var p :| p in named && p < |sorted| && sorted[p] == g;
      var i: nat :| i < |positions| && positions[i] == p;
      assert chosen[i] == g;
    }
  }

  lemma {:induction false} SortedIsTheSort(queries: seq<GoldenQuery>, sorted: seq<GoldenQuery>)
    requires UniqueKeys(queries, QueryId())
    requires multiset(sorted) == multiset(queries) && Ordered(sorted, ByKey(QueryId()))
    ensures sorted == Sort(queries, ByKey(QueryId())) && |sorted| == |queries|
  {
    ByKeyIsTotal(QueryId());
    UniqueKeysAreStrict(queries, QueryId());
    SortSorts(queries, ByKey(QueryId()));
    SameElements(queries, Sort(queries, ByKey(QueryId())));
    OrderedIsUnique(Sort(queries, ByKey(QueryId())), sorted, ByKey(QueryId()));
  }

  lemma {:induction false} PickIsSubset(s: seq<GoldenQuery>, positions: seq<nat>)
    requires Ascending(positions, |s|)
    ensures multiset(Pick(s, positions)) <= multiset(s)
    decreases |s|
  {
    if |positions| > 0 {
      var n, p := |positions| - 1, positions[|positions| - 1];
      PickIsSubset(s[..p], positions[..n]);
      assert Pick(s, positions) == Pick(s[..p], positions[..n]) + [s[p]];
      assert s == s[..p] + [s[p]] + s[p + 1..];
    }
  }

  lemma {:induction false} PickKeepsOrder(s: seq<GoldenQuery>, positions: seq<nat>, leq: Order<GoldenQuery>)
    requires Ascending(positions, |s|)
    ensures UniqueKeys(s, QueryId()) ==> UniqueKeys(Pick(s, positions), QueryId())
    ensures Ordered(s, leq) ==> Ordered(Pick(s, positions), leq)
  {}

  /** The subset has min(size, n) members of the golden set, ascending by id. */
  lemma {:induction false} SubsetIsSound(queries: seq<GoldenQuery>, perm: seq<nat>, size: nat)
    requires IsPermutation(perm) && |perm| == |queries|
    ensures var r := Chosen(queries, perm, size);
      && |r| == Min(size, |queries|) && multiset(r) <= multiset(queries) && Ordered(r, ByKey(QueryId()))
      && (UniqueKeys(queries, QueryId()) ==> UniqueKeys(r, QueryId()))
  {
    ChosenIsPicked(queries, perm, size);
    PositionsAscend(perm, size);
    ByKeyIsTotal(QueryId());
    SortSorts(queries, ByKey(QueryId()));
    if UniqueKeys(queries, QueryId()) {
      SortKeepsUniqueKeys(queries, ByKey(QueryId()), QueryId());
    }
    PickIsSubset(Sort(queries, ByKey(QueryId())), Positions(perm, size));
    PickKeepsOrder(Sort(queries, ByKey(QueryId())), Positions(perm, size), ByKey(QueryId()));
  }

  /** With unique ids the order of the golden set does not show in the subset. */
  lemma {:induction false} SubsetIgnoresOrder(queries: seq<GoldenQuery>, other: seq<GoldenQuery>,
                                              perm: seq<nat>, size: nat)
    requires multiset(queries) == multiset(other) && UniqueKeys(queries, QueryId()) && |perm| == |queries|
    ensures |perm| == |other| && Chosen(queries, perm, size) == Chosen(other, perm, size)
  {
    SameElements(queries, other);
    ByKeyIsTotal(QueryId());
    UniqueKeysAreStrict(queries, QueryId());
    SortIgnoresOrder(queries, other, ByKey(QueryId()));
  }
}
