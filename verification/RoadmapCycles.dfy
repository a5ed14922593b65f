/** The dependency checker of scripts/gen-roadmap.py: the adjacency dictionary,
    the three-colour depth-first search, and what the list of cycles it reports
    says about the graph. */
module RoadmapCycles {
  import opened Strings

  type Id = string

  datatype Task = Task(id: Id, dependsOn: seq<Id>)
  datatype Epic = Epic(id: Id, dependsOn: seq<Id>, tasks: seq<Task>)

  /** A dictionary from a node to its dependents; every dependent is a node. */
  type Graph = map<Id, seq<Id>>

  // ----- what the graph means -----

  predicate Declares(e: Epic, x: Id, dep: Id) {
    (e.id == x && dep in e.dependsOn) || (exists t <- e.tasks :: t.id == x && dep in t.dependsOn)
  }

  /** Item x (an epic or a task) lists dep under `depends_on`. */
  predicate DependsOn(epics: seq<Epic>, x: Id, dep: Id) {
    exists e <- epics :: Declares(e, x, dep)
  }

  predicate Edge(g: Graph, u: Id, v: Id) {
    u in g && v in g[u]
  }

  ghost predicate IsWalk(g: Graph, p: seq<Id>) {
    forall i :: 0 <= i < |p| - 1 ==> Edge(g, p[i], p[i + 1])
  }

  ghost predicate IsClosedWalk(g: Graph, p: seq<Id>) {
    |p| >= 2 && p[0] == p[|p| - 1] && IsWalk(g, p)
  }

  /** A closed walk whose nodes are distinct except for the repeated endpoint. */
  ghost predicate IsSimpleCycle(g: Graph, p: seq<Id>) {
    IsClosedWalk(g, p) && NoRepeats(p[..|p| - 1])
  }

  ghost predicate Acyclic(g: Graph) {
    forall p :: !IsClosedWalk(g, p)
  }

  predicate Closed(g: Graph) {
    forall u <- g, v <- g[u] :: v in g
  }

  // ----- the search as a function of its state -----

  datatype Colour = White | Grey | Black

  /** The variables of `find_cycles`, the order in which nodes turned black, and
      for each node entered the stack as it was then. */
  datatype Search = Search(
    colour: map<Id, Colour>,
    stack: seq<Id>,
    finished: seq<Id>,
    cycles: seq<seq<Id>>,
    paths: map<Id, seq<Id>>)

  function WhiteNodes(s: Search): set<Id> {
    set n | n in s.colour && s.colour[n] == White
  }

  predicate HasColour(s: Search, n: Id, c: Colour) {
    n in s.colour && s.colour[n] == c
  }

  /** Grey means "on the stack" and black means "finished". */
  ghost predicate Coherent(g: Graph, s: Search) {
    && Closed(g)
    && s.colour.Keys == g.Keys
    && (forall n :: n in s.stack <==> HasColour(s, n, Grey))
    && (forall n :: n in s.finished <==> HasColour(s, n, Black))
    && (forall i | 0 <= i < |s.finished| :: s.finished[i] in g)
    && NoRepeats(s.stack)
  }

  function IndexOf(s: seq<Id>, x: Id): (k: nat)
    requires x in s
    ensures k < |s| && s[k] == x && x !in s[..k]
  {
    if s[0] == x then 0 else 1 + IndexOf(s[1..], x)
  }

  function Enter(s: Search, n: Id): Search {
    s.(colour := s.colour[n := Grey], stack := s.stack + [n], paths := s.paths[n := s.stack + [n]])
  }

  function Leave(s: Search, n: Id): Search {
    s.(colour := s.colour[n := Black],
       stack := if s.stack == [] then [] else s.stack[..|s.stack| - 1],
       finished := s.finished + [n])
  }

  /** Reports the stack from `next` on, closed by `next`, unless it was reported before. */
  function Record(s: Search, next: Id): Search {
    if next !in s.stack then s
    else
      var cycle := s.stack[IndexOf(s.stack, next)..] + [next];
      if cycle in s.cycles then s else s.(cycles := s.cycles + [cycle])
  }

  lemma {:induction false} EnterShrinks(s: Search, n: Id)
    requires n in WhiteNodes(s)
    ensures WhiteNodes(Enter(s, n)) == WhiteNodes(s) - {n}
  {
  }

  function Walk(g: Graph, n: Id, s: Search): (r: Search)
    requires n in g && n in WhiteNodes(s)
    ensures WhiteNodes(r) < WhiteNodes(s)
    decreases WhiteNodes(s), 0
  {
    EnterShrinks(s, n);
    Leave(Visit(g, n, |g[n]|, Enter(s, n)), n)
  }

  /** The first i rounds of the loop `for nxt in adj[n]`. */
  function Visit(g: Graph, n: Id, i: nat, s: Search): (r: Search)
    requires n in g && i <= |g[n]|
    ensures WhiteNodes(r) <= WhiteNodes(s)
    decreases WhiteNodes(s), i + 1
  {
    if i == 0 then s else Examine(g, g[n][i - 1], Visit(g, n, i - 1, s), i)
  }

  /** What the loop body does with the dependent `next`. */
  function Examine(g: Graph, next: Id, s: Search, ghost round: nat): (r: Search)
    requires round > 0
    ensures WhiteNodes(r) <= WhiteNodes(s)
    decreases WhiteNodes(s), round
  {
    if HasColour(s, next, Grey) then Record(s, next)
    else if HasColour(s, next, White) && next in g then Walk(g, next, s)
    else s
  }

  /** The first k rounds of the outer loop over the keys of the dictionary. */
  function FromRoots(g: Graph, keys: seq<Id>, k: nat): Search
    requires k <= |keys|
  {
    if k == 0 then Fresh(g) else Try(g, keys[k - 1], FromRoots(g, keys, k - 1))
  }

  function Try(g: Graph, n: Id, s: Search): Search {
    if HasColour(s, n, White) && n in g then Walk(g, n, s) else s
  }

  function Fresh(g: Graph): Search {
    Search(map n | n in g :: White, [], [], [], map[])
  }

  /** The list `find_cycles` returns for the dictionary g whose keys come in the order `keys`. */
  function CyclesOf(g: Graph, keys: seq<Id>): seq<seq<Id>> {
    FromRoots(g, keys, |keys|).cycles
  }

  // ----- what the search keeps -----

  /** Some reported cycle ends with the step from u to v. */
  ghost predicate ClosingEdge(cycles: seq<seq<Id>>, u: Id, v: Id) {
    exists c <- cycles :: |c| >= 2 && c[|c| - 2] == u && c[|c| - 1] == v
  }

  /** v was finished, or the step from u to v was reported. */
  ghost predicate Settled(finished: seq<Id>, cycles: seq<seq<Id>>, u: Id, v: Id) {
    v in finished || ClosingEdge(cycles, u, v)
  }

  ghost predicate AllSettled(s: Search, u: Id, vs: seq<Id>) {
    forall v <- vs :: Settled(s.finished, s.cycles, u, v)
  }

  /** Every dependent of a finished node was finished before it, or reported. */
  ghost predicate FinishedInOrder(g: Graph, s: Search) {
    forall i, v | 0 <= i < |s.finished| && Edge(g, s.finished[i], v) ::
      Settled(s.finished[..i], s.cycles, s.finished[i], v)
  }

  ghost predicate ReportsSound(g: Graph, cycles: seq<seq<Id>>) {
    (forall c <- cycles :: IsSimpleCycle(g, c)) && NoRepeats(cycles)
  }

  ghost predicate Sound(g: Graph, s: Search) {
    Coherent(g, s) && IsWalk(g, s.stack) && ReportsSound(g, s.cycles) && FinishedInOrder(g, s)
  }

  /** s became t and the stack is what it was. */
  ghost predicate Later(s: Search, t: Search) {
    t.stack == s.stack && s.finished <= t.finished && s.cycles <= t.cycles
  }

  lemma {:induction false} EnterKeepsSound(g: Graph, n: Id, s: Search)
    requires Sound(g, s) && n in g && n in WhiteNodes(s)
    requires s.stack != [] ==> Edge(g, s.stack[|s.stack| - 1], n)
    ensures Sound(g, Enter(s, n))
  {
    var r := Enter(s, n);
    assert !HasColour(s, n, Grey) && n !in s.stack;
    assert forall m :: HasColour(r, m, Grey) <==> HasColour(s, m, Grey) || m == n;
    assert forall m :: HasColour(r, m, Black) <==> HasColour(s, m, Black);
  }

  lemma {:induction false} LeaveKeepsSound(g: Graph, n: Id, t: Search)
    requires Sound(g, t) && n in g && t.stack != [] && t.stack[|t.stack| - 1] == n
    requires forall v :: Edge(g, n, v) ==> Settled(t.finished, t.cycles, n, v)
    ensures Sound(g, Leave(t, n))
  {
    var r := Leave(t, n);
    assert n in t.stack && HasColour(t, n, Grey);
    assert t.stack == r.stack + [n];
    assert forall m :: HasColour(r, m, Grey) <==> HasColour(t, m, Grey) && m != n;
    assert forall m :: HasColour(r, m, Black) <==> HasColour(t, m, Black) || m == n;
    forall i, v | 0 <= i < |r.finished| && Edge(g, r.finished[i], v)
      ensures Settled(r.finished[..i], r.cycles, r.finished[i], v)
    {
      if i < |t.finished| {
        assert r.finished[..i] == t.finished[..i];
        assert Settled(t.finished[..i], t.cycles, t.finished[i], v);
      } else {
        assert r.finished[..i] == t.finished;
      }
    }
  }

  lemma {:induction false} StackTailIsCycle(g: Graph, stack: seq<Id>, k: nat)
    requires IsWalk(g, stack) && NoRepeats(stack) && k < |stack| && Edge(g, stack[|stack| - 1], stack[k])
    ensures IsSimpleCycle(g, stack[k..] + [stack[k]])
  {
    var cycle := stack[k..] + [stack[k]];
    forall i | 0 <= i < |cycle| - 1 ensures Edge(g, cycle[i], cycle[i + 1]) {
      assert i < |cycle| - 2 ==> Edge(g, stack[k + i], stack[k + i + 1]);
    }
    assert cycle[..|cycle| - 1] == stack[k..];
  }

  lemma {:induction false} RecordKeepsSound(g: Graph, s: Search, n: Id, next: Id)
    requires Sound(g, s) && s.stack != [] && s.stack[|s.stack| - 1] == n
    requires next in s.stack && Edge(g, n, next)
    ensures Sound(g, Record(s, next)) && ClosingEdge(Record(s, next).cycles, n, next)
  {
    var r := Record(s, next);
    var k := IndexOf(s.stack, next);
    StackTailIsCycle(g, s.stack, k);
    var cycle := s.stack[k..] + [next];
    assert cycle[|cycle| - 2] == n && cycle[|cycle| - 1] == next && cycle in r.cycles;
    assert Coherent(g, r) by {
      assert forall m, c :: HasColour(s, m, c) == HasColour(r, m, c);
    }
    forall i, v | 0 <= i < |r.finished| && Edge(g, r.finished[i], v)
      ensures Settled(r.finished[..i], r.cycles, r.finished[i], v)
    {
      assert Settled(s.finished[..i], s.cycles, s.finished[i], v);
    }
  }

  lemma {:induction false} WalkKeepsSound(g: Graph, n: Id, s: Search)
    requires Sound(g, s) && n in g && n in WhiteNodes(s)
    requires s.stack != [] ==> Edge(g, s.stack[|s.stack| - 1], n)
    ensures Sound(g, Walk(g, n, s)) && Later(s, Walk(g, n, s)) && n in Walk(g, n, s).finished
    decreases WhiteNodes(s), 0
  {
    EnterShrinks(s, n);
    EnterKeepsSound(g, n, s);
    var e := Enter(s, n);
    VisitKeepsSound(g, n, |g[n]|, e);
    var t := Visit(g, n, |g[n]|, e);
    assert g[n][..|g[n]|] == g[n];
    LeaveKeepsSound(g, n, t);
  }

  /** What holds when s became t by the first i rounds of the loop over adj[n]. */
  ghost predicate Visited(g: Graph, n: Id, i: nat, s: Search, t: Search)
    requires n in g && i <= |g[n]|
  {
    Sound(g, t) && Later(s, t) && AllSettled(t, n, g[n][..i])
  }

  lemma {:induction false} VisitKeepsSound(g: Graph, n: Id, i: nat, s: Search)
    requires Sound(g, s) && n in g && i <= |g[n]|
    requires s.stack != [] && s.stack[|s.stack| - 1] == n
    ensures Visited(g, n, i, s, Visit(g, n, i, s))
    decreases WhiteNodes(s), i + 1
  {
    if i > 0 {
      VisitKeepsSound(g, n, i - 1, s);
      OneMoreRound(g, n, i, s, Visit(g, n, i - 1, s));
    }
  }

  lemma {:induction false} OneMoreRound(g: Graph, n: Id, i: nat, s: Search, t: Search)
    requires n in g && 0 < i <= |g[n]| && Visited(g, n, i - 1, s, t)
    requires s.stack != [] && s.stack[|s.stack| - 1] == n
    ensures Visited(g, n, i, s, Examine(g, g[n][i - 1], t, i))
    decreases WhiteNodes(t), i, 1
  {
    var next := g[n][i - 1];
    assert Edge(g, n, next);
    ExamineKeepsSound(g, n, next, t, i);
    AllSettledGrows(n, g[n][..i - 1], next, t, Examine(g, next, t, i));
    assert g[n][..i] == g[n][..i - 1] + [next];
  }

  lemma {:induction false} AllSettledGrows(n: Id, done: seq<Id>, next: Id, s: Search, t: Search)
    requires Later(s, t) && AllSettled(s, n, done) && Settled(t.finished, t.cycles, n, next)
    ensures AllSettled(t, n, done + [next])
  {
    forall v <- done ensures Settled(t.finished, t.cycles, n, v) {
      assert Settled(s.finished, s.cycles, n, v);
    }
  }

  lemma {:induction false} ExamineKeepsSound(g: Graph, n: Id, next: Id, s: Search, round: nat)
    requires Sound(g, s) && Edge(g, n, next) && next in g && round > 0
    requires s.stack != [] && s.stack[|s.stack| - 1] == n
    ensures var r := Examine(g, next, s, round);
            Sound(g, r) && Later(s, r) && Settled(r.finished, r.cycles, n, next)
    decreases WhiteNodes(s), round, 0
  {
    if HasColour(s, next, Grey) {
      RecordKeepsSound(g, s, n, next);
    } else if HasColour(s, next, White) {
      WalkKeepsSound(g, next, s);
    } else {
      assert HasColour(s, next, Black);
    }
  }

  lemma {:induction false} FromRootsIsSound(g: Graph, keys: seq<Id>, k: nat)
    requires Closed(g) && k <= |keys| && (forall n <- keys :: n in g)
    ensures Sound(g, FromRoots(g, keys, k)) && FromRoots(g, keys, k).stack == []
    ensures forall j | 0 <= j < k :: keys[j] in FromRoots(g, keys, k).finished
  {
    hide Sound, Try;
    if k == 0 {
      FreshIsSound(g);
    } else {
      FromRootsIsSound(g, keys, k - 1);
      TryKeepsSound(g, keys[k - 1], FromRoots(g, keys, k - 1));
    }
  }

  lemma {:induction false} FreshIsSound(g: Graph)
    requires Closed(g)
    ensures Sound(g, Fresh(g))
  {
    assert forall n :: !HasColour(Fresh(g), n, Grey) && !HasColour(Fresh(g), n, Black);
  }

  lemma {:induction false} TryKeepsSound(g: Graph, n: Id, s: Search)
    requires Sound(g, s) && s.stack == [] && n in g
    ensures Sound(g, Try(g, n, s)) && Later(s, Try(g, n, s)) && n in Try(g, n, s).finished
  {
    if HasColour(s, n, White) {
      hide Sound;
      WalkKeepsSound(g, n, s);
    } else {
      SettledIsFinished(g, s, n);
    }
  }

  lemma {:induction false} SettledIsFinished(g: Graph, s: Search, n: Id)
    requires Coherent(g, s) && s.stack == [] && n in g && !HasColour(s, n, White)
    ensures n in s.finished
  {
    hide Closed;
    assert !HasColour(s, n, Grey) && HasColour(s, n, Black);
  }

  lemma {:induction false} NextRoot(g: Graph, keys: seq<Id>, k: nat)
    requires Closed(g) && k < |keys| && ListsKeys(g, keys)
    ensures var s, n := FromRoots(g, keys, k), keys[k];
            Sound(g, s) && s.stack == [] && n in g && n in s.colour &&
            if s.colour[n] == White then n in WhiteNodes(s) && FromRoots(g, keys, k + 1) == Walk(g, n, s)
            else FromRoots(g, keys, k + 1) == s
  {
    FromRootsIsSound(g, keys, k);
  }

  /** What the imperative `walk` needs to know about its own steps. */
  lemma {:induction false} WalkUnfolds(g: Graph, n: Id, s: Search)
    requires Sound(g, s) && n in g && n in WhiteNodes(s)
    requires s.stack != [] ==> Edge(g, s.stack[|s.stack| - 1], n)
    ensures var e := Enter(s, n); var t := Visit(g, n, |g[n]|, e);
            Sound(g, e) && WhiteNodes(e) < WhiteNodes(s) && t.stack == e.stack && Walk(g, n, s) == Leave(t, n)
  {
    EnterShrinks(s, n);
    EnterKeepsSound(g, n, s);
    VisitKeepsSound(g, n, |g[n]|, Enter(s, n));
  }

  // ----- main results -----

  ghost predicate ListsKeys(g: Graph, keys: seq<Id>) {
    forall n :: n in g <==> n in keys
  }

  /** Every reported list is a simple cycle, and none is reported twice. */
  lemma {:induction false} ReportsAreCycles(g: Graph, keys: seq<Id>)
    requires Closed(g) && ListsKeys(g, keys)
    ensures forall c <- CyclesOf(g, keys) :: IsSimpleCycle(g, c)
    ensures NoRepeats(CyclesOf(g, keys))
  {
    FromRootsIsSound(g, keys, |keys|);
  }

  /** Following a closed walk, the finishing positions would have to fall all the
      way round unless some step was reported. */
  lemma {:induction false} SomeStepIsReported(g: Graph, s: Search, p: seq<Id>) returns (i: nat)
    requires FinishedInOrder(g, s) && IsClosedWalk(g, p) && p[0] in s.finished
    ensures i < |p| - 1 && ClosingEdge(s.cycles, p[i], p[i + 1])
  {
    var first := IndexOf(s.finished, p[0]);
    var at := first;
    i := 0;
    while !ClosingEdge(s.cycles, p[i], p[i + 1])
      invariant i < |p| - 1 && 0 <= at <= first < |s.finished| && s.finished[at] == p[i]
      decreases |p| - i
    {
      assert Edge(g, p[i], p[i + 1]);
      assert Settled(s.finished[..at], s.cycles, s.finished[at], p[i + 1]);
      at := IndexOf(s.finished[..at], p[i + 1]);
      i := i + 1;
    }
  }

  /** The reported closing steps hit every cycle of the graph: each closed walk,
      reported or not, takes the last step of some reported cycle. */
  lemma {:induction false} ReportsHitEveryCycle(g: Graph, keys: seq<Id>, p: seq<Id>) returns (i: nat)
    requires Closed(g) && ListsKeys(g, keys) && IsClosedWalk(g, p)
    ensures i < |p| - 1 && ClosingEdge(CyclesOf(g, keys), p[i], p[i + 1])
  {
    FromRootsIsSound(g, keys, |keys|);
    assert Edge(g, p[0], p[1]);
    i := SomeStepIsReported(g, FromRoots(g, keys, |keys|), p);
  }

  /** `find_cycles` returns the empty list exactly for acyclic graphs. */
  lemma {:induction false} EmptyReportMeansAcyclic(g: Graph, keys: seq<Id>)
    requires Closed(g) && ListsKeys(g, keys)
    ensures CyclesOf(g, keys) == [] <==> Acyclic(g)
  {
    ReportsAreCycles(g, keys);
    if CyclesOf(g, keys) == [] {
      forall p ensures !IsClosedWalk(g, p) {
        if IsClosedWalk(g, p) {
          var i := ReportsHitEveryCycle(g, keys, p);
        }
      }
    } else {
      assert CyclesOf(g, keys)[0] in CyclesOf(g, keys);
    }
  }

  // ----- each cycle is reported at most once -----

  /** The step from u to v lies on c. */
  ghost predicate Takes(c: seq<Id>, u: Id, v: Id) {
    exists i: nat :: i + 1 < |c| && c[i] == u && c[i + 1] == v
  }

  function Nodes(c: seq<Id>): seq<Id> {
    if c == [] then [] else c[..|c| - 1]
  }

  /** The closed walk c starts elsewhere on the closed walk c'. */
  ghost predicate SameCycle(c: seq<Id>, c': seq<Id>) {
    exists a, b :: Nodes(c) == a + b && Nodes(c') == b + a
  }

  /** A path is entered one node at a time. */
  ghost predicate IsPath(paths: map<Id, seq<Id>>, n: Id)
    requires n in paths
  {
    var p := paths[n];
    p != [] && p[|p| - 1] == n && forall i | 0 <= i < |p| :: p[i] in paths && paths[p[i]] == p[..i + 1]
  }

  /** The cycle was closed by a step from u, on the stack that u was entered with. */
  ghost predicate ClosedFrom(paths: map<Id, seq<Id>>, c: seq<Id>, u: Id) {
    u in paths && exists k: nat :: k < |paths[u]| && c == paths[u][k..] + [paths[u][k]]
  }

  ghost predicate ArePaths(paths: map<Id, seq<Id>>) {
    forall n <- paths :: IsPath(paths, n)
  }

  /** Each node on the stack was entered with the stack up to it. */
  ghost predicate LeadTo(paths: map<Id, seq<Id>>, stack: seq<Id>) {
    forall i | 0 <= i < |stack| :: stack[i] in paths && paths[stack[i]] == stack[..i + 1]
  }

  ghost predicate AreClosed(paths: map<Id, seq<Id>>, cycles: seq<seq<Id>>) {
    forall c <- cycles :: |c| >= 2 && ClosedFrom(paths, c, c[|c| - 2])
  }

  /** Exactly the nodes that have been entered are no longer white. */
  ghost predicate AreEntered(colour: map<Id, Colour>, paths: map<Id, seq<Id>>) {
    forall n :: n in paths <==> n in colour && colour[n] != White
  }

  /** Each finished node was finished before the nodes above it on its path. */
  ghost predicate FinishUpwards(paths: map<Id, seq<Id>>, finished: seq<Id>) {
    forall i | 0 <= i < |finished| :: finished[i] in paths && forall x <- paths[finished[i]] :: x !in finished[..i]
  }

  ghost predicate Pathed(s: Search) {
    && FinishUpwards(s.paths, s.finished)
    && AreEntered(s.colour, s.paths) && ArePaths(s.paths) && LeadTo(s.paths, s.stack) && AreClosed(s.paths, s.cycles)
  }

  /** No path is forgotten or changed. */
  ghost predicate Extends(paths: map<Id, seq<Id>>, paths': map<Id, seq<Id>>) {
    forall n <- paths :: n in paths' && paths'[n] == paths[n]
  }

  lemma {:induction false} ExtendsItself(paths: map<Id, seq<Id>>)
    ensures Extends(paths, paths)
  {}

  lemma {:induction false} ExtendsOnwards(paths: map<Id, seq<Id>>, paths': map<Id, seq<Id>>, paths'': map<Id, seq<Id>>)
    requires Extends(paths, paths') && Extends(paths', paths'')
    ensures Extends(paths, paths'')
  {}

  lemma {:induction false} OneMorePath(paths: map<Id, seq<Id>>, stack: seq<Id>, n: Id)
    requires ArePaths(paths) && LeadTo(paths, stack) && n !in paths
    ensures var paths' := paths[n := stack + [n]];
      ArePaths(paths') && LeadTo(paths', stack + [n]) && Extends(paths, paths')
  {
    var p, paths' := stack + [n], paths[n := stack + [n]];
    forall i | 0 <= i < |p| ensures p[i] in paths' && paths'[p[i]] == p[..i + 1] {
      assert i < |stack| ==> stack[..i + 1] == p[..i + 1] && stack[i] in paths;
    }
    forall m <- paths' ensures IsPath(paths', m) {
      assert m != n ==> IsPath(paths, m);
    }
  }

  lemma {:induction false} StillClosed(paths: map<Id, seq<Id>>, paths': map<Id, seq<Id>>, cycles: seq<seq<Id>>)
    requires AreClosed(paths, cycles) && Extends(paths, paths')
    ensures AreClosed(paths', cycles)
  {
    forall c <- cycles ensures |c| >= 2 && ClosedFrom(paths', c, c[|c| - 2]) {
      assert ClosedFrom(paths, c, c[|c| - 2]);
    }
  }

  lemma {:induction false} StillUpwards(paths: map<Id, seq<Id>>, paths': map<Id, seq<Id>>, finished: seq<Id>)
    requires FinishUpwards(paths, finished) && Extends(paths, paths')
    ensures FinishUpwards(paths', finished)
  {
    forall i | 0 <= i < |finished|
      ensures finished[i] in paths' && forall x <- paths'[finished[i]] :: x !in finished[..i]
    {
      assert finished[i] in paths;
    }
  }

  lemma {:induction false} OneMoreUpwards(paths: map<Id, seq<Id>>, finished: seq<Id>, n: Id)
    requires FinishUpwards(paths, finished) && n in paths && forall x <- paths[n] :: x !in finished
    ensures FinishUpwards(paths, finished + [n])
  {
    var more := finished + [n];
    forall i | 0 <= i < |more| ensures more[i] in paths && forall x <- paths[more[i]] :: x !in more[..i] {
      assert i < |finished| ==> more[..i] == finished[..i];
      assert i == |finished| ==> more[..i] == finished;
    }
  }

  lemma {:induction false} EnterKeepsPaths(g: Graph, n: Id, s: Search)
    requires Pathed(s) && n in WhiteNodes(s)
    ensures Pathed(Enter(s, n)) && Extends(s.paths, Enter(s, n).paths)
  {
    var r := Enter(s, n);
    assert n !in s.paths;
    OneMorePath(s.paths, s.stack, n);
    StillClosed(s.paths, r.paths, s.cycles);
    StillUpwards(s.paths, r.paths, s.finished);
    assert AreEntered(r.colour, r.paths);
    hide ArePaths, LeadTo, AreClosed, Extends, AreEntered, FinishUpwards;
  }

  lemma {:induction false} LeaveKeepsPaths(n: Id, t: Search)
    requires Pathed(t) && t.stack != [] && t.stack[|t.stack| - 1] == n && HasColour(t, n, Grey)
    requires forall x <- t.stack :: x !in t.finished
    ensures Pathed(Leave(t, n)) && Leave(t, n).paths == t.paths
  {
    assert AreEntered(t.colour[n := Black], t.paths);
    assert t.paths[n] == t.stack by { assert t.stack[..|t.stack|] == t.stack; }
    hide ArePaths, AreClosed, LeadTo, AreEntered, FinishUpwards;
    OneMoreUpwards(t.paths, t.finished, n);
    ShorterStack(t.paths, t.stack);
  }

  lemma {:induction false} ShorterStack(paths: map<Id, seq<Id>>, stack: seq<Id>)
    requires LeadTo(paths, stack) && stack != []
    ensures LeadTo(paths, stack[..|stack| - 1])
  {
    var front := stack[..|stack| - 1];
    forall i | 0 <= i < |front| ensures front[i] in paths && paths[front[i]] == front[..i + 1] {
      assert front[..i + 1] == stack[..i + 1];
    }
  }

  lemma {:induction false} StackCloses(paths: map<Id, seq<Id>>, stack: seq<Id>, k: nat)
    requires LeadTo(paths, stack) && k < |stack|
    ensures var c := stack[k..] + [stack[k]];
      |c| >= 2 && ClosedFrom(paths, c, c[|c| - 2])
  {
    var c, n := stack[k..] + [stack[k]], stack[|stack| - 1];
    assert c[|c| - 2] == n && paths[n] == stack[..|stack|] == stack;
  }

  lemma {:induction false} RecordKeepsPaths(s: Search, next: Id)
    requires Pathed(s) && next in s.stack
    ensures Pathed(Record(s, next)) && Record(s, next).paths == s.paths
  {
    hide ArePaths, LeadTo, ClosedFrom, IndexOf, AreEntered, FinishUpwards;
    StackCloses(s.paths, s.stack, IndexOf(s.stack, next));
  }

  lemma {:induction false} StackIsUnfinished(g: Graph, s: Search)
    requires Sound(g, s)
    ensures forall x <- s.stack :: x !in s.finished
  {
    forall x | x in s.stack ensures x !in s.finished {
      assert HasColour(s, x, Grey) && !HasColour(s, x, Black);
    }
  }

  lemma {:induction false} WalkKeepsPaths(g: Graph, n: Id, s: Search)
    requires Sound(g, s) && Pathed(s) && n in g && n in WhiteNodes(s)
    requires s.stack != [] ==> Edge(g, s.stack[|s.stack| - 1], n)
    ensures Pathed(Walk(g, n, s)) && Extends(s.paths, Walk(g, n, s).paths)
    ensures n in Walk(g, n, s).paths && Walk(g, n, s).paths[n] == s.stack + [n]
    decreases WhiteNodes(s), 0
  {
    EnterShrinks(s, n);
    EnterKeepsSound(g, n, s);
    EnterKeepsPaths(g, n, s);
    var e := Enter(s, n);
    VisitKeepsSound(g, n, |g[n]|, e);
    VisitKeepsPaths(g, n, |g[n]|, e);
    var t := Visit(g, n, |g[n]|, e);
    assert HasColour(t, n, Grey) by { assert n in t.stack; }
    StackIsUnfinished(g, t);
    LeaveKeepsPaths(n, t);
    hide Pathed, Sound;
  }

  lemma {:induction false} VisitKeepsPaths(g: Graph, n: Id, i: nat, s: Search)
    requires Sound(g, s) && Pathed(s) && n in g && i <= |g[n]|
    requires s.stack != [] && s.stack[|s.stack| - 1] == n
    ensures Pathed(Visit(g, n, i, s)) && Extends(s.paths, Visit(g, n, i, s).paths)
    decreases WhiteNodes(s), i + 1
  {
    hide Pathed, Sound, Extends, Examine;
    if i == 0 {
      ExtendsItself(s.paths);
    } else {
      VisitKeepsSound(g, n, i - 1, s);
      VisitKeepsPaths(g, n, i - 1, s);
      NextRoundKeepsPaths(g, n, i, s, Visit(g, n, i - 1, s));
    }
  }

  lemma {:induction false} NextRoundKeepsPaths(g: Graph, n: Id, i: nat, s: Search, t: Search)
    requires n in g && 0 < i <= |g[n]| && Sound(g, t) && Pathed(t) && Extends(s.paths, t.paths)
    requires t.stack != [] && t.stack[|t.stack| - 1] == n
    ensures Pathed(Examine(g, g[n][i - 1], t, i)) && Extends(s.paths, Examine(g, g[n][i - 1], t, i).paths)
    decreases WhiteNodes(t), i, 1
  {
    assert Edge(g, n, g[n][i - 1]);
    ExamineKeepsPaths(g, n, g[n][i - 1], t, i);
    hide *;
    ExtendsOnwards(s.paths, t.paths, Examine(g, g[n][i - 1], t, i).paths);
  }

  lemma {:induction false} ExamineKeepsPaths(g: Graph, n: Id, next: Id, t: Search, round: nat)
    requires Sound(g, t) && Pathed(t) && Edge(g, n, next) && round > 0
    requires t.stack != [] && t.stack[|t.stack| - 1] == n
    ensures Pathed(Examine(g, next, t, round)) && Extends(t.paths, Examine(g, next, t, round).paths)
    decreases WhiteNodes(t), round, 0
  {
    if HasColour(t, next, Grey) {
      RecordKeepsPaths(t, next);
    } else if HasColour(t, next, White) {
      WalkKeepsPaths(g, next, t);
    }
    hide Pathed, Sound;
  }

  lemma {:induction false} FromRootsIsPathed(g: Graph, keys: seq<Id>, k: nat)
    requires Closed(g) && k <= |keys| && forall n <- keys :: n in g
    ensures Pathed(FromRoots(g, keys, k))
    ensures k > 0 ==> keys[0] in FromRoots(g, keys, k).paths && FromRoots(g, keys, k).paths[keys[0]] == [keys[0]]
  {
    hide Sound, Pathed, Try, HasColour;
    FreshIsPathed(g);
    if k > 0 {
      FromRootsIsSound(g, keys, k - 1);
      FromRootsIsPathed(g, keys, k - 1);
      TryKeepsPaths(g, keys[k - 1], FromRoots(g, keys, k - 1));
    }
  }

  lemma {:induction false} FreshIsPathed(g: Graph)
    ensures Pathed(Fresh(g)) && forall n <- g :: HasColour(Fresh(g), n, White)
  {}

  lemma {:induction false} TryKeepsPaths(g: Graph, n: Id, s: Search)
    requires Sound(g, s) && Pathed(s) && s.stack == [] && n in g
    ensures Pathed(Try(g, n, s)) && Extends(s.paths, Try(g, n, s).paths)
    ensures HasColour(s, n, White) ==> n in Try(g, n, s).paths && Try(g, n, s).paths[n] == [n]
  {
    hide Sound, Pathed;
    if HasColour(s, n, White) {
      WalkKeepsPaths(g, n, s);
    }
  }

  function Depth(paths: map<Id, seq<Id>>, n: Id): nat
    requires n in paths
  {
    |paths[n]|
  }

  /** Along a reported cycle the depths grow by one, up to its closing step. */
  lemma {:induction false} DepthsGrow(paths: map<Id, seq<Id>>, c: seq<Id>) returns (k: nat)
    requires ArePaths(paths) && |c| >= 2 && ClosedFrom(paths, c, c[|c| - 2])
    ensures k < |paths[c[|c| - 2]]| && c == paths[c[|c| - 2]][k..] + [paths[c[|c| - 2]][k]]
    ensures forall i | 0 <= i < |c| - 1 :: c[i] in paths && Depth(paths, c[i]) == k + i + 1
    ensures c[|c| - 1] in paths && Depth(paths, c[|c| - 1]) == k + 1
  {
    var p := paths[c[|c| - 2]];
    k :| k < |p| && c == p[k..] + [p[k]];
    assert IsPath(paths, c[|c| - 2]);
    forall i | 0 <= i < |c| - 1 ensures c[i] in paths && Depth(paths, c[i]) == k + i + 1 {
      assert c[i] == p[k + i] && paths[p[k + i]] == p[..k + i + 1];
    }
    assert c[|c| - 1] == c[0];
  }

  /** A step that does not lead deeper is the closing step, and decides the cycle. */
  lemma {:induction false} StepUpCloses(paths: map<Id, seq<Id>>, c: seq<Id>, u: Id, v: Id)
    requires ArePaths(paths) && |c| >= 2 && ClosedFrom(paths, c, c[|c| - 2]) && Takes(c, u, v)
    requires u in paths && v in paths && 0 < Depth(paths, v) <= Depth(paths, u)
    ensures c[|c| - 2] == u && c[|c| - 1] == v && c == paths[u][Depth(paths, v) - 1..] + [v]
  {
    var i: nat :| i + 1 < |c| && c[i] == u && c[i + 1] == v;
    var k := DepthsGrow(paths, c);
    hide ArePaths, ClosedFrom, Takes;
    assert i + 2 == |c|;
  }

  /** A reported cycle that takes the closing step of another one is the same report. */
  lemma {:induction false} OnlyOneReportTakesTheStep(paths: map<Id, seq<Id>>, cycles: seq<seq<Id>>,
                                                     c: seq<Id>, c': seq<Id>)
    requires ArePaths(paths) && AreClosed(paths, cycles) && c in cycles && c' in cycles
    requires Takes(c', c[|c| - 2], c[|c| - 1])
    ensures c == c'
  {
    var k := DepthsGrow(paths, c);
    assert Takes(c, c[|c| - 2], c[|c| - 1]);
    StepUpCloses(paths, c, c[|c| - 2], c[|c| - 1]);
    StepUpCloses(paths, c', c[|c| - 2], c[|c| - 1]);
  }

  lemma {:induction false} RotationTakesTheSteps(c: seq<Id>, c': seq<Id>, u: Id, v: Id)
    requires |c| >= 2 && |c'| >= 2 && c[0] == c[|c| - 1] && c'[0] == c'[|c'| - 1]
    requires SameCycle(c, c') && Takes(c, u, v)
    ensures Takes(c', u, v)
  {
    var a, b :| Nodes(c) == a + b && Nodes(c') == b + a;
    var i: nat :| i + 1 < |c| && c[i] == u && c[i + 1] == v;
    var n := |a + b|;
    assert n == |c| - 1 == |c'| - 1;
    var j := if i < |a| then |b| + i else i - |a|;
    assert c'[j] == (b + a)[j] == (a + b)[i];
    if j + 1 < n && i + 1 < n {
      assert c'[j + 1] == (b + a)[j + 1] && c[i + 1] == (a + b)[i + 1];
    } else if j + 1 < n {
      assert c'[j + 1] == (b + a)[j + 1] && c[i + 1] == c[0] == (a + b)[0];
    } else if i + 1 < n {
      assert c'[j + 1] == c'[0] == (b + a)[0] && c[i + 1] == (a + b)[i + 1];
    } else {
      assert c'[j + 1] == c'[0] == (b + a)[0] && c[i + 1] == c[0] == (a + b)[0];
    }
    assert c'[j] == u && c'[j + 1] == v;
  }

  /** No two reports are the same cycle, wherever each of them starts. */
  lemma {:induction false} NoCycleIsReportedTwice(g: Graph, keys: seq<Id>, i: nat, j: nat)
    requires Closed(g) && ListsKeys(g, keys) && i < j < |CyclesOf(g, keys)|
    ensures !SameCycle(CyclesOf(g, keys)[i], CyclesOf(g, keys)[j])
  {
    var s := FromRoots(g, keys, |keys|);
    var c, c' := s.cycles[i], s.cycles[j];
    FromRootsIsSound(g, keys, |keys|);
    FromRootsIsPathed(g, keys, |keys|);
    assert c in s.cycles && c' in s.cycles;
    if SameCycle(c, c') {
      assert Takes(c, c[|c| - 2], c[|c| - 1]);
      RotationTakesTheSteps(c, c', c[|c| - 2], c[|c| - 1]);
      OnlyOneReportTakesTheStep(s.paths, s.cycles, c, c');
    }
  }

  // ----- when every cycle is reported -----

  /** Simple cycles that share a step are the same cycle. */
  ghost predicate CyclesAreSeparate(g: Graph) {
    forall c, c', u, v | IsSimpleCycle(g, c) && IsSimpleCycle(g, c') && Takes(c, u, v) && Takes(c', u, v) ::
      SameCycle(c, c')
  }

  ghost predicate Reported(cycles: seq<seq<Id>>, c: seq<Id>) {
    exists r <- cycles :: SameCycle(c, r)
  }

  ghost predicate IsKeyOrder(g: Graph, keys: seq<Id>) {
    ListsKeys(g, keys) && NoRepeats(keys)
  }

  lemma {:induction false} SeparateCyclesAreReported(g: Graph, keys: seq<Id>, c: seq<Id>)
    requires Closed(g) && ListsKeys(g, keys) && CyclesAreSeparate(g) && IsSimpleCycle(g, c)
    ensures Reported(CyclesOf(g, keys), c)
  {
    var i := ReportsHitEveryCycle(g, keys, c);
    ReportsAreCycles(g, keys);
    var r :| r in CyclesOf(g, keys) && |r| >= 2 && r[|r| - 2] == c[i] && r[|r| - 1] == c[i + 1];
    assert Takes(r, c[i], c[i + 1]) && Takes(c, c[i], c[i + 1]);
  }

  lemma {:induction false} SomeOrder(nodes: set<Id>) returns (keys: seq<Id>)
    ensures NoRepeats(keys) && forall n :: n in keys <==> n in nodes
  {
    keys := [];
    var left := nodes;
    while left != {}
      invariant left <= nodes && NoRepeats(keys) && forall n :: n in keys <==> n in nodes && n !in left
    {
      var n :| n in left;
      keys, left := keys + [n], left - {n};
    }
  }

  lemma {:induction false} SimpleCycleIsWalk(g: Graph, c: seq<Id>)
    requires IsSimpleCycle(g, c)
    ensures IsWalk(g, c)
  {}

  /** An order of the keys that starts with v, the target of a step. */
  lemma {:induction false} OrderFrom(g: Graph, c: seq<Id>, u: Id, v: Id) returns (keys: seq<Id>)
    requires Closed(g) && IsWalk(g, c) && Takes(c, u, v)
    ensures IsKeyOrder(g, keys) && keys != [] && keys[0] == v
  {
    var i: nat :| i + 1 < |c| && c[i] == u && c[i + 1] == v;
    assert Edge(g, c[i], c[i + 1]);
    var others := SomeOrder(g.Keys - {v});
    keys := [v] + others;
    assert forall n :: n in keys <==> n == v || n in others;
  }

  /** With v as the first root, a report that takes the step from u to v closes with it. */
  lemma {:induction false} RootClosesItsCycles(s: Search, r: seq<Id>, u: Id, v: Id)
    requires Pathed(s) && v in s.paths && s.paths[v] == [v]
    requires r in s.cycles && Takes(r, u, v)
    ensures r[|r| - 2] == u && r[|r| - 1] == v
  {
    var i: nat :| i + 1 < |r| && r[i] == u;
    var k := DepthsGrow(s.paths, r);
    StepUpCloses(s.paths, r, u, v);
  }

  lemma {:induction false} TurnFurther(a: seq<Id>, b: seq<Id>, d: seq<Id>, e: seq<Id>)
    requires b + a == d + e && |b| <= |d|
    ensures var x := d[|b|..]; a + b == x + (e + b) && e + d == (e + b) + x
  {
    var x := d[|b|..];
    assert b == (b + a)[..|b|] == (d + e)[..|b|] == d[..|b|];
    assert d == b + x;
    assert a == (b + a)[|b|..] == (d + e)[|b|..] == x + e;
  }

  lemma {:induction false} SameCycleIsTransitive(c: seq<Id>, r: seq<Id>, c': seq<Id>)
    requires SameCycle(c, r) && SameCycle(c', r)
    ensures SameCycle(c, c')
  {
    var a, b :| Nodes(c) == a + b && Nodes(r) == b + a;
    var e, d :| Nodes(c') == e + d && Nodes(r) == d + e;
    if |b| <= |d| {
      TurnFurther(a, b, d, e);
    } else {
      TurnFurther(e, d, b, a);
    }
  }

  /** If two simple cycles share the step from u to v, the search that starts at v
      reports at most one of them. */
  lemma {:induction false} SharedStepHidesACycle(g: Graph, keys: seq<Id>, c: seq<Id>, c': seq<Id>, u: Id)
    requires Closed(g) && ListsKeys(g, keys) && keys != [] && IsSimpleCycle(g, c) && IsSimpleCycle(g, c')
    requires Takes(c, u, keys[0]) && Takes(c', u, keys[0])
    requires Reported(CyclesOf(g, keys), c) && Reported(CyclesOf(g, keys), c')
    ensures SameCycle(c, c')
  {
    var s, v := FromRoots(g, keys, |keys|), keys[0];
    FromRootsIsSound(g, keys, |keys|);
    FromRootsIsPathed(g, keys, |keys|);
    var r :| r in s.cycles && SameCycle(c, r);
    var r' :| r' in s.cycles && SameCycle(c', r');
    RotationTakesTheSteps(c, r, u, v);
    RotationTakesTheSteps(c', r', u, v);
    RootClosesItsCycles(s, r, u, v);
    OnlyOneReportTakesTheStep(s.paths, s.cycles, r, r');
    SameCycleIsTransitive(c, r, c');
  }

  /** Every simple cycle is reported, whatever the order of the keys, exactly
      when no two different simple cycles share a step. */
  lemma {:induction false} EveryCycleIsReportedExactlyWhen(g: Graph)
    requires Closed(g)
    ensures CyclesAreSeparate(g) <==>
      forall keys, c | IsKeyOrder(g, keys) && IsSimpleCycle(g, c) :: Reported(CyclesOf(g, keys), c)
  {
    hide IsSimpleCycle, Reported, Takes, SameCycle, CyclesOf, NoRepeats;
    if CyclesAreSeparate(g) {
      forall keys, c | IsKeyOrder(g, keys) && IsSimpleCycle(g, c) ensures Reported(CyclesOf(g, keys), c) {
        SeparateCyclesAreReported(g, keys, c);
      }
    }
    if forall keys, c | IsKeyOrder(g, keys) && IsSimpleCycle(g, c) :: Reported(CyclesOf(g, keys), c) {
      forall c, c', u, v | IsSimpleCycle(g, c) && IsSimpleCycle(g, c') && Takes(c, u, v) && Takes(c', u, v)
        ensures SameCycle(c, c')
      {
        assert IsWalk(g, c) by { SimpleCycleIsWalk(g, c); }
        var keys := OrderFrom(g, c, u, v);
        SharedStepHidesACycle(g, keys, c, c', u);
      }
    }
  }

  // ----- which cycles one search reports -----

  /** For each node the path on which the search entered it. */
  function TreeOf(g: Graph, keys: seq<Id>): map<Id, seq<Id>> {
    FromRoots(g, keys, |keys|).paths
  }

  /** y was entered from x. */
  predicate TreeStep(paths: map<Id, seq<Id>>, x: Id, y: Id) {
    x in paths && y in paths && paths[y] == paths[x] + [y]
  }

  /** All steps of the cycle but one were taken to enter a node. */
  ghost predicate AllButOneOnTree(paths: map<Id, seq<Id>>, c: seq<Id>) {
    exists u, v :: Takes(c, u, v) && forall x, y | Takes(c, x, y) && !(x == u && y == v) :: TreeStep(paths, x, y)
  }

  lemma {:induction false} SameCycleIsSymmetric(c: seq<Id>, c': seq<Id>)
    requires SameCycle(c, c')
    ensures SameCycle(c', c)
  {
    var a, b :| Nodes(c) == a + b && Nodes(c') == b + a;
  }

  lemma {:induction false} PathSteps(paths: map<Id, seq<Id>>, w: Id, i: nat)
    requires w in paths && IsPath(paths, w) && i + 1 < |paths[w]|
    ensures TreeStep(paths, paths[w][i], paths[w][i + 1])
  {
    var p := paths[w];
    assert p[..i + 2] == p[..i + 1] + [p[i + 1]];
  }

  lemma {:induction false} ReportRunsDownTheTree(paths: map<Id, seq<Id>>, r: seq<Id>, x: Id, y: Id)
    requires ArePaths(paths) && |r| >= 2 && ClosedFrom(paths, r, r[|r| - 2]) && Takes(r, x, y)
    requires !(x == r[|r| - 2] && y == r[|r| - 1])
    ensures TreeStep(paths, x, y)
  {
    hide *;
    var i := ReportFollowsPath(paths, r, x, y);
    OnePath(paths, r[|r| - 2]);
    PathSteps(paths, r[|r| - 2], i);
  }

  lemma {:induction false} OnePath(paths: map<Id, seq<Id>>, n: Id)
    requires ArePaths(paths) && n in paths
    ensures IsPath(paths, n)
  {}

  lemma {:induction false} ReportFollowsPath(paths: map<Id, seq<Id>>, r: seq<Id>, x: Id, y: Id) returns (i: nat)
    requires |r| >= 2 && ClosedFrom(paths, r, r[|r| - 2]) && Takes(r, x, y)
    requires !(x == r[|r| - 2] && y == r[|r| - 1])
    ensures r[|r| - 2] in paths && i + 1 < |paths[r[|r| - 2]]|
    ensures paths[r[|r| - 2]][i] == x && paths[r[|r| - 2]][i + 1] == y
  {
    var p := paths[r[|r| - 2]];
    var k: nat :| k < |p| && r == p[k..] + [p[k]];
    var j: nat :| j + 1 < |r| && r[j] == x && r[j + 1] == y;
    i := k + j;
  }

  lemma {:induction false} ReportedIsOnTree(g: Graph, keys: seq<Id>, c: seq<Id>)
    requires Closed(g) && ListsKeys(g, keys) && IsSimpleCycle(g, c) && Reported(CyclesOf(g, keys), c)
    ensures AllButOneOnTree(TreeOf(g, keys), c)
  {
    var s := FromRoots(g, keys, |keys|);
    FromRootsIsSound(g, keys, |keys|);
    FromRootsIsPathed(g, keys, |keys|);
    var r :| r in s.cycles && SameCycle(c, r);
    var u, v := r[|r| - 2], r[|r| - 1];
    assert IsSimpleCycle(g, r) && ClosedFrom(s.paths, r, u) && Takes(r, u, v);
    SameCycleIsSymmetric(c, r);
    hide Takes, SameCycle, TreeStep, ClosedFrom, Coherent, FinishedInOrder, FinishUpwards, LeadTo, AreEntered;
    RotationTakesTheSteps(r, c, u, v);
    forall x, y | Takes(c, x, y) && !(x == u && y == v) ensures TreeStep(s.paths, x, y) {
      RotationTakesTheSteps(c, r, x, y);
      ReportRunsDownTheTree(s.paths, r, x, y);
    }
  }

  lemma {:induction false} TurnedNodes(a: seq<Id>, b: seq<Id>, i: nat)
    requires NoRepeats(a + b) && |a| == i + 1
    ensures forall j | 0 <= j < i + |b| :: (b + a)[j] != a[i]
  {
    forall j | 0 <= j < i + |b| ensures (b + a)[j] != a[i] {
      var q := if j < |b| then i + 1 + j else j - |b|;
      assert (b + a)[j] == (a + b)[q] && (a + b)[i] == a[i];
    }
  }

  /** The simple cycle c, started behind its step from u to v. */
  lemma {:induction false} StartBehind(c: seq<Id>, u: Id, v: Id) returns (p: seq<Id>)
    requires |c| >= 2 && c[0] == c[|c| - 1] && NoRepeats(Nodes(c)) && Takes(c, u, v)
    ensures p != [] && p[0] == v && p[|p| - 1] == u && SameCycle(c, p + [v])
    ensures forall j | 0 <= j < |p| - 1 :: p[j] != u
  {
    var i: nat :| i + 1 < |c| && c[i] == u && c[i + 1] == v;
    var a, b := c[..i + 1], c[i + 1..|c| - 1];
    p := b + a;
    assert Nodes(c) == a + b && Nodes(p + [v]) == b + a;
    TurnedNodes(a, b, i);
    hide NoRepeats;
  }

  lemma {:induction false} DownTheTree(paths: map<Id, seq<Id>>, p: seq<Id>, m: nat)
    requires m < |p| && p[0] in paths && forall j | 0 <= j < m :: TreeStep(paths, p[j], p[j + 1])
    ensures p[m] in paths && paths[p[m]] == paths[p[0]] + p[1..m + 1]
  {
    if m > 0 {
      DownTheTree(paths, p, m - 1);
      assert TreeStep(paths, p[m - 1], p[m]);
      assert p[1..m + 1] == p[1..m] + [p[m]];
    }
  }

  lemma {:induction false} StepUpIsSettled(g: Graph, s: Search, u: Id, v: Id)
    requires FinishedInOrder(g, s) && FinishUpwards(s.paths, s.finished) && u in s.finished && Edge(g, u, v)
    requires u in s.paths && v in s.paths[u]
    ensures ClosingEdge(s.cycles, u, v)
  {
    var i := IndexOf(s.finished, u);
    hide ClosingEdge, Edge;
    assert Settled(s.finished[..i], s.cycles, s.finished[i], v);
  }

  lemma {:induction false} TailOfPath(paths: map<Id, seq<Id>>, p: seq<Id>)
    requires p != [] && p[0] in paths && p[|p| - 1] in paths && IsPath(paths, p[0])
    requires paths[p[|p| - 1]] == paths[p[0]] + p[1..]
    ensures p[0] in paths[p[|p| - 1]] && 0 < Depth(paths, p[0]) <= Depth(paths, p[|p| - 1])
    ensures paths[p[|p| - 1]][Depth(paths, p[0]) - 1..] == p
  {
    var up := paths[p[0]];
    assert up != [] && up[|up| - 1] == p[0];
    assert paths[p[|p| - 1]][|up| - 1] == p[0];
  }

  lemma {:induction false} ClosingStepIsTaken(cycles: seq<seq<Id>>, u: Id, v: Id) returns (r: seq<Id>)
    requires ClosingEdge(cycles, u, v)
    ensures r in cycles && |r| >= 2 && r[|r| - 2] == u && r[|r| - 1] == v && Takes(r, u, v)
  {
    r :| r in cycles && |r| >= 2 && r[|r| - 2] == u && r[|r| - 1] == v;
  }

  /** A step back up the tree closes a reported cycle. */
  lemma {:induction false} StepUpIsReported(g: Graph, s: Search, p: seq<Id>)
    requires FinishedInOrder(g, s) && Pathed(s) && p != [] && p[|p| - 1] in s.finished
    requires p[0] in s.paths && p[|p| - 1] in s.paths && s.paths[p[|p| - 1]] == s.paths[p[0]] + p[1..]
    requires Edge(g, p[|p| - 1], p[0])
    ensures p + [p[0]] in s.cycles
  {
    hide IsPath, LeadTo, AreEntered, FinishedInOrder, FinishUpwards, Edge, ClosingEdge, Takes, ClosedFrom;
    TailOfPath(s.paths, p);
    StepUpIsSettled(g, s, p[|p| - 1], p[0]);
    var r := ClosingStepIsTaken(s.cycles, p[|p| - 1], p[0]);
    StepUpCloses(s.paths, r, p[|p| - 1], p[0]);
  }

  lemma {:induction false} StepsBehind(paths: map<Id, seq<Id>>, c: seq<Id>, p: seq<Id>, u: Id, v: Id)
    requires |c| >= 2 && c[0] == c[|c| - 1] && p != [] && p[0] == v && SameCycle(p + [v], c)
    requires forall j | 0 <= j < |p| - 1 :: p[j] != u
    requires forall x, y | Takes(c, x, y) && !(x == u && y == v) :: TreeStep(paths, x, y)
    ensures forall j | 0 <= j < |p| - 1 :: TreeStep(paths, p[j], p[j + 1])
  {
    hide SameCycle, TreeStep;
    var r := p + [v];
    forall j | 0 <= j < |p| - 1 ensures TreeStep(paths, p[j], p[j + 1]) {
      assert r[j] == p[j] && r[j + 1] == p[j + 1];
      RotationTakesTheSteps(r, c, p[j], p[j + 1]);
    }
  }

  lemma {:induction false} EndOfSearch(g: Graph, keys: seq<Id>)
    requires Closed(g) && ListsKeys(g, keys)
    ensures var s := FromRoots(g, keys, |keys|);
      FinishedInOrder(g, s) && Pathed(s) && forall n <- g :: n in s.finished && n in s.paths
  {
    FromRootsIsSound(g, keys, |keys|);
    FromRootsIsPathed(g, keys, |keys|);
    var s := FromRoots(g, keys, |keys|);
    hide FinishedInOrder, Coherent, FromRoots, Pathed;
    forall n | n in g ensures n in s.finished && n in s.paths {
      assert n in keys;
      FinishedIsEntered(s, n);
    }
  }

  lemma {:induction false} BackToTheStart(g: Graph, s: Search, c: seq<Id>, p: seq<Id>, u: Id, v: Id)
    requires FinishedInOrder(g, s) && Pathed(s) && u in s.finished && u in s.paths && v in s.paths && Edge(g, u, v)
    requires p != [] && p[0] == v && p[|p| - 1] == u && SameCycle(c, p + [v])
    requires forall j | 0 <= j < |p| - 1 :: TreeStep(s.paths, p[j], p[j + 1])
    ensures Reported(s.cycles, c)
  {
    hide FinishedInOrder, Pathed, Edge, SameCycle, TreeStep;
    DownTheTree(s.paths, p, |p| - 1);
    assert p[1..|p| - 1 + 1] == p[1..];
    StepUpIsReported(g, s, p);
  }

  lemma {:induction false} OnTreeIsReported(g: Graph, keys: seq<Id>, c: seq<Id>, u: Id, v: Id)
    requires Closed(g) && ListsKeys(g, keys) && IsSimpleCycle(g, c) && Takes(c, u, v)
    requires forall x, y | Takes(c, x, y) && !(x == u && y == v) :: TreeStep(TreeOf(g, keys), x, y)
    ensures Reported(CyclesOf(g, keys), c)
  {
    var s := FromRoots(g, keys, |keys|);
    EndOfSearch(g, keys);
    EndsAreNodes(g, c, u, v);
    hide SameCycle, TreeStep, Pathed, NoRepeats, FinishedInOrder, FromRoots, Takes, Edge, Closed, IsWalk;
    var p := StartBehind(c, u, v);
    SameCycleIsSymmetric(c, p + [v]);
    StepsBehind(s.paths, c, p, u, v);
    BackToTheStart(g, s, c, p, u, v);
  }

  lemma {:induction false} FinishedIsEntered(s: Search, n: Id)
    requires Pathed(s) && n in s.finished
    ensures n in s.paths
  {
    var i :| 0 <= i < |s.finished| && s.finished[i] == n;
  }

  lemma {:induction false} EndsAreNodes(g: Graph, c: seq<Id>, u: Id, v: Id)
    requires Closed(g) && IsWalk(g, c) && Takes(c, u, v)
    ensures u in g && v in g && Edge(g, u, v)
  {
    var i: nat :| i + 1 < |c| && c[i] == u && c[i + 1] == v;
    assert Edge(g, c[i], c[i + 1]);
  }

  /** One search reports a simple cycle exactly when it entered nodes by all steps of
      the cycle but one. */
  lemma {:induction false} ReportedExactlyWhen(g: Graph, keys: seq<Id>, c: seq<Id>)
    requires Closed(g) && ListsKeys(g, keys) && IsSimpleCycle(g, c)
    ensures Reported(CyclesOf(g, keys), c) <==> AllButOneOnTree(TreeOf(g, keys), c)
  {
    hide IsSimpleCycle, TreeOf, CyclesOf, Takes, TreeStep, Reported;
    if Reported(CyclesOf(g, keys), c) {
      ReportedIsOnTree(g, keys, c);
    }
    if AllButOneOnTree(TreeOf(g, keys), c) {
      var u, v :| Takes(c, u, v) &&
        forall x, y | Takes(c, x, y) && !(x == u && y == v) :: TreeStep(TreeOf(g, keys), x, y);
      OnTreeIsReported(g, keys, c, u, v);
    }
  }

  // ----- building the dictionary -----

  predicate DeclaredBy(e: Epic, x: Id) {
    e.id == x || exists t <- e.tasks :: t.id == x
  }

  predicate DeclaredId(epics: seq<Epic>, x: Id) {
    exists e <- epics :: DeclaredBy(e, x)
  }

  function SetDefault(g: Graph, n: Id): Graph {
    if n in g then g else g[n := []]
  }

  /** The first key is the id of the first epic. */
  predicate StartsWith(keys: seq<Id>, epics: seq<Epic>) {
    epics != [] ==> keys != [] && keys[0] == epics[0].id
  }

  method SetDefaultKey(g: Graph, keys: seq<Id>, n: Id) returns (g': Graph, keys': seq<Id>)
    requires ListsKeys(g, keys) && Closed(g)
    ensures ListsKeys(g', keys') && Closed(g') && g'.Keys == g.Keys + {n}
    ensures keys <= keys' && (keys == [] ==> keys' == [n])
    ensures forall u, v :: Edge(g', u, v) <==> Edge(g, u, v)
  {
    g', keys' := SetDefault(g, n), if n in g then keys else keys + [n];
  }

  /** One pass over a `depends_on` list: `adj.setdefault(dep, []).append(x)` for each dep. */
  method AppendDependent(g: Graph, keys: seq<Id>, deps: seq<Id>, x: Id) returns (g': Graph, keys': seq<Id>)
    requires ListsKeys(g, keys) && Closed(g) && x in g
    ensures ListsKeys(g', keys') && Closed(g') && g.Keys <= g'.Keys && keys <= keys'
    ensures forall u, v :: Edge(g', u, v) <==> Edge(g, u, v) || (u in deps && v == x)
  {
    g', keys' := g, keys;
    for i := 0 to |deps|
      invariant ListsKeys(g', keys') && Closed(g') && g.Keys <= g'.Keys && keys <= keys'
      invariant forall u, v :: Edge(g', u, v) <==> Edge(g, u, v) || (u in deps[..i] && v == x)
    {
      var dep := deps[i];
      ghost var before := g';
      g', keys' := SetDefaultKey(g', keys', dep);
      ghost var middle := g';
      g' := g'[dep := g'[dep] + [x]];
      assert forall u, v :: Edge(g', u, v) <==> Edge(middle, u, v) || (u == dep && v == x);
      assert deps[..i + 1] == deps[..i] + [dep];
    }
    assert deps[..|deps|] == deps;
  }

  /** The ids of one epic's tasks. */
  method DeclareTasks(g: Graph, keys: seq<Id>, tasks: seq<Task>) returns (g': Graph, keys': seq<Id>)
    requires ListsKeys(g, keys) && Closed(g)
    ensures ListsKeys(g', keys') && Closed(g') && keys <= keys'
    ensures forall x :: x in g' <==> x in g || exists t <- tasks :: t.id == x
    ensures forall u, v :: Edge(g', u, v) <==> Edge(g, u, v)
  {
    g', keys' := g, keys;
    for j := 0 to |tasks|
      invariant ListsKeys(g', keys') && Closed(g') && keys <= keys'
      invariant forall x :: x in g' <==> x in g || exists t <- tasks[..j] :: t.id == x
      invariant forall u, v :: Edge(g', u, v) <==> Edge(g, u, v)
    {
      hide Closed, Edge;
      g', keys' := SetDefaultKey(g', keys', tasks[j].id);
      assert tasks[..j + 1] == tasks[..j] + [tasks[j]];
    }
    assert tasks[..|tasks|] == tasks;
  }

  /** `id_list` followed by `adj.setdefault(item, [])` for each id. */
  method DeclareIds(epics: seq<Epic>) returns (g: Graph, keys: seq<Id>)
    ensures ListsKeys(g, keys) && Closed(g) && StartsWith(keys, epics)
    ensures forall x :: x in g <==> DeclaredId(epics, x)
    ensures forall u, v :: !Edge(g, u, v)
  {
    g, keys := map[], [];
    assert epics[..0] == [];
    for i := 0 to |epics|
      invariant ListsKeys(g, keys) && Closed(g) && if i == 0 then keys == [] else [epics[0].id] <= keys
      invariant forall x :: x in g <==> DeclaredId(epics[..i], x)
      invariant forall u, v :: !Edge(g, u, v)
    {
      hide Closed, Edge, DeclaredId;
      var e := epics[i];
      ghost var before := g;
      g, keys := SetDefaultKey(g, keys, e.id);
      g, keys := DeclareTasks(g, keys, e.tasks);
      DeclaredNext(epics, i);
      assert forall x :: x in g <==> x in before || DeclaredBy(e, x);
      hide DeclaredBy;
    }
    assert epics[..|epics|] == epics;
  }

  lemma {:induction false} DeclaredNext(epics: seq<Epic>, i: nat)
    requires i < |epics|
    ensures forall x :: DeclaredId(epics[..i + 1], x) <==> DeclaredId(epics[..i], x) || DeclaredBy(epics[i], x)
  {
    hide DeclaredBy;
    assert epics[..i + 1] == epics[..i] + [epics[i]];
    assert forall e :: e in epics[..i + 1] <==> e in epics[..i] || e == epics[i];
  }

  /** The dictionary has an edge from dep to x exactly when x lists dep. */
  method BuildGraph(epics: seq<Epic>) returns (g: Graph, keys: seq<Id>)
    ensures ListsKeys(g, keys) && Closed(g) && StartsWith(keys, epics)
    ensures forall dep, x :: Edge(g, dep, x) <==> DependsOn(epics, x, dep)
  {
    g, keys := DeclareIds(epics);
    for i := 0 to |epics|
      invariant ListsKeys(g, keys) && Closed(g) && StartsWith(keys, epics)
      invariant forall x :: DeclaredId(epics, x) ==> x in g
      invariant forall dep, x :: Edge(g, dep, x) <==> DependsOn(epics[..i], x, dep)
    {
      var e := epics[i];
      assert e in epics && DeclaredBy(e, e.id);
      g, keys := AppendDependent(g, keys, e.dependsOn, e.id);
      for j := 0 to |e.tasks|
        invariant ListsKeys(g, keys) && Closed(g) && StartsWith(keys, epics)
        invariant forall x :: DeclaredId(epics, x) ==> x in g
        invariant forall dep, x :: Edge(g, dep, x) <==>
          DependsOn(epics[..i], x, dep) || Declares(e.(tasks := e.tasks[..j]), x, dep)
      {
        assert e.tasks[j] in e.tasks && DeclaredBy(e, e.tasks[j].id);
        g, keys := AppendDependent(g, keys, e.tasks[j].dependsOn, e.tasks[j].id);
        assert e.tasks[..j + 1] == e.tasks[..j] + [e.tasks[j]];
      }
      assert e.(tasks := e.tasks[..|e.tasks|]) == e && epics[..i + 1] == epics[..i] + [e];
    }
    assert epics[..|epics|] == epics;
  }

  // ----- the search in the source's own form -----

  class CycleFinder {
    const adj: Graph
    const keys: seq<Id>
    var colour: map<Id, Colour>
    var stack: seq<Id>
    var cycles: seq<seq<Id>>
    ghost var finished: seq<Id>
    ghost var paths: map<Id, seq<Id>>

    ghost function State(): Search
      reads this
    {
      Search(colour, stack, finished, cycles, paths)
    }

    constructor (adj: Graph, keys: seq<Id>)
      requires Closed(adj) && ListsKeys(adj, keys)
      ensures this.adj == adj && this.keys == keys && State() == Fresh(adj)
    {
      this.adj, this.keys := adj, keys;
      colour, stack, cycles, finished, paths := map n | n in adj :: White, [], [], [], map[];
    }

    /** The nested function `walk`. */
    method WalkFrom(node: Id)
      requires Sound(adj, State()) && node in adj && node in WhiteNodes(State())
      requires stack != [] ==> Edge(adj, stack[|stack| - 1], node)
      modifies this
      ensures State() == Walk(adj, node, old(State()))
      decreases WhiteNodes(State()), 0
    {
      WalkUnfolds(adj, node, State());
      hide Sound, Visit, Walk, WhiteNodes, Edge;
      colour, stack, paths := colour[node := Grey], stack + [node], paths[node := stack + [node]];
      assert State() == Enter(old(State()), node);
      VisitAll(node);
      ghost var visited := State();
      stack, colour, finished := stack[..|stack| - 1], colour[node := Black], finished + [node];
      assert State() == Leave(visited, node);
    }

    /** Its loop over the dependents of `node`. */
    method VisitAll(node: Id)
      requires Sound(adj, State()) && node in adj
      requires stack != [] && stack[|stack| - 1] == node
      modifies this
      ensures State() == Visit(adj, node, |adj[node]|, old(State()))
      decreases WhiteNodes(State()), |adj[node]| + 1
    {
      ghost var entered := State();
      var i := 0;
      while i < |adj[node]|
        invariant i <= |adj[node]|
        invariant State() == Visit(adj, node, i, entered)
      {
        VisitKeepsSound(adj, node, i, entered);
        assert Edge(adj, node, adj[node][i]);
        ExamineNext(node, adj[node][i], i + 1);
        i := i + 1;
      }
    }

    /** The body of that loop. */
    method ExamineNext(node: Id, next: Id, ghost round: nat)
      requires Sound(adj, State()) && Edge(adj, node, next) && next in adj && round > 0
      requires stack != [] && stack[|stack| - 1] == node
      modifies this
      ensures State() == Examine(adj, next, old(State()), round)
      decreases WhiteNodes(State()), round
    {
      if colour[next] == Grey {
        assert HasColour(State(), next, Grey);
        var cycle := stack[IndexOf(stack, next)..] + [next];
        if cycle !in cycles {
          cycles := cycles + [cycle];
        }
      } else if colour[next] == White {
        WalkFrom(next);
      }
    }

    method Run()
      requires Closed(adj) && ListsKeys(adj, keys) && State() == Fresh(adj)
      modifies this
      ensures cycles == CyclesOf(adj, keys)
    {
      var k := 0;
      while k < |keys|
        invariant k <= |keys|
        invariant State() == FromRoots(adj, keys, k)
      {
        NextRoot(adj, keys, k);
        hide Walk, Sound, ListsKeys, Closed, FromRoots, WhiteNodes, Edge;
        if colour[keys[k]] == White {
          WalkFrom(keys[k]);
        }
        k := k + 1;
      }
    }
  }

  /** A run through items that each list the item before it, back to where it started. */
  ghost predicate DependencyLoop(epics: seq<Epic>, p: seq<Id>) {
    |p| >= 2 && p[0] == p[|p| - 1] && forall i :: 0 <= i < |p| - 1 ==> DependsOn(epics, p[i + 1], p[i])
  }

  ghost predicate SimpleLoop(epics: seq<Epic>, c: seq<Id>) {
    DependencyLoop(epics, c) && NoRepeats(c[..|c| - 1])
  }

  ghost predicate LoopsAreSeparate(epics: seq<Epic>) {
    forall c, c', u, v | SimpleLoop(epics, c) && SimpleLoop(epics, c') && Takes(c, u, v) && Takes(c', u, v) ::
      SameCycle(c, c')
  }

  lemma {:induction false} WalksAreLoops(epics: seq<Epic>, g: Graph)
    requires forall dep, x :: Edge(g, dep, x) <==> DependsOn(epics, x, dep)
    ensures forall p :: IsClosedWalk(g, p) <==> DependencyLoop(epics, p)
    ensures forall p :: IsSimpleCycle(g, p) <==> SimpleLoop(epics, p)
  {
    hide Edge, DependsOn, NoRepeats;
  }

  lemma {:induction false} SeparateLoopsAreReported(epics: seq<Epic>, g: Graph, keys: seq<Id>)
    requires Closed(g) && ListsKeys(g, keys) && LoopsAreSeparate(epics)
    requires forall p :: IsSimpleCycle(g, p) <==> SimpleLoop(epics, p)
    ensures forall c | SimpleLoop(epics, c) :: Reported(CyclesOf(g, keys), c)
  {
    hide IsSimpleCycle, SimpleLoop, Takes, SameCycle, Reported, CyclesOf;
    assert CyclesAreSeparate(g);
    forall c | SimpleLoop(epics, c) ensures Reported(CyclesOf(g, keys), c) {
      SeparateCyclesAreReported(g, keys, c);
    }
  }

  /** Of the loops that share a step to x at most one is reported. */
  ghost predicate ReportsOneOf(cycles: seq<seq<Id>>, epics: seq<Epic>, x: Id) {
    forall c, c', u | SimpleLoop(epics, c) && SimpleLoop(epics, c') && Takes(c, u, x) && Takes(c', u, x) ::
      Reported(cycles, c) && Reported(cycles, c') ==> SameCycle(c, c')
  }

  /** What the reports say about the loops of the roadmap. */
  ghost predicate Describes(cycles: seq<seq<Id>>, epics: seq<Epic>) {
    && (cycles == [] <==> forall p :: !DependencyLoop(epics, p))
    && (forall c <- cycles :: SimpleLoop(epics, c))
    && (forall i, j | 0 <= i < j < |cycles| :: !SameCycle(cycles[i], cycles[j]))
    && (LoopsAreSeparate(epics) ==> forall c | SimpleLoop(epics, c) :: Reported(cycles, c))
    && (epics != [] ==> ReportsOneOf(cycles, epics, epics[0].id))
    && (forall p | DependencyLoop(epics, p) :: exists i | 0 <= i < |p| - 1 :: ClosingEdge(cycles, p[i], p[i + 1]))
  }

  lemma {:induction false} FirstEpicHidesLoops(epics: seq<Epic>, g: Graph, keys: seq<Id>)
    requires Closed(g) && ListsKeys(g, keys) && epics != [] && StartsWith(keys, epics)
    requires forall p :: IsSimpleCycle(g, p) <==> SimpleLoop(epics, p)
    ensures ReportsOneOf(CyclesOf(g, keys), epics, epics[0].id)
  {
    hide Closed, ListsKeys, IsSimpleCycle, SimpleLoop, Takes, SameCycle, Reported, CyclesOf;
    var cycles, x := CyclesOf(g, keys), epics[0].id;
    forall c, c', u | SimpleLoop(epics, c) && SimpleLoop(epics, c') && Takes(c, u, x) && Takes(c', u, x) &&
      Reported(cycles, c) && Reported(cycles, c')
      ensures SameCycle(c, c')
    {
      SharedStepHidesACycle(g, keys, c, c', u);
    }
  }

  /** The roadmap with its k-th epic moved to the top. */
  function MovedUp(epics: seq<Epic>, k: nat): seq<Epic>
    requires k < |epics|
  {
    [epics[k]] + epics[..k] + epics[k + 1..]
  }

  lemma {:induction false} MovingKeepsLoops(epics: seq<Epic>, k: nat)
    requires k < |epics|
    ensures multiset(MovedUp(epics, k)) == multiset(epics)
    ensures forall x, dep :: DependsOn(MovedUp(epics, k), x, dep) <==> DependsOn(epics, x, dep)
    ensures forall p :: SimpleLoop(MovedUp(epics, k), p) <==> SimpleLoop(epics, p)
  {
    var moved := MovedUp(epics, k);
    hide Declares, NoRepeats;
    assert epics == epics[..k] + [epics[k]] + epics[k + 1..];
    assert forall e :: e in moved <==> e in epics;
    assert forall x, dep :: DependsOn(moved, x, dep) <==> DependsOn(epics, x, dep);
    hide DependsOn;
  }

  /** If two loops share a step to an epic, moving that epic to the top of the
      roadmap changes no loop, and `find_cycles` then reports at most one of them. */
  lemma {:induction false} ReorderedRoadmapHidesALoop(epics: seq<Epic>, k: nat, c: seq<Id>, c': seq<Id>, u: Id,
                                                      cycles: seq<seq<Id>>)
    requires k < |epics| && SimpleLoop(epics, c) && SimpleLoop(epics, c') && !SameCycle(c, c')
    requires Takes(c, u, epics[k].id) && Takes(c', u, epics[k].id)
    requires Describes(cycles, MovedUp(epics, k))
    ensures SimpleLoop(MovedUp(epics, k), c) && SimpleLoop(MovedUp(epics, k), c')
    ensures !Reported(cycles, c) || !Reported(cycles, c')
  {
    MovingKeepsLoops(epics, k);
    hide SimpleLoop, LoopsAreSeparate, DependencyLoop, SameCycle, Takes, Reported;
    assert ReportsOneOf(cycles, MovedUp(epics, k), epics[k].id);
  }

  lemma {:induction false} ReportsDescribeLoops(epics: seq<Epic>, g: Graph, keys: seq<Id>)
    requires Closed(g) && ListsKeys(g, keys) && StartsWith(keys, epics)
    requires forall dep, x :: Edge(g, dep, x) <==> DependsOn(epics, x, dep)
    ensures Describes(CyclesOf(g, keys), epics)
  {
    hide Edge, DependsOn, IsClosedWalk, IsSimpleCycle, DependencyLoop, SimpleLoop, LoopsAreSeparate;
    hide ClosingEdge, SameCycle, Reported, CyclesOf, NoRepeats;
    var cycles := CyclesOf(g, keys);
    WalksAreLoops(epics, g);
    ReportsAreCycles(g, keys);
    EmptyReportMeansAcyclic(g, keys);
    forall i, j | 0 <= i < j < |cycles| ensures !SameCycle(cycles[i], cycles[j]) {
      NoCycleIsReportedTwice(g, keys, i, j);
    }
    if LoopsAreSeparate(epics) {
      SeparateLoopsAreReported(epics, g, keys);
    }
    if epics != [] {
      FirstEpicHidesLoops(epics, g, keys);
    }
    forall p | DependencyLoop(epics, p)
      ensures exists i | 0 <= i < |p| - 1 :: ClosingEdge(cycles, p[i], p[i + 1])
    {
      var i := ReportsHitEveryCycle(g, keys, p);
    }
  }

  /** `find_cycles`: empty exactly when there is no loop; every report is a simple
      loop, none is reported twice, every loop takes the closing step of a
      report, and loops that share no step with others are all reported. */
  method FindCycles(epics: seq<Epic>) returns (cycles: seq<seq<Id>>)
    ensures Describes(cycles, epics)
  {
    var g, keys := BuildGraph(epics);
    var finder := new CycleFinder(g, keys);
    finder.Run();
    cycles := finder.cycles;
    ReportsDescribeLoops(epics, g, keys);
  }

  // ----- the documentation promises more than the search does -----

  function Diamond(a: Id, b: Id, c: Id, d: Id): Graph {
    map[a := [b, c], b := [d], c := [d], d := [a]]
  }

  /** The colours of four nodes, in the order of `nodes`. */
  predicate Coloured(s: Search, nodes: seq<Id>, colours: seq<Colour>)
    requires |nodes| == |colours| == 4
  {
    HasColour(s, nodes[0], colours[0]) && HasColour(s, nodes[1], colours[1]) &&
    HasColour(s, nodes[2], colours[2]) && HasColour(s, nodes[3], colours[3])
  }

  lemma {:induction false} Recoloured(s: Search, nodes: seq<Id>, colours: seq<Colour>, i: nat)
    requires |nodes| == |colours| == 4 && i < 4 && NoRepeats(nodes) && Coloured(s, nodes, colours)
    ensures Coloured(Enter(s, nodes[i]), nodes, colours[i := Grey])
    ensures Coloured(Leave(s, nodes[i]), nodes, colours[i := Black])
  {}

  lemma {:induction false} OneDependent(g: Graph, n: Id, m: Id, s: Search)
    requires n in g && g[n] == [m] && HasColour(s, n, White)
    ensures n in WhiteNodes(s) && Walk(g, n, s) == Leave(Examine(g, m, Enter(s, n), 1), n)
  {
    var e := Enter(s, n);
    assert Visit(g, n, 1, e) == Examine(g, m, Visit(g, n, 0, e), 1);
  }

  lemma {:induction false} TwoDependents(g: Graph, n: Id, m: Id, m': Id, s: Search)
    requires n in g && g[n] == [m, m'] && HasColour(s, n, White)
    ensures n in WhiteNodes(s) && Walk(g, n, s) == Leave(Examine(g, m', Examine(g, m, Enter(s, n), 1), 2), n)
  {
    var e := Enter(s, n);
    assert Visit(g, n, 2, e) == Examine(g, m', Visit(g, n, 1, e), 2);
    assert Visit(g, n, 1, e) == Examine(g, m, Visit(g, n, 0, e), 1);
  }

  lemma {:induction false} ExamineByColour(g: Graph, n: Id, s: Search, round: nat)
    requires round > 0 && n in g && n in s.colour
    ensures HasColour(s, n, Grey) ==> Examine(g, n, s, round) == Record(s, n)
    ensures HasColour(s, n, White) ==> n in WhiteNodes(s) && Examine(g, n, s, round) == Walk(g, n, s)
    ensures HasColour(s, n, Black) ==> Examine(g, n, s, round) == s
  {}

  lemma {:induction false} DiamondSteps(nodes: seq<Id>)
    requires |nodes| == 4 && NoRepeats(nodes)
    ensures var g := Diamond(nodes[0], nodes[1], nodes[2], nodes[3]);
      && (forall i | 0 <= i < 4 :: nodes[i] in g) && g[nodes[0]] == [nodes[1], nodes[2]]
      && g[nodes[1]] == g[nodes[2]] == [nodes[3]] && g[nodes[3]] == [nodes[0]]
  {
    assert nodes[0] != nodes[1] && nodes[0] != nodes[2] && nodes[0] != nodes[3];
    assert nodes[1] != nodes[2] && nodes[1] != nodes[3] && nodes[2] != nodes[3];
  }

  lemma {:induction false} RecordFirst(s: Search, n: Id)
    requires s.stack != [] && s.stack[0] == n && s.cycles == []
    ensures Record(s, n) == s.(cycles := [s.stack + [n]])
  {
    assert IndexOf(s.stack, n) == 0 && s.stack[0..] == s.stack;
  }

  lemma {:induction false} WalkFromD(nodes: seq<Id>, s: Search)
    requires |nodes| == 4 && NoRepeats(nodes) && Coloured(s, nodes, [Grey, Grey, White, White])
    requires s.stack == [nodes[0], nodes[1]] && s.cycles == []
    ensures nodes[3] in WhiteNodes(s)
    ensures var r := Walk(Diamond(nodes[0], nodes[1], nodes[2], nodes[3]), nodes[3], s);
      Coloured(r, nodes, [Grey, Grey, White, Black]) && r.stack == s.stack &&
      r.cycles == [[nodes[0], nodes[1], nodes[3], nodes[0]]]
  {
    hide Walk, Visit, Examine, Record, IndexOf, NoRepeats, Diamond;
    var g, inD := Diamond(nodes[0], nodes[1], nodes[2], nodes[3]), Enter(s, nodes[3]);
    DiamondSteps(nodes);
    OneDependent(g, nodes[3], nodes[0], s);
    Recoloured(s, nodes, [Grey, Grey, White, White], 3);
    ExamineByColour(g, nodes[0], inD, 1);
    RecordFirst(inD, nodes[0]);
    assert inD.stack + [nodes[0]] == [nodes[0], nodes[1], nodes[3], nodes[0]];
    var t := Record(inD, nodes[0]);
    assert t.colour == inD.colour && t.stack == inD.stack;
    Recoloured(t, nodes, [Grey, Grey, White, Grey], 3);
  }

  lemma {:induction false} WalkFromB(nodes: seq<Id>, s: Search)
    requires |nodes| == 4 && NoRepeats(nodes) && Coloured(s, nodes, [Grey, White, White, White])
    requires s.stack == [nodes[0]] && s.cycles == []
    ensures nodes[1] in WhiteNodes(s)
    ensures var r := Walk(Diamond(nodes[0], nodes[1], nodes[2], nodes[3]), nodes[1], s);
      Coloured(r, nodes, [Grey, Black, White, Black]) && r.stack == s.stack &&
      r.cycles == [[nodes[0], nodes[1], nodes[3], nodes[0]]]
  {
    hide Walk, Visit, Examine, NoRepeats, Diamond;
    var g, inB := Diamond(nodes[0], nodes[1], nodes[2], nodes[3]), Enter(s, nodes[1]);
    DiamondSteps(nodes);
    OneDependent(g, nodes[1], nodes[3], s);
    Recoloured(s, nodes, [Grey, White, White, White], 1);
    ExamineByColour(g, nodes[3], inB, 1);
    WalkFromD(nodes, inB);
    Recoloured(Walk(g, nodes[3], inB), nodes, [Grey, Grey, White, Black], 1);
  }

  lemma {:induction false} WalkFromC(nodes: seq<Id>, s: Search)
    requires |nodes| == 4 && NoRepeats(nodes) && Coloured(s, nodes, [Grey, Black, White, Black])
    ensures nodes[2] in WhiteNodes(s)
    ensures var r := Walk(Diamond(nodes[0], nodes[1], nodes[2], nodes[3]), nodes[2], s);
      Coloured(r, nodes, [Grey, Black, Black, Black]) && r.cycles == s.cycles
  {
    hide Walk, Visit, Examine, NoRepeats, Diamond;
    var g, inC := Diamond(nodes[0], nodes[1], nodes[2], nodes[3]), Enter(s, nodes[2]);
    DiamondSteps(nodes);
    OneDependent(g, nodes[2], nodes[3], s);
    Recoloured(s, nodes, [Grey, Black, White, Black], 2);
    ExamineByColour(g, nodes[3], inC, 1);
    Recoloured(inC, nodes, [Grey, Black, Grey, Black], 2);
  }

  lemma {:induction false} WalkFromA(nodes: seq<Id>, s: Search)
    requires |nodes| == 4 && NoRepeats(nodes) && Coloured(s, nodes, [White, White, White, White])
    requires s.stack == [] && s.cycles == []
    ensures nodes[0] in WhiteNodes(s)
    ensures var r := Walk(Diamond(nodes[0], nodes[1], nodes[2], nodes[3]), nodes[0], s);
      Coloured(r, nodes, [Black, Black, Black, Black]) && r.cycles == [[nodes[0], nodes[1], nodes[3], nodes[0]]]
  {
    hide Walk, Visit, Examine, NoRepeats, Diamond;
    var g, inA := Diamond(nodes[0], nodes[1], nodes[2], nodes[3]), Enter(s, nodes[0]);
    DiamondSteps(nodes);
    TwoDependents(g, nodes[0], nodes[1], nodes[2], s);
    Recoloured(s, nodes, [White, White, White, White], 0);
    ExamineByColour(g, nodes[1], inA, 1);
    WalkFromB(nodes, inA);
    var t := Walk(g, nodes[1], inA);
    ExamineByColour(g, nodes[2], t, 2);
    WalkFromC(nodes, t);
    Recoloured(Walk(g, nodes[2], t), nodes, [Grey, Black, Black, Black], 0);
  }

  lemma {:induction false} DifferentNodes(p: seq<Id>, q: seq<Id>, n: Id)
    requires n in Nodes(p) && n !in Nodes(q)
    ensures !SameCycle(p, q)
  {
    forall x, y | Nodes(p) == x + y ensures Nodes(q) != y + x {
      assert n in x + y ==> n in y + x;
    }
  }

  lemma {:induction false} DiamondCycles(a: Id, b: Id, c: Id, d: Id)
    requires NoRepeats([a, b, c, d])
    ensures IsSimpleCycle(Diamond(a, b, c, d), [a, b, d, a]) && IsSimpleCycle(Diamond(a, b, c, d), [a, c, d, a])
    ensures !SameCycle([a, c, d, a], [a, b, d, a])
  {
    assert [a, b, c, d][0] == a && [a, b, c, d][1] == b && [a, b, c, d][2] == c && [a, b, c, d][3] == d;
    assert Nodes([a, c, d, a]) == [a, c, d] && Nodes([a, b, d, a]) == [a, b, d];
    assert c in [a, c, d] && c !in [a, b, d];
    DifferentNodes([a, c, d, a], [a, b, d, a], c);
  }

  lemma {:induction false} DiamondReports(a: Id, b: Id, c: Id, d: Id)
    requires NoRepeats([a, b, c, d])
    ensures CyclesOf(Diamond(a, b, c, d), [a, b, c, d]) == [[a, b, d, a]]
  {
    var g, keys := Diamond(a, b, c, d), [a, b, c, d];
    var s := Fresh(g);
    assert Coloured(s, keys, [White, White, White, White]);
    WalkFromA(keys, s);
    hide Walk, NoRepeats;
    var done := FromRoots(g, keys, 1);
    assert FromRoots(g, keys, 0) == s && done == Walk(g, a, s);
    assert Coloured(done, keys, [Black, Black, Black, Black]);
    assert FromRoots(g, keys, 2) == done && FromRoots(g, keys, 3) == done && FromRoots(g, keys, 4) == done;
  }

  /** The comment at line 244 says that every cycle is reported. Two cycles that
      share the step from d to a are found through their first branch only. */
  lemma {:induction false} NotEveryCycleIsReported(a: Id, b: Id, c: Id, d: Id)
    requires NoRepeats([a, b, c, d])
    ensures IsSimpleCycle(Diamond(a, b, c, d), [a, b, d, a]) && IsSimpleCycle(Diamond(a, b, c, d), [a, c, d, a])
    ensures CyclesOf(Diamond(a, b, c, d), [a, b, c, d]) == [[a, b, d, a]]
    ensures !Reported(CyclesOf(Diamond(a, b, c, d), [a, b, c, d]), [a, c, d, a])
  {
    DiamondCycles(a, b, c, d);
    DiamondReports(a, b, c, d);
    hide CyclesOf, SameCycle, IsSimpleCycle, NoRepeats;
  }
}
