/** The graph of rule dependencies: reachability, cycles, and the depth-first search that rejects cycles. */
module DependencyGraph {

  /** Every rule ID with the IDs that the rule requires, in document order. */
  type Graph<T> = map<T, seq<T>>

  /** Every required ID is the ID of a rule. */
  ghost predicate Closed<T(!new)>(g: Graph<T>) {
    forall id, dep | id in g && dep in g[id] :: dep in g
  }

  ghost predicate IsEdge<T(!new)>(g: Graph<T>, from: T, to: T) {
    from in g && to in g[from]
  }

  /** A walk along dependencies. */
  ghost predicate IsPath<T(!new)>(g: Graph<T>, path: seq<T>) {
    && path != []
    && path[0] in g
    && (|path| == 1 || (path[1] in g[path[0]] && IsPath(g, path[1..])))
  }

  ghost predicate IsPathBetween<T(!new)>(g: Graph<T>, path: seq<T>, from: T, to: T) {
    IsPath(g, path) && path[0] == from && path[|path| - 1] == to
  }

  /** The reflexive and transitive closure of the dependencies. */
  ghost predicate Reaches<T(!new)>(g: Graph<T>, from: T, to: T) {
    exists path :: IsPathBetween(g, path, from, to)
  }

  /** Some walk of at least one step leads from the rule back to itself. */
  ghost predicate OnCycle<T(!new)>(g: Graph<T>, id: T) {
    exists path :: IsPathBetween(g, path, id, id) && |path| >= 2
  }

  ghost predicate Acyclic<T(!new)>(g: Graph<T>) {
    forall id | id in g :: !OnCycle(g, id)
  }

  // ----- Reachability -----

  lemma ReachesSelf<T(!new)>(g: Graph<T>, id: T)
    requires id in g
    ensures Reaches(g, id, id)
  {
    assert IsPathBetween(g, [id], id, id);
  }

  lemma {:induction false} PathAppend<T(!new)>(g: Graph<T>, path: seq<T>, to: T)
    requires Closed(g) && IsPath(g, path) && IsEdge(g, path[|path| - 1], to)
    ensures IsPath(g, path + [to])
  {
    if |path| == 1 {
      assert (path + [to])[1..] == [to];
    } else {
      PathAppend(g, path[1..], to);
      assert (path + [to])[1..] == path[1..] + [to];
    }
  }

  lemma ReachesEdge<T(!new)>(g: Graph<T>, from: T, mid: T, to: T)
    requires Closed(g) && Reaches(g, from, mid) && IsEdge(g, mid, to)
    ensures Reaches(g, from, to)
  {
    var path :| IsPathBetween(g, path, from, mid);
    PathAppend(g, path, to);
    assert IsPathBetween(g, path + [to], from, to);
  }

  lemma EdgeReaches<T(!new)>(g: Graph<T>, from: T, mid: T, to: T)
    requires IsEdge(g, from, mid) && Reaches(g, mid, to)
    ensures Reaches(g, from, to)
  {
    var path :| IsPathBetween(g, path, mid, to);
    assert ([from] + path)[1..] == path;
    assert IsPathBetween(g, [from] + path, from, to);
  }

  /** What a rule reaches is itself, or reached by one of its dependencies. */
  lemma ReachesUnfold<T(!new)>(g: Graph<T>, from: T, to: T)
    requires Reaches(g, from, to) && from != to
    ensures exists mid :: IsEdge(g, from, mid) && Reaches(g, mid, to)
  {
    var path :| IsPathBetween(g, path, from, to);
    assert IsEdge(g, from, path[1]) && IsPathBetween(g, path[1..], path[1], to);
  }

  /** What a rule reaches is itself, or a dependency of something it reaches. */
  lemma {:induction false} LastEdge<T(!new)>(g: Graph<T>, path: seq<T>)
    requires IsPath(g, path) && |path| >= 2
    ensures IsEdge(g, path[|path| - 2], path[|path| - 1]) && Reaches(g, path[0], path[|path| - 2])
  {
    if |path| == 2 {
      ReachesSelf(g, path[0]);
    } else {
      LastEdge(g, path[1..]);
      EdgeReaches(g, path[0], path[1], path[|path| - 2]);
    }
  }

  /** A set that contains its members' dependencies contains everything they reach. */
  lemma {:induction false} ClosedUnderReach<T(!new)>(g: Graph<T>, inside: set<T>, path: seq<T>)
    requires IsPath(g, path) && path[0] in inside
    requires forall id, dep | id in inside && id in g && dep in g[id] :: dep in inside
    ensures path[|path| - 1] in inside
    decreases |path|
  {
    if |path| > 1 {
      ClosedUnderReach(g, inside, path[1..]);
    }
  }

  /** A rule none of whose dependencies reaches it is on no cycle. */
  lemma OnCycleUnfold<T(!new)>(g: Graph<T>, id: T)
    requires OnCycle(g, id)
    ensures exists dep :: IsEdge(g, id, dep) && Reaches(g, dep, id)
  {
    var path :| IsPathBetween(g, path, id, id) && |path| >= 2;
    assert IsEdge(g, id, path[1]) && IsPathBetween(g, path[1..], path[1], id);
  }

  lemma EdgeIntoCycle<T(!new)>(g: Graph<T>, first: T, last: T)
    requires Closed(g) && Reaches(g, first, last) && IsEdge(g, last, first)
    ensures OnCycle(g, first)
  {
    var path :| IsPathBetween(g, path, first, last);
    PathAppend(g, path, first);
    assert IsPathBetween(g, path + [first], first, first);
  }

  // ----- Properties that pass along dependencies -----

  /** The rule and everything it requires, directly or not, is in good. */
  ghost predicate Supported<T(!new)>(g: Graph<T>, good: set<T>, id: T) {
    forall below | Reaches(g, id, below) :: below in good
  }

  /** Checking a rule and its direct dependencies is enough. */
  lemma SupportedUnfold<T(!new)>(g: Graph<T>, good: set<T>, id: T)
    requires id in g
    ensures Supported(g, good, id) <==> id in good && forall dep | dep in g[id] :: Supported(g, good, dep)
  {
    if Supported(g, good, id) {
      ReachesSelf(g, id);
      forall dep, below | dep in g[id] && Reaches(g, dep, below) ensures below in good {
        EdgeReaches(g, id, dep, below);
      }
    }
    if id in good && forall dep | dep in g[id] :: Supported(g, good, dep) {
      forall below | Reaches(g, id, below) ensures below in good {
        if below != id {
          ReachesUnfold(g, id, below);
          var mid :| IsEdge(g, id, mid) && Reaches(g, mid, below);
          assert Supported(g, good, mid);
        }
      }
    }
  }

  /** Everything that a rule reaches. */
  ghost function ReachSet<T(!new)>(g: Graph<T>, id: T): set<T> {
    set below | below in g && Reaches(g, id, below)
  }

  /** How many rules a rule reaches: a measure that falls along dependencies where there is no cycle. */
  ghost function Ranks<T(!new)>(g: Graph<T>): map<T, nat> {
    map id | id in g :: |ReachSet(g, id)|
  }

  lemma RankFalls<T(!new)>(g: Graph<T>, id: T, dep: T)
    requires Closed(g) && Acyclic(g) && IsEdge(g, id, dep)
    ensures dep in Ranks(g) && Ranks(g)[dep] < Ranks(g)[id]
  {
    ReachesSelf(g, id);
    if Reaches(g, dep, id) { EdgeIntoCycle(g, dep, id); }
    forall below | below in ReachSet(g, dep) ensures below in ReachSet(g, id) { EdgeReaches(g, id, dep, below); }
    SubsetSmaller(ReachSet(g, dep), ReachSet(g, id), id);
  }

  // ----- The depth-first search -----

  datatype Mark = Visiting | Visited

  ghost function Marked<T(!new)>(states: map<T, Mark>, mark: Mark): set<T> {
    set id | id in states && states[id] == mark
  }

  ghost predicate Finished<T>(states: map<T, Mark>, id: T) {
    id in states && states[id] == Visited
  }

  ghost predicate AllFinished<T>(states: map<T, Mark>, ids: seq<T>) {
    forall i | 0 <= i < |ids| :: Finished(states, ids[i])
  }

  /** Finished rules lie on no cycle and require only finished rules. */
  ghost predicate Sound<T(!new)>(g: Graph<T>, states: map<T, Mark>) {
    && states.Keys <= g.Keys
    && (forall id | Finished(states, id) :: !OnCycle(g, id) && AllFinished(states, g[id]))
  }

  /** Later in the search: finished rules stay finished, and the same rules are open. */
  ghost predicate Later<T(!new)>(before: map<T, Mark>, after: map<T, Mark>) {
    && before.Keys <= after.Keys
    && (forall id | id in after && after[id] == Visiting :: id in before && before[id] == Visiting)
    && (forall id | id in before :: before[id] == after[id])
  }

  ghost predicate OpenReach<T(!new)>(g: Graph<T>, states: map<T, Mark>, id: T) {
    forall open | open in states && states[open] == Visiting :: Reaches(g, open, id)
  }

  lemma LaterTransitive<T(!new)>(a: map<T, Mark>, b: map<T, Mark>, c: map<T, Mark>)
    requires Later(a, b) && Later(b, c)
    ensures Later(a, c)
  {
  }

  lemma OneMoreFinished<T(!new)>(before: map<T, Mark>, after: map<T, Mark>, ids: seq<T>, i: nat)
    requires i < |ids| && AllFinished(before, ids[..i]) && Later(before, after) && Finished(after, ids[i])
    ensures AllFinished(after, ids[..i + 1])
  {
    var done := ids[..i + 1];
    forall j | 0 <= j < |done| ensures Finished(after, done[j]) {
      if j < i { assert Finished(before, ids[..i][j]); }
    }
  }

  lemma Enter<T(!new)>(g: Graph<T>, states: map<T, Mark>, id: T)
    requires Sound(g, states) && id in g && id !in states && OpenReach(g, states, id)
    ensures Sound(g, states[id := Visiting]) && OpenReach(g, states[id := Visiting], id)
  {
    ReachesSelf(g, id);
  }

  lemma Leave<T(!new)>(g: Graph<T>, before: map<T, Mark>, id: T, after: map<T, Mark>)
    requires Closed(g) && id in g && id !in before && Sound(g, after)
    requires Later(before[id := Visiting], after) && AllFinished(after, g[id])
    ensures Sound(g, after[id := Visited]) && Later(before, after[id := Visited])
  {
    if OnCycle(g, id) {
      OnCycleUnfold(g, id);
      var dep :| IsEdge(g, id, dep) && Reaches(g, dep, id);
      var path :| IsPathBetween(g, path, dep, id);
      assert before[id := Visiting][id] == Visiting;
      ClosedUnderReach(g, Marked(after, Visited), path);
      assert false;
    }
  }

  /** Descending along an edge, the open rules still reach the search, and meeting one of them is a cycle. */
  lemma Descend<T(!new)>(g: Graph<T>, states: map<T, Mark>, from: T, to: T)
    requires Closed(g) && IsEdge(g, from, to) && OpenReach(g, states, from)
    ensures OpenReach(g, states, to)
    ensures to in states && states[to] == Visiting ==> OnCycle(g, to)
  {
    forall open | open in states && states[open] == Visiting ensures Reaches(g, open, to) {
      ReachesEdge(g, open, from, to);
    }
    if to in states && states[to] == Visiting { EdgeIntoCycle(g, to, from); }
  }

  /** The closure over states that validateDependencyGraph recurses through. */
  class CycleSearch<T(==,!new)> {
    const graph: Graph<T>
    var states: map<T, Mark>

    constructor (graph: Graph<T>)
      ensures this.graph == graph && states == map[]
    {
      this.graph := graph;
      states := map[];
    }

    /** False only where a cycle exists; on true the rule is finished and the open rules are as before. */
    method Visit(id: T) returns (ok: bool)
      requires Closed(graph) && Sound(graph, states) && id in graph && OpenReach(graph, states, id)
      requires id in states && states[id] == Visiting ==> OnCycle(graph, id)
      modifies this
      ensures Sound(graph, states)
      ensures ok ==> Later(old(states), states) && Finished(states, id)
      ensures !ok ==> old(states.Keys) <= states.Keys && !Acyclic(graph)
      decreases |graph.Keys - states.Keys|
    {
      if id in states && states[id] == Visiting {
        return false;
      }
      if id in states {
        return true;
      }
      Enter(graph, states, id);
      states := states[id := Visiting];
      ghost var entered := states;
      var dependencies := graph[id];
      for i := 0 to |dependencies|
        invariant Sound(graph, states) && Later(entered, states)
        invariant AllFinished(states, dependencies[..i])
      {
        var dependency := dependencies[i];
        assert IsEdge(graph, id, dependency);
        Descend(graph, states, id, dependency);
        SubsetSmaller(graph.Keys - states.Keys, graph.Keys - old(states.Keys), id);
        ghost var previous := states;
        var accepted := Visit(dependency);
        if !accepted {
          return false;
        }
        LaterTransitive(entered, previous, states);
        OneMoreFinished(previous, states, dependencies, i);
      }
      assert dependencies[..|dependencies|] == dependencies;
      Leave(graph, old(states), id, states);
      states := states[id := Visited];
      ok := true;
    }
  }

  lemma SubsetSmaller<T(!new)>(a: set<T>, b: set<T>, x: T)
    requires a <= b && x in b && x !in a
    ensures |a| < |b|
  {
    assert a <= b - {x};
    SubsetCardinality(a, b - {x});
  }

  lemma {:induction false} SubsetCardinality<T(!new)>(a: set<T>, b: set<T>)
    requires a <= b
    ensures |a| <= |b|
    decreases |a|
  {
    if a != {} {
      var x :| x in a;
      SubsetCardinality(a - {x}, b - {x});
    }
  }

  /** validateDependencyGraph: accepts exactly the graphs without a cycle. */
  method ValidateDependencyGraph<T(==,!new)>(ordered: seq<T>, graph: Graph<T>) returns (ok: bool)
    requires Closed(graph)
    requires forall id :: id in graph <==> id in ordered
    ensures ok <==> Acyclic(graph)
  {
    var search := new CycleSearch<T>(graph);
    for i := 0 to |ordered|
      invariant search.graph == graph && Sound(graph, search.states)
      invariant Marked(search.states, Visiting) == {} && AllFinished(search.states, ordered[..i])
    {
      ghost var previous := search.states;
      assert forall id | id in previous :: previous[id] == Visiting ==> id in Marked(previous, Visiting);
      var accepted := search.Visit(ordered[i]);
      if !accepted {
        return false;
      }
      OneMoreFinished(previous, search.states, ordered, i);
    }
    assert ordered[..|ordered|] == ordered;
    assert forall id | id in graph :: Finished(search.states, id);
    ok := true;
  }
}
