/** The status of every rule, propagated along dependencies: the memoised recursion and its closed form. */
module Status {
  import opened Ordering
  import opened DependencyGraph
  import opened Capabilities
  import opened Coverage

  datatype DetectionStatus = IsDetected | NotDetected | InsufficientCoverage

  datatype RuleState = RuleState(status: DetectionStatus, incompleteSources: seq<string>, requiredSources: seq<string>)

  /** What is known of one rule before its dependencies are considered. */
  datatype RuleFacts = RuleFacts(detected: bool, own: CoverageState, incomplete: seq<string>, required: seq<string>)

  type FactTable = map<string, RuleFacts>

  /** A rule is detected only with its dependencies, and its own coverage says matched exactly then. */
  ghost predicate Consistent(g: Graph<string>, facts: FactTable) {
    && facts.Keys == g.Keys
    && Closed(g) && Acyclic(g)
    && (forall id | id in g :: facts[id].own == Matched <==> facts[id].detected)
    && (forall id | id in g :: facts[id].own != Unknown ==> facts[id].incomplete == [])
    && (forall id | id in g :: Lists(facts[id].required, Elements(facts[id].required)))
    && (forall id, dep | IsEdge(g, id, dep) && facts[id].detected :: facts[dep].detected)
  }

  // ----- One step of the recursion -----

  /** What the loop over the dependencies accumulates. */
  datatype Gathered = Gathered(unknown: bool, notDetected: bool, incomplete: set<string>, required: set<string>)

  ghost function Gather(states: seq<RuleState>): Gathered {
    if states == [] then Gathered(false, false, {}, {})
    else
      var so := Gather(states[..|states| - 1]);
      var s := states[|states| - 1];
      Gathered(so.unknown || s.status == InsufficientCoverage,
               so.notDetected || s.status == NotDetected,
               if s.status == InsufficientCoverage then so.incomplete + Elements(s.incompleteSources) else so.incomplete,
               so.required + Elements(s.requiredSources))
  }

  ghost function Conclude(f: RuleFacts, below: Gathered): RuleState {
    var required := ListOf(Elements(f.required) + below.required);
    if f.detected then RuleState(IsDetected, [], f.required)
    else if f.own == NotMatched || below.notDetected then RuleState(NotDetected, [], required)
    else if below.unknown then
      RuleState(InsufficientCoverage, ListOf(Elements(f.incomplete) + below.incomplete), required)
    else if f.own == Unknown then RuleState(InsufficientCoverage, ListOf(Elements(f.incomplete)), required)
    else RuleState(NotDetected, [], required)
  }

  function StatesOf(answers: map<string, RuleState>, ids: seq<string>): (r: seq<RuleState>)
    requires forall i | 0 <= i < |ids| :: ids[i] in answers
    ensures |r| == |ids|
  {
    seq(|ids|, i requires 0 <= i < |ids| => answers[ids[i]])
  }

  /** answers solves the recursion. */
  ghost predicate Solves(g: Graph<string>, facts: FactTable, answers: map<string, RuleState>) {
    && facts.Keys == g.Keys == answers.Keys && Closed(g)
    && forall id | id in g ::
         && (forall i | 0 <= i < |g[id]| :: g[id][i] in answers)
         && answers[id] == Conclude(facts[id], Gather(StatesOf(answers, g[id])))
  }

  // ----- The closed form -----

  /** Some rule in the closure of the requirements is conclusively out of reach. */
  ghost predicate Refuted(g: Graph<string>, facts: FactTable, id: string)
    requires facts.Keys == g.Keys && Closed(g)
  {
    exists below :: below in facts && Reaches(g, id, below) && facts[below].own == NotMatched
  }

  ghost function StatusOf(g: Graph<string>, facts: FactTable, id: string): DetectionStatus
    requires facts.Keys == g.Keys && Closed(g) && id in g
  {
    if facts[id].detected then IsDetected else if Refuted(g, facts, id) then NotDetected else InsufficientCoverage
  }

  /** The channels that leave open the rules below that are not detected. */
  ghost function OpenSources(g: Graph<string>, facts: FactTable, id: string): set<string>
    requires facts.Keys == g.Keys
  {
    set below, x | below in facts && Reaches(g, id, below) && !facts[below].detected && x in facts[below].incomplete :: x
  }

  /** A rule consults itself and the dependencies of every undetected rule that it reaches. */
  ghost predicate Consults(g: Graph<string>, facts: FactTable, id: string, below: string)
    requires facts.Keys == g.Keys
  {
    below == id || exists via :: via in facts && Reaches(g, id, via) && !facts[via].detected && IsEdge(g, via, below)
  }

  ghost function ConsultedSources(g: Graph<string>, facts: FactTable, id: string): set<string>
    requires facts.Keys == g.Keys
  {
    set below, x | below in facts && Consults(g, facts, id, below) && x in facts[below].required :: x
  }

  ghost function AnswerFor(g: Graph<string>, facts: FactTable, id: string): RuleState
    requires facts.Keys == g.Keys && Closed(g) && id in g
  {
    var status := StatusOf(g, facts, id);
    RuleState(status,
              if status == InsufficientCoverage then ListOf(OpenSources(g, facts, id)) else [],
              ListOf(ConsultedSources(g, facts, id)))
  }

  ghost function Answers(g: Graph<string>, facts: FactTable): map<string, RuleState>
    requires facts.Keys == g.Keys && Closed(g)
  {
    map id | id in g :: AnswerFor(g, facts, id)
  }

  // ----- The closed form solves the recursion -----

  lemma {:induction false} DetectedDown(g: Graph<string>, facts: FactTable, path: seq<string>)
    requires Consistent(g, facts) && IsPath(g, path) && facts[path[0]].detected
    ensures path[|path| - 1] in facts && facts[path[|path| - 1]].detected
    decreases |path|
  {
    if |path| > 1 {
      assert IsEdge(g, path[0], path[1]);
      DetectedDown(g, facts, path[1..]);
    }
  }

  lemma DetectedBelow(g: Graph<string>, facts: FactTable, id: string, below: string)
    requires Consistent(g, facts) && Reaches(g, id, below) && facts[id].detected
    ensures below in facts && facts[below].detected
  {
    var path :| IsPathBetween(g, path, id, below);
    DetectedDown(g, facts, path);
  }

  lemma StatusUnfold(g: Graph<string>, facts: FactTable, id: string)
    requires Consistent(g, facts) && id in g && !facts[id].detected
    ensures forall dep | dep in g[id] :: dep in g
    ensures Refuted(g, facts, id) <==>
            facts[id].own == NotMatched || exists dep :: dep in g[id] && StatusOf(g, facts, dep) == NotDetected
  {
    forall dep | dep in g[id] ensures dep in g { assert IsEdge(g, id, dep); }
    ReachesSelf(g, id);
    if Refuted(g, facts, id) {
      var below :| below in facts && Reaches(g, id, below) && facts[below].own == NotMatched;
      if below != id {
        ReachesUnfold(g, id, below);
        var mid :| IsEdge(g, id, mid) && Reaches(g, mid, below);
        if facts[mid].detected { DetectedBelow(g, facts, mid, below); }
        assert StatusOf(g, facts, mid) == NotDetected;
      }
    }
    if dep :| dep in g[id] && StatusOf(g, facts, dep) == NotDetected {
      var below :| below in facts && Reaches(g, dep, below) && facts[below].own == NotMatched;
      EdgeReaches(g, id, dep, below);
    }
  }

  lemma OpenUnfold(g: Graph<string>, facts: FactTable, id: string)
    requires Consistent(g, facts) && id in g && !facts[id].detected && !Refuted(g, facts, id)
    ensures forall x :: x in OpenSources(g, facts, id) <==>
              x in facts[id].incomplete
              || exists dep :: dep in g[id] && dep in g && StatusOf(g, facts, dep) == InsufficientCoverage && x in OpenSources(g, facts, dep)
  {
    ReachesSelf(g, id);
    StatusUnfold(g, facts, id);
    forall x | x in OpenSources(g, facts, id) && x !in facts[id].incomplete
      ensures exists dep :: dep in g[id] && dep in g && StatusOf(g, facts, dep) == InsufficientCoverage && x in OpenSources(g, facts, dep)
    {
      var below :| below in facts && Reaches(g, id, below) && !facts[below].detected && x in facts[below].incomplete;
      ReachesUnfold(g, id, below);
      var mid :| IsEdge(g, id, mid) && Reaches(g, mid, below);
      if facts[mid].detected { DetectedBelow(g, facts, mid, below); }
      assert x in OpenSources(g, facts, mid);
    }
    forall dep, x | dep in g[id] && dep in g && x in OpenSources(g, facts, dep) ensures x in OpenSources(g, facts, id) {
      var below :| below in facts && Reaches(g, dep, below) && !facts[below].detected && x in facts[below].incomplete;
      EdgeReaches(g, id, dep, below);
    }
  }

  lemma ConsultsUnfold(g: Graph<string>, facts: FactTable, id: string, below: string)
    requires Consistent(g, facts) && id in g && !facts[id].detected
    ensures Consults(g, facts, id, below) <==> below == id || exists dep :: dep in g[id] && Consults(g, facts, dep, below)
  {
    ReachesSelf(g, id);
    if Consults(g, facts, id, below) && below != id {
      var via :| via in facts && Reaches(g, id, via) && !facts[via].detected && IsEdge(g, via, below);
      if via == id {
        assert below in g[id] && Consults(g, facts, below, below);
      } else {
        ReachesUnfold(g, id, via);
        var mid :| IsEdge(g, id, mid) && Reaches(g, mid, via);
        assert mid in g[id] && Consults(g, facts, mid, below);
      }
    }
    if dep :| dep in g[id] && Consults(g, facts, dep, below) {
      if dep == below {
        assert IsEdge(g, id, below);
      } else {
        var via :| via in facts && Reaches(g, dep, via) && !facts[via].detected && IsEdge(g, via, below);
        EdgeReaches(g, id, dep, via);
      }
    }
  }

  lemma ConsultedUnfold(g: Graph<string>, facts: FactTable, id: string)
    requires Consistent(g, facts) && id in g && !facts[id].detected
    ensures forall x :: x in ConsultedSources(g, facts, id) <==>
              x in facts[id].required || exists dep :: dep in g[id] && x in ConsultedSources(g, facts, dep)
  {
    forall x | x in ConsultedSources(g, facts, id) && x !in facts[id].required
      ensures exists dep :: dep in g[id] && x in ConsultedSources(g, facts, dep)
    {
      var below :| below in facts && Consults(g, facts, id, below) && x in facts[below].required;
      ConsultsUnfold(g, facts, id, below);
      var dep :| dep in g[id] && Consults(g, facts, dep, below);
      assert x in ConsultedSources(g, facts, dep);
    }
    forall dep, x | dep in g[id] && x in ConsultedSources(g, facts, dep) ensures x in ConsultedSources(g, facts, id) {
      var below :| below in facts && Consults(g, facts, dep, below) && x in facts[below].required;
      ConsultsUnfold(g, facts, id, below);
    }
    assert Consults(g, facts, id, id);
  }

  lemma ConsultedDetected(g: Graph<string>, facts: FactTable, id: string)
    requires Consistent(g, facts) && id in g && facts[id].detected
    ensures ConsultedSources(g, facts, id) == Elements(facts[id].required)
  {
    forall below | below in facts && Consults(g, facts, id, below) ensures below == id {
      if below != id {
        var via :| via in facts && Reaches(g, id, via) && !facts[via].detected && IsEdge(g, via, below);
        DetectedBelow(g, facts, id, via);
      }
    }
    assert Consults(g, facts, id, id);
  }

  lemma {:induction false} GatherMeans(states: seq<RuleState>)
    ensures Gather(states).unknown <==> exists i :: 0 <= i < |states| && states[i].status == InsufficientCoverage
    ensures Gather(states).notDetected <==> exists i :: 0 <= i < |states| && states[i].status == NotDetected
    ensures forall x :: x in Gather(states).incomplete <==>
              exists i :: 0 <= i < |states| && states[i].status == InsufficientCoverage && x in states[i].incompleteSources
    ensures forall x :: x in Gather(states).required <==> exists i :: 0 <= i < |states| && x in states[i].requiredSources
  {
    if states != [] {
      var init := states[..|states| - 1];
      GatherMeans(init);
      assert forall i | 0 <= i < |init| :: init[i] == states[i];
    }
  }

  /** The states of the dependencies of one rule. */
  ghost function DependencyStates(g: Graph<string>, facts: FactTable, ids: seq<string>): seq<RuleState>
    requires facts.Keys == g.Keys && Closed(g) && forall i | 0 <= i < |ids| :: ids[i] in g
  {
    StatesOf(Answers(g, facts), ids)
  }

  lemma DependencyStateAt(g: Graph<string>, facts: FactTable, ids: seq<string>, i: nat)
    requires facts.Keys == g.Keys && Closed(g) && (forall i | 0 <= i < |ids| :: ids[i] in g) && i < |ids|
    ensures var s := DependencyStates(g, facts, ids)[i];
            && s.status == StatusOf(g, facts, ids[i])
            && (s.status == InsufficientCoverage ==>
                  forall x :: x in s.incompleteSources <==> x in OpenSources(g, facts, ids[i]))
            && (forall x :: x in s.requiredSources <==> x in ConsultedSources(g, facts, ids[i]))
  {
    var s := DependencyStates(g, facts, ids)[i];
    assert s == AnswerFor(g, facts, ids[i]);
    var consulted := ConsultedSources(g, facts, ids[i]);
    assert Elements(s.requiredSources) == consulted;
    forall x ensures x in s.requiredSources <==> x in consulted { assert x in s.requiredSources <==> x in Elements(s.requiredSources); }
    if s.status == InsufficientCoverage {
      var open := OpenSources(g, facts, ids[i]);
      assert Elements(s.incompleteSources) == open;
      forall x ensures x in s.incompleteSources <==> x in open { assert x in s.incompleteSources <==> x in Elements(s.incompleteSources); }
    }
  }

  lemma GatherFlags(g: Graph<string>, facts: FactTable, ids: seq<string>)
    requires facts.Keys == g.Keys && Closed(g) && forall i | 0 <= i < |ids| :: ids[i] in g
    ensures var below := Gather(DependencyStates(g, facts, ids));
            && (below.unknown <==> exists i :: 0 <= i < |ids| && StatusOf(g, facts, ids[i]) == InsufficientCoverage)
            && (below.notDetected <==> exists i :: 0 <= i < |ids| && StatusOf(g, facts, ids[i]) == NotDetected)
  {
    var states := DependencyStates(g, facts, ids);
    GatherMeans(states);
    forall i | 0 <= i < |ids| ensures states[i].status == StatusOf(g, facts, ids[i]) { DependencyStateAt(g, facts, ids, i); }
  }

  lemma GatherIncomplete(g: Graph<string>, facts: FactTable, ids: seq<string>, x: string)
    requires facts.Keys == g.Keys && Closed(g) && forall i | 0 <= i < |ids| :: ids[i] in g
    ensures x in Gather(DependencyStates(g, facts, ids)).incomplete <==>
            exists i :: 0 <= i < |ids| && StatusOf(g, facts, ids[i]) == InsufficientCoverage && x in OpenSources(g, facts, ids[i])
  {
    var states := DependencyStates(g, facts, ids);
    GatherMeans(states);
    forall i | 0 <= i < |ids|
      ensures states[i].status == StatusOf(g, facts, ids[i])
      ensures states[i].status == InsufficientCoverage ==> (x in states[i].incompleteSources <==> x in OpenSources(g, facts, ids[i]))
    {
      DependencyStateAt(g, facts, ids, i);
    }
  }

  lemma GatherRequired(g: Graph<string>, facts: FactTable, ids: seq<string>, x: string)
    requires facts.Keys == g.Keys && Closed(g) && forall i | 0 <= i < |ids| :: ids[i] in g
    ensures x in Gather(DependencyStates(g, facts, ids)).required <==>
            exists i :: 0 <= i < |ids| && x in ConsultedSources(g, facts, ids[i])
  {
    var states := DependencyStates(g, facts, ids);
    GatherMeans(states);
    forall i | 0 <= i < |ids| ensures x in states[i].requiredSources <==> x in ConsultedSources(g, facts, ids[i]) {
      DependencyStateAt(g, facts, ids, i);
    }
  }

  lemma RequiredSolves(g: Graph<string>, facts: FactTable, id: string)
    requires Consistent(g, facts) && id in g && !facts[id].detected && forall i | 0 <= i < |g[id]| :: g[id][i] in g
    ensures ConsultedSources(g, facts, id) == Elements(facts[id].required) + Gather(DependencyStates(g, facts, g[id])).required
  {
    ConsultedUnfold(g, facts, id);
    forall x ensures x in Gather(DependencyStates(g, facts, g[id])).required <==> exists dep :: dep in g[id] && x in ConsultedSources(g, facts, dep) {
      GatherRequired(g, facts, g[id], x);
    }
  }

  lemma StatusSolves(g: Graph<string>, facts: FactTable, id: string)
    requires Consistent(g, facts) && id in g && !facts[id].detected && forall i | 0 <= i < |g[id]| :: g[id][i] in g
    ensures var below := Gather(DependencyStates(g, facts, g[id]));
            Refuted(g, facts, id) <==> facts[id].own == NotMatched || below.notDetected
  {
    StatusUnfold(g, facts, id);
    GatherFlags(g, facts, g[id]);
  }

  lemma OpenSolves(g: Graph<string>, facts: FactTable, id: string)
    requires Consistent(g, facts) && id in g && !facts[id].detected && forall i | 0 <= i < |g[id]| :: g[id][i] in g
    requires !Refuted(g, facts, id)
    ensures var below := Gather(DependencyStates(g, facts, g[id]));
            && OpenSources(g, facts, id) == Elements(facts[id].incomplete) + below.incomplete
            && (!below.unknown ==> below.incomplete == {})
  {
    var below := Gather(DependencyStates(g, facts, g[id]));
    OpenUnfold(g, facts, id);
    GatherFlags(g, facts, g[id]);
    forall x ensures x in below.incomplete <==>
      exists dep :: dep in g[id] && dep in g && StatusOf(g, facts, dep) == InsufficientCoverage && x in OpenSources(g, facts, dep)
    {
      GatherIncomplete(g, facts, g[id], x);
    }
    if !below.unknown {
      forall x ensures x !in below.incomplete { GatherIncomplete(g, facts, g[id], x); }
    }
  }

  lemma AnswerSolves(g: Graph<string>, facts: FactTable, id: string)
    requires Consistent(g, facts) && id in g && forall i | 0 <= i < |g[id]| :: g[id][i] in g
    ensures AnswerFor(g, facts, id) == Conclude(facts[id], Gather(DependencyStates(g, facts, g[id])))
  {
    if facts[id].detected {
      ConsultedDetected(g, facts, id);
      ListOfUnique(facts[id].required, Elements(facts[id].required));
    } else {
      RequiredSolves(g, facts, id);
      StatusSolves(g, facts, id);
      if !Refuted(g, facts, id) {
        OpenSolves(g, facts, id);
        assert facts[id].own == Unknown;
        assert Elements(facts[id].incomplete) + {} == Elements(facts[id].incomplete);
      }
    }
  }

  /** The closed form is what the recursion computes. */
  lemma AnswersSolve(g: Graph<string>, facts: FactTable)
    requires Consistent(g, facts)
    ensures Solves(g, facts, Answers(g, facts))
  {
    forall id | id in g
      ensures forall i | 0 <= i < |g[id]| :: g[id][i] in Answers(g, facts)
      ensures Answers(g, facts)[id] == Conclude(facts[id], Gather(StatesOf(Answers(g, facts), g[id])))
    {
      forall i | 0 <= i < |g[id]| ensures g[id][i] in g { assert IsEdge(g, id, g[id][i]); }
      AnswerSolves(g, facts, id);
    }
  }
}
