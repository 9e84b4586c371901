/** buildDetectionCoverage: the status of every rule of a scan, computed with a memo table over the dependencies. */
module Scanner {
  import opened DependencyGraph
  import opened Model
  import opened Ordering
  import opened Schema
  import opened SchemaValidation
  import opened Matching
  import opened Sums
  import opened Scoring
  import opened Detections
  import opened Coverage
  import opened Status

  // ----- Penalties already observed -----

  function Magnitude(x: real): real {
    if x < 0.0 then -x else x
  }

  function Magnitudes(scored: seq<ScoredEvidence>): (r: seq<real>)
    ensures |r| == |scored|
  {
    seq(|scored|, i requires 0 <= i < |scored| => Magnitude(scored[i].rawContribution))
  }

  function PenaltiesOf(conflicts: seq<Conflict>): (r: seq<real>)
    ensures |r| == |conflicts|
  {
    seq(|conflicts|, i requires 0 <= i < |conflicts| => conflicts[i].penalty)
  }

  ghost function ObservedPenalties(d: Detection): real {
    Total(Magnitudes(d.negative)) + Total(Magnitudes(d.ambiguous)) + Total(PenaltiesOf(d.appliedConflicts))
  }

  method SumMagnitudes(scored: seq<ScoredEvidence>) returns (total: real)
    ensures total == Total(Magnitudes(scored))
  {
    total := 0.0;
    for i := 0 to |scored|
      invariant total == Total(Magnitudes(scored)[..i])
    {
      assert Magnitudes(scored)[..i + 1][..i] == Magnitudes(scored)[..i];
      if scored[i].rawContribution < 0.0 {
        total := total + -scored[i].rawContribution;
      } else {
        total := total + scored[i].rawContribution;
      }
    }
    assert Magnitudes(scored)[..|scored|] == Magnitudes(scored);
  }

  method SumObservedPenalties(d: Detection) returns (total: real)
    ensures total == ObservedPenalties(d)
  {
    var negative := SumMagnitudes(d.negative);
    var ambiguous := SumMagnitudes(d.ambiguous);
    var applied := 0.0;
    for i := 0 to |d.appliedConflicts|
      invariant applied == Total(PenaltiesOf(d.appliedConflicts)[..i])
    {
      assert PenaltiesOf(d.appliedConflicts)[..i + 1][..i] == PenaltiesOf(d.appliedConflicts)[..i];
      applied := applied + d.appliedConflicts[i].penalty;
    }
    assert PenaltiesOf(d.appliedConflicts)[..|d.appliedConflicts|] == PenaltiesOf(d.appliedConflicts);
    total := negative + ambiguous + applied;
  }

  // ----- The memoised recursion -----

  ghost function FactsOf(r: Rule, c: ConditionCoverage, d: Detection): RuleFacts {
    var own := RuleCoverage(r, c, d.detected, ObservedPenalties(d));
    RuleFacts(d.detected, own.0, own.1, c.requiredSources)
  }

  /** Where the lookup tables put one rule in the recursion. rank falls along its dependencies. */
  ghost predicate ResolvesRule(
    r: Rule, c: ConditionCoverage, d: Detection, state: RuleState, bound: nat, answers: map<string, RuleState>, rank: map<string, nat>)
  {
    && Ranked(r.dependencies, rank, bound)
    && (forall i | 0 <= i < |r.dependencies| :: r.dependencies[i] in answers)
    && state == Conclude(FactsOf(r, c, d), Gather(StatesOf(answers, r.dependencies)))
  }

  /** answers solves the recursion that the lookup tables describe. */
  ghost predicate Resolves(
    byId: map<string, Rule>, conditions: map<string, ConditionCoverage>, detections: map<string, Detection>,
    answers: map<string, RuleState>, rank: map<string, nat>)
  {
    && byId.Keys == conditions.Keys == detections.Keys == answers.Keys == rank.Keys
    && forall id | id in byId :: ResolvesRule(byId[id], conditions[id], detections[id], answers[id], rank[id], answers, rank)
  }

  /** The loop state over the dependencies stands for what was gathered. */
  ghost predicate Tracks(
      below: Gathered, unknown: bool, notDetected: bool, incomplete: seq<string>, required: seq<string>, own: seq<string>) {
    && below.unknown == unknown && below.notDetected == notDetected
    && Elements(incomplete) == below.incomplete
    && Elements(required) == Elements(own) + below.required
  }

  lemma TracksStep(answers: map<string, RuleState>, ids: seq<string>, i: nat,
                   unknown: bool, notDetected: bool, incomplete: seq<string>, required: seq<string>, own: seq<string>)
    requires i < |ids| && forall j | 0 <= j < |ids| :: ids[j] in answers
    requires Tracks(Gather(StatesOf(answers, ids[..i])), unknown, notDetected, incomplete, required, own)
    ensures var s := answers[ids[i]];
            Tracks(Gather(StatesOf(answers, ids[..i + 1])), unknown || s.status == InsufficientCoverage,
                   notDetected || s.status == NotDetected,
                   if s.status == InsufficientCoverage then incomplete + s.incompleteSources else incomplete,
                   required + s.requiredSources, own)
  {
    var s := answers[ids[i]];
    assert StatesOf(answers, ids[..i + 1])[..i] == StatesOf(answers, ids[..i]);
    ElementsConcat(incomplete, s.incompleteSources);
    ElementsConcat(required, s.requiredSources);
  }

  /** The decisions that follow the loop over the dependencies. */
  method Decide(f: RuleFacts, ghost below: Gathered, unknown: bool, notDetected: bool, incomplete: seq<string>, required: seq<string>)
    returns (state: RuleState)
    requires !f.detected && Tracks(below, unknown, notDetected, incomplete, required, f.required)
    ensures state == Conclude(f, below)
  {
    var requiredSources := DeduplicateSorted(required);
    DeduplicatedList(requiredSources, required, Elements(f.required) + below.required);
    if f.own == NotMatched || notDetected {
      return RuleState(NotDetected, [], requiredSources);
    }
    if unknown {
      ElementsConcat(f.incomplete, incomplete);
      var combined := DeduplicateSorted(f.incomplete + incomplete);
      DeduplicatedList(combined, f.incomplete + incomplete, Elements(f.incomplete) + below.incomplete);
      return RuleState(InsufficientCoverage, combined, requiredSources);
    }
    if f.own == Unknown {
      var own := DeduplicateSorted(f.incomplete);
      DeduplicatedList(own, f.incomplete, Elements(f.incomplete));
      return RuleState(InsufficientCoverage, own, requiredSources);
    }
    state := RuleState(NotDetected, [], requiredSources);
  }

  /** The closure over evaluated and visiting that buildDetectionCoverage recurses through. */
  class CoverageResolver {
    const byId: map<string, Rule>
    const conditions: map<string, ConditionCoverage>
    const detections: map<string, Detection>
    var evaluated: map<string, RuleState>
    var visiting: set<string>
    ghost const answers: map<string, RuleState>
    ghost const rank: map<string, nat>

    ghost predicate Valid()
      reads this
    {
      && Resolves(byId, conditions, detections, answers, rank)
      && visiting <= byId.Keys
      && forall id | id in evaluated :: id in answers && evaluated[id] == answers[id]
    }

    constructor (byId: map<string, Rule>, conditions: map<string, ConditionCoverage>, detections: map<string, Detection>,
                 ghost answers: map<string, RuleState>, ghost rank: map<string, nat>)
      requires Resolves(byId, conditions, detections, answers, rank)
      ensures Valid() && this.byId == byId && this.answers == answers && visiting == {}
    {
      this.byId, this.conditions, this.detections, this.answers, this.rank := byId, conditions, detections, answers, rank;
      evaluated, visiting := map[], {};
    }

    /**
     * evalRule. A rule under evaluation would fall back to not detected, but the rules waiting for this one rank at
     * least as high, so no dependency is ever among them.
     */
    method EvalRule(id: string) returns (state: RuleState)
      requires Valid() && id in byId
      requires forall v | v in visiting :: rank[v] >= rank[id]
      modifies this
      ensures Valid() && visiting == old(visiting)
      ensures id !in old(visiting) ==> state == answers[id]
      decreases rank[id], if id in visiting then 0 else 1
    {
      if id in evaluated {
        return evaluated[id];
      }
      if id in visiting {
        return RuleState(NotDetected, [], []);
      }
      var before := visiting;
      visiting := visiting + {id};
      state := Resolve(id);
      visiting := before;
      evaluated := evaluated[id := state];
    }

    /** The body of evalRule for a rule that is marked as being visited. */
    method Resolve(id: string) returns (state: RuleState)
      requires Valid() && id in visiting
      requires forall v | v in visiting :: rank[v] >= rank[id]
      modifies this
      ensures Valid() && visiting == old(visiting)
      ensures state == answers[id]
      decreases rank[id], 0
    {
      var r, d, c := byId[id], detections[id], conditions[id];
      assert ResolvesRule(r, c, d, answers[id], rank[id], answers, rank);
      if d.detected {
        return RuleState(IsDetected, [], c.requiredSources);
      }
      var penalties := SumObservedPenalties(d);
      var own, ownIncomplete := EvaluateRuleCoverage(r, c, d.detected, penalties);
      var unknown, notDetected := false, false;
      var incomplete, required: seq<string> := [], c.requiredSources;
      for i := 0 to |r.dependencies|
        invariant Valid() && visiting == old(visiting)
        invariant Tracks(Gather(StatesOf(answers, r.dependencies[..i])), unknown, notDetected, incomplete, required, c.requiredSources)
      {
        var dependency := r.dependencies[i];
        TracksStep(answers, r.dependencies, i, unknown, notDetected, incomplete, required, c.requiredSources);
        var below := EvalRule(dependency);
        required := required + below.requiredSources;
        if below.status == InsufficientCoverage {
          unknown := true;
          incomplete := incomplete + below.incompleteSources;
        } else if below.status == NotDetected {
          notDetected := true;
        }
      }
      assert r.dependencies[..|r.dependencies|] == r.dependencies;
      state := Decide(RuleFacts(d.detected, own, ownIncomplete, c.requiredSources),
                      Gather(StatesOf(answers, r.dependencies)), unknown, notDetected, incomplete, required);
    }
  }

  // ----- The facts of a scan -----

  function MatchMagnitudes(evidence: seq<EvidenceMatch>): (r: seq<real>)
    ensures |r| == |evidence|
  {
    seq(|evidence|, i requires 0 <= i < |evidence| => Magnitude(-Contribution(evidence[i])))
  }

  /** The penalties that a scan has observed for a rule, candidate or not. */
  ghost function PenaltiesSeen(rules: seq<Rule>, table: MatchTable, r: Rule): real
    requires r.id in table
  {
    Total(MatchMagnitudes(table[r.id].negative)) + Total(MatchMagnitudes(table[r.id].ambiguous))
    + Total(PenaltiesOf(ConflictsOf(r, table)))
  }

  ghost function ScanFact(rules: seq<Rule>, signals: set<Signal>, ch: Channels, r: Rule): RuleFacts
    requires UniqueRules(rules) && r.id in RuleIds(rules)
  {
    var table := TableFor(rules, signals);
    var cover := Cover(r.condition, signals, ch);
    var detected := Detected(rules, table, r.id);
    var own := RuleCoverage(r, cover, detected, PenaltiesSeen(rules, table, r));
    RuleFacts(detected, own.0, own.1, cover.requiredSources)
  }

  ghost function ScanFacts(rules: seq<Rule>, signals: set<Signal>, ch: Channels): FactTable
    requires UniqueRules(rules)
  {
    map id | id in RuleIds(rules) :: ScanFact(rules, signals, ch, RuleById(rules, id))
  }

  /** The reported states: a closed form over the closure of the requirements of every rule. */
  ghost function ScanAnswers(rules: seq<Rule>, signals: set<Signal>, ch: Channels): (answers: map<string, RuleState>)
    requires UniqueRules(rules) && Closed(Requirements(rules))
    ensures answers.Keys == RuleIds(rules)
  {
    Answers(Requirements(rules), ScanFacts(rules, signals, ch))
  }

  lemma {:induction false} CoverListsSources(c: Condition, signals: set<Signal>, ch: Channels)
    ensures var required := Cover(c, signals, ch).requiredSources; Lists(required, Elements(required))
  {
    match c
    case Leaf(_) =>
    case All(_) =>
    case Any(_) =>
  }

  lemma FactAt(rules: seq<Rule>, signals: set<Signal>, ch: Channels, id: string)
    requires UniqueRules(rules) && id in RuleIds(rules)
    ensures Known(rules, id)
    ensures var f := ScanFacts(rules, signals, ch)[id];
            && (f.own == Matched <==> f.detected)
            && (f.own != Unknown ==> f.incomplete == [])
            && Lists(f.required, Elements(f.required))
            && (f.detected <==> Detected(rules, TableFor(rules, signals), id))
  {
    var i :| 0 <= i < |rules| && rules[i].id == id;
    CoverListsSources(RuleById(rules, id).condition, signals, ch);
  }

  lemma FactsConsistent(rules: seq<Rule>, signals: set<Signal>, ch: Channels)
    requires UniqueRules(rules) && Closed(Requirements(rules)) && Acyclic(Requirements(rules))
    ensures Consistent(Requirements(rules), ScanFacts(rules, signals, ch))
  {
    var g, facts, table := Requirements(rules), ScanFacts(rules, signals, ch), TableFor(rules, signals);
    forall id | id in g
      ensures facts[id].own == Matched <==> facts[id].detected
      ensures facts[id].own != Unknown ==> facts[id].incomplete == []
      ensures Lists(facts[id].required, Elements(facts[id].required))
    {
      FactAt(rules, signals, ch, id);
    }
    forall id, dep | IsEdge(g, id, dep) && facts[id].detected ensures facts[dep].detected {
      FactAt(rules, signals, ch, id);
      FactAt(rules, signals, ch, dep);
      DetectedUnfold(rules, table, id);
    }
  }

  // ----- The lookup tables -----

  lemma DescribedPenalties(d: Detection, rules: seq<Rule>, table: MatchTable, r: Rule)
    requires UniqueRules(rules) && Covers(table, rules) && r.id in table && Describes(d, rules, table, r)
    ensures ObservedPenalties(d) == PenaltiesSeen(rules, table, r)
  {
    assert Magnitudes(d.negative) == MatchMagnitudes(table[r.id].negative);
    assert Magnitudes(d.ambiguous) == MatchMagnitudes(table[r.id].ambiguous);
  }

  ghost predicate IndexesDetections(byId: map<string, Detection>, rules: seq<Rule>, table: MatchTable, count: nat)
    requires UniqueRules(rules) && Covers(table, rules)
  {
    && byId.Keys <= RuleIds(rules)
    && (forall i | 0 <= i < count && i < |rules| :: rules[i].id in byId)
    && (forall id | id in byId :: Described(byId[id], rules, table, id))
  }

  ghost predicate Described(d: Detection, rules: seq<Rule>, table: MatchTable, id: string)
    requires UniqueRules(rules) && Covers(table, rules)
  {
    id in table && Known(rules, id) && Describes(d, rules, table, RuleById(rules, id))
  }

  lemma OneMoreDescribed(
      byId: map<string, Detection>, rules: seq<Rule>, table: MatchTable, d: Detection, id: string)
    requires UniqueRules(rules) && Covers(table, rules)
    requires forall k | k in byId :: Described(byId[k], rules, table, k)
    requires Described(d, rules, table, d.ruleId) && id in byId[d.ruleId := d]
    ensures Described(byId[d.ruleId := d][id], rules, table, id)
  {
  }

  lemma AllDescribed(byId: map<string, Detection>, rules: seq<Rule>, table: MatchTable, d: Detection)
    requires UniqueRules(rules) && Covers(table, rules)
    requires forall k | k in byId :: Described(byId[k], rules, table, k)
    requires Described(d, rules, table, d.ruleId)
    ensures var next := byId[d.ruleId := d];
            forall id | id in next :: Described(next[id], rules, table, id)
  {
    var next := byId[d.ruleId := d];
    forall id | id in next ensures Described(next[id], rules, table, id) {
      OneMoreDescribed(byId, rules, table, d, id);
    }
  }

  lemma IndexDetectionStep(byId: map<string, Detection>, rules: seq<Rule>, table: MatchTable, i: nat, d: Detection)
    requires UniqueRules(rules) && Covers(table, rules) && i < |rules| && IndexesDetections(byId, rules, table, i)
    requires rules[i].id in table && Describes(d, rules, table, rules[i])
    ensures IndexesDetections(byId[d.ruleId := d], rules, table, i + 1)
  {
    RuleKnown(rules, i);
    AllDescribed(byId, rules, table, d);
  }

  lemma DetectionsIndexed(byId: map<string, Detection>, rules: seq<Rule>, table: MatchTable)
    requires UniqueRules(rules) && Covers(table, rules) && IndexesDetections(byId, rules, table, |rules|)
    ensures byId.Keys == RuleIds(rules)
    ensures forall id | id in RuleIds(rules) :: Described(byId[id], rules, table, id)
  {
    forall id | id in RuleIds(rules) ensures id in byId {
      var i :| 0 <= i < |rules| && rules[i].id == id;
    }
  }

  method IndexDetections(rules: seq<Rule>, detections: seq<Detection>, ghost table: MatchTable)
    returns (byId: map<string, Detection>)
    requires UniqueRules(rules) && Covers(table, rules)
    requires |detections| == |rules| && DescribesRules(detections, rules, table)
    ensures IndexesDetections(byId, rules, table, |rules|)
  {
    byId := map[];
    for i := 0 to |detections|
      invariant IndexesDetections(byId, rules, table, i)
    {
      DescribesAt(detections, rules, table, i);
      IndexDetectionStep(byId, rules, table, i, detections[i]);
      byId := byId[detections[i].ruleId := detections[i]];
    }
  }

  lemma DescribesAt(detections: seq<Detection>, rules: seq<Rule>, table: MatchTable, i: nat)
    requires UniqueRules(rules) && Covers(table, rules) && DescribesRules(detections, rules, table) && i < |detections|
    ensures rules[i].id in table && Describes(detections[i], rules, table, rules[i])
  {
  }

  ghost predicate CoversConditions(conditions: map<string, ConditionCoverage>, rules: seq<Rule>, signals: set<Signal>, ch: Channels) {
    && conditions.Keys == RuleIds(rules)
    && forall id | id in conditions :: Known(rules, id) && conditions[id] == Cover(RuleById(rules, id).condition, signals, ch)
  }

  method CoverConditions(rules: seq<Rule>, signals: seq<Signal>, ch: Channels)
    returns (conditions: map<string, ConditionCoverage>)
    requires UniqueRules(rules) && ch.registry.Valid()
    ensures CoversConditions(conditions, rules, Elements(signals), ch)
  {
    conditions := map[];
    for i := 0 to |rules|
      invariant conditions.Keys <= RuleIds(rules)
      invariant forall j | 0 <= j < i :: rules[j].id in conditions
      invariant forall id | id in conditions ::
                  Known(rules, id) && conditions[id] == Cover(RuleById(rules, id).condition, Elements(signals), ch)
    {
      RuleKnown(rules, i);
      var cached := CacheSignals(signals);
      var cover := EvaluateConditionCoverage(rules[i].condition, cached, ch);
      conditions := conditions[rules[i].id := cover];
    }
    forall id | id in RuleIds(rules) ensures id in conditions {
      var i :| 0 <= i < |rules| && rules[i].id == id;
    }
  }

  lemma FactsRead(rules: seq<Rule>, signals: set<Signal>, ch: Channels, id: string, c: ConditionCoverage, d: Detection)
    requires UniqueRules(rules) && id in RuleIds(rules) && Known(rules, id)
    requires c == Cover(RuleById(rules, id).condition, signals, ch)
    requires Described(d, rules, TableFor(rules, signals), id)
    ensures FactsOf(RuleById(rules, id), c, d) == ScanFacts(rules, signals, ch)[id]
  {
    DescribedPenalties(d, rules, TableFor(rules, signals), RuleById(rules, id));
  }

  /** The tables of buildDetectionCoverage describe the recursion that the closed form solves. */
  lemma TablesResolve(rules: seq<Rule>, signals: set<Signal>, ch: Channels,
                      byId: map<string, Rule>, conditions: map<string, ConditionCoverage>, detections: map<string, Detection>)
    requires UniqueRules(rules) && Closed(Requirements(rules)) && Acyclic(Requirements(rules))
    requires Indexes(byId, rules)
    requires CoversConditions(conditions, rules, signals, ch)
    requires IndexesDetections(detections, rules, TableFor(rules, signals), |rules|)
    ensures Resolves(byId, conditions, detections, ScanAnswers(rules, signals, ch), Ranks(Requirements(rules)))
  {
    var answers, rank := ScanAnswers(rules, signals, ch), Ranks(Requirements(rules));
    DetectionsIndexed(detections, rules, TableFor(rules, signals));
    forall id | id in byId ensures ResolvesRule(byId[id], conditions[id], detections[id], answers[id], rank[id], answers, rank) {
      IndexedRule(rules, byId, id);
      ResolveAt(rules, signals, ch, byId[id], conditions[id], detections[id]);
    }
  }

  lemma IndexedRule(rules: seq<Rule>, byId: map<string, Rule>, id: string)
    requires UniqueRules(rules) && Indexes(byId, rules) && id in byId
    ensures byId[id].id == id && id in RuleIds(rules) && Known(rules, id) && RuleById(rules, id) == byId[id]
  {
    UniqueRule(rules, byId[id]);
  }

  lemma ResolveAt(rules: seq<Rule>, signals: set<Signal>, ch: Channels, r: Rule, c: ConditionCoverage, d: Detection)
    requires UniqueRules(rules) && Closed(Requirements(rules)) && Acyclic(Requirements(rules))
    requires r.id in RuleIds(rules) && Known(rules, r.id) && RuleById(rules, r.id) == r
    requires c == Cover(r.condition, signals, ch) && Described(d, rules, TableFor(rules, signals), r.id)
    ensures var answers, rank := ScanAnswers(rules, signals, ch), Ranks(Requirements(rules));
            ResolvesRule(r, c, d, answers[r.id], rank[r.id], answers, rank)
  {
    var g, facts := Requirements(rules), ScanFacts(rules, signals, ch);
    FactsConsistent(rules, signals, ch);
    AnswersSolve(g, facts);
    RuleRanked(g, r.id);
    FactsRead(rules, signals, ch, r.id, c, d);
    assert g[r.id] == r.dependencies;
  }

  ghost predicate ReportsStates(coverage: seq<RuleState>, rules: seq<Rule>, answers: map<string, RuleState>) {
    && |coverage| <= |rules|
    && forall i | 0 <= i < |coverage| :: rules[i].id in answers && coverage[i] == answers[rules[i].id]
  }

  /** buildDetectionCoverage. */
  method BuildDetectionCoverage(ruleSet: RuleSet, detections: seq<Detection>, signals: seq<Signal>, ch: Channels)
    returns (coverage: seq<RuleState>)
    requires ValidRuleSet(ruleSet) && ch.registry.Valid()
    requires |detections| == |ruleSet.rules|
    requires DescribesRules(detections, ruleSet.rules, TableFor(ruleSet.rules, Elements(signals)))
    ensures Closed(Requirements(ruleSet.rules))
    ensures |coverage| == |ruleSet.rules|
    ensures ReportsStates(coverage, ruleSet.rules, ScanAnswers(ruleSet.rules, Elements(signals), ch))
  {
    var rules := ruleSet.rules;
    ghost var observed := Elements(signals);
    ReferencesClose(rules);
    var detectionsById := IndexDetections(rules, detections, TableFor(rules, observed));
    var byId := IndexById(rules);
    var conditions := CoverConditions(rules, signals, ch);
    TablesResolve(rules, observed, ch, byId, conditions, detectionsById);
    var resolver := new CoverageResolver(
      byId, conditions, detectionsById, ScanAnswers(rules, observed, ch), Ranks(Requirements(rules)));
    assert forall i | 0 <= i < |rules| :: rules[i].id in RuleIds(rules);
    coverage := ResolveAll(rules, resolver);
  }

  method ResolveAll(rules: seq<Rule>, resolver: CoverageResolver) returns (coverage: seq<RuleState>)
    requires resolver.Valid() && resolver.visiting == {}
    requires forall i | 0 <= i < |rules| :: rules[i].id in resolver.byId
    modifies resolver
    ensures |coverage| == |rules| && ReportsStates(coverage, rules, resolver.answers)
  {
    coverage := [];
    for i := 0 to |rules|
      invariant resolver.Valid() && resolver.visiting == {}
      invariant |coverage| == i && ReportsStates(coverage, rules, resolver.answers)
    {
      var state := resolver.EvalRule(rules[i].id);
      ReportsAppend(coverage, state, rules, resolver.answers);
      coverage := coverage + [state];
    }
  }

  lemma ReportsAppend(coverage: seq<RuleState>, state: RuleState, rules: seq<Rule>, answers: map<string, RuleState>)
    requires ReportsStates(coverage, rules, answers) && |coverage| < |rules|
    requires rules[|coverage|].id in answers && state == answers[rules[|coverage|].id]
    ensures ReportsStates(coverage + [state], rules, answers)
  {
  }
}
