/** Three-valued evaluation of conditions and rules when some channels were observed incompletely. */
module Coverage {
  import opened Model
  import opened Ordering
  import opened Schema
  import opened Matching
  import opened Capabilities
  import opened Sums
  import opened Scoring

  datatype CoverageState = NotMatched | Matched | Unknown

  /** Actual or possible evidence of a branch. */
  datatype PotentialEvidence = PotentialEvidence(
    id: string, group: string, score: real, incompleteSources: seq<string>, isUnknown: bool)

  datatype ConditionCoverage = ConditionCoverage(
    state: CoverageState, canBeSatisfied: bool, potential: seq<PotentialEvidence>,
    incompleteSources: seq<string>, requiredSources: seq<string>)

  /** What a scan knows about its channels: who can produce what, and what was observed completely. */
  datatype Channels = Channels(registry: CapabilityRegistry, complete: (string, string) -> bool)

  // ----- Conditions -----

  ghost function IncompleteSet(ch: Channels, e: Evidence): set<string> {
    set source | source in CapableSet(ch.registry, e) && !ch.complete(source, e.kind)
  }

  ghost function CoverLeaf(e: Evidence, signals: set<Signal>, ch: Channels): ConditionCoverage {
    var capable := ListOf(CapableSet(ch.registry, e));
    if AnyMatch(e, signals) then
      ConditionCoverage(Matched, true,
        [PotentialEvidence(e.id, e.group, e.weight * Strongest(e, signals).confidence, [], false)], [], capable)
    else if IncompleteSet(ch, e) == {} then
      ConditionCoverage(NotMatched, false, [], [], capable)
    else
      var incomplete := ListOf(IncompleteSet(ch, e));
      ConditionCoverage(Unknown, true, [PotentialEvidence(e.id, e.group, e.weight, incomplete, true)], incomplete, capable)
  }

  /** The accumulators of the child loop of an all-condition. failed marks the early return. */
  datatype AllState = AllState(
    failed: bool, hasUnknown: bool, potential: seq<PotentialEvidence>, incomplete: set<string>, required: set<string>)

  /** The accumulators of the child loop of an any-condition. */
  datatype AnyState = AnyState(
    satisfiable: bool, hasMatched: bool, hasUnknown: bool,
    potential: seq<PotentialEvidence>, incomplete: set<string>, required: set<string>)

  ghost function Cover(c: Condition, signals: set<Signal>, ch: Channels): ConditionCoverage
    decreases c
  {
    match c
    case Leaf(e) => CoverLeaf(e, signals, ch)
    case All(children) =>
      var s := CoverAll(children, signals, ch);
      if s.failed then ConditionCoverage(NotMatched, false, [], [], ListOf(s.required))
      else ConditionCoverage(if s.hasUnknown then Unknown else Matched, true, s.potential, ListOf(s.incomplete), ListOf(s.required))
    case Any(children) =>
      var s := CoverAny(children, signals, ch);
      if !s.satisfiable then ConditionCoverage(NotMatched, false, [], [], ListOf(s.required))
      else ConditionCoverage(if s.hasUnknown || !s.hasMatched then Unknown else Matched, true,
                             s.potential, ListOf(s.incomplete), ListOf(s.required))
  }

  /** Stops at the first child that cannot be satisfied. */
  ghost function CoverAll(cs: seq<Condition>, signals: set<Signal>, ch: Channels): AllState
    decreases cs
  {
    if cs == [] then AllState(false, false, [], {}, {})
    else
      var s := CoverAll(cs[..|cs| - 1], signals, ch);
      if s.failed then s else AllStep(s, Cover(cs[|cs| - 1], signals, ch))
  }

  ghost function AllStep(s: AllState, child: ConditionCoverage): AllState {
    var required := s.required + Elements(child.requiredSources);
    if !child.canBeSatisfied then s.(failed := true, required := required)
    else
      AllState(false, s.hasUnknown || child.state == Unknown, s.potential + child.potential,
               if child.state == Unknown then s.incomplete + Elements(child.incompleteSources) else s.incomplete, required)
  }

  /** Children that cannot be satisfied only add their required sources. */
  ghost function CoverAny(cs: seq<Condition>, signals: set<Signal>, ch: Channels): AnyState
    decreases cs
  {
    if cs == [] then AnyState(false, false, false, [], {}, {})
    else AnyStep(CoverAny(cs[..|cs| - 1], signals, ch), Cover(cs[|cs| - 1], signals, ch))
  }

  ghost function AnyStep(s: AnyState, child: ConditionCoverage): AnyState {
    var required := s.required + Elements(child.requiredSources);
    if !child.canBeSatisfied then s.(required := required)
    else
      AnyState(true, s.hasMatched || child.state == Matched, s.hasUnknown || child.state == Unknown,
               s.potential + child.potential, s.incomplete + Elements(child.incompleteSources), required)
  }

  lemma DeduplicatedList(result: seq<string>, items: seq<string>, s: set<string>)
    requires Lists(result, Elements(items)) && Elements(items) == s
    ensures result == ListOf(s)
  {
    ListOfUnique(result, s);
  }

  method FilterIncomplete(capable: seq<string>, kind: string, ch: Channels) returns (incomplete: seq<string>)
    ensures forall x :: x in incomplete <==> x in capable && !ch.complete(x, kind)
  {
    incomplete := [];
    for i := 0 to |capable|
      invariant forall x :: x in incomplete <==> x in capable[..i] && !ch.complete(x, kind)
    {
      assert capable[..i + 1] == capable[..i] + [capable[i]];
      if !ch.complete(capable[i], kind) {
        incomplete := incomplete + [capable[i]];
      }
    }
    assert capable[..|capable|] == capable;
  }

  lemma IncompleteElements(ch: Channels, e: Evidence, capable: seq<string>, incomplete: seq<string>)
    requires capable == ListOf(CapableSet(ch.registry, e))
    requires forall x :: x in incomplete <==> x in capable && !ch.complete(x, e.kind)
    ensures Elements(incomplete) == IncompleteSet(ch, e)
    ensures incomplete == [] <==> IncompleteSet(ch, e) == {}
  {
    forall x ensures x in capable <==> x in CapableSet(ch.registry, e) { assert x in capable <==> x in Elements(capable); }
    assert Elements(incomplete) == IncompleteSet(ch, e);
    if incomplete != [] { assert incomplete[0] in IncompleteSet(ch, e); }
  }

  method EvaluateLeaf(e: Evidence, signals: seq<CachedSignal>, ch: Channels) returns (result: ConditionCoverage)
    requires AllValid(signals) && ch.registry.Valid()
    modifies signals
    ensures AllValid(signals)
    ensures result == CoverLeaf(e, Observed(signals), ch)
  {
    var capable := CapableSources(ch.registry, e);
    var m := StrongestMatch(e, signals);
    if m.Some? {
      var score := e.weight * m.value.signal.confidence;
      result := ConditionCoverage(Matched, true, [PotentialEvidence(e.id, e.group, score, [], false)], [], capable);
      ghost var spec := CoverLeaf(e, Observed(signals), ch);
      assert spec.potential[0].score == score;
      assert spec.potential == result.potential;
      return;
    }
    var incomplete := FilterIncomplete(capable, e.kind, ch);
    IncompleteElements(ch, e, capable, incomplete);
    if |incomplete| == 0 {
      return ConditionCoverage(NotMatched, false, [], [], capable);
    }
    var deduplicated := DeduplicateSorted(incomplete);
    DeduplicatedList(deduplicated, incomplete, IncompleteSet(ch, e));
    result := ConditionCoverage(Unknown, true, [PotentialEvidence(e.id, e.group, e.weight, deduplicated, true)], deduplicated, capable);
  }

  /** evaluateConditionCoverageCached. */
  method EvaluateConditionCoverage(c: Condition, signals: seq<CachedSignal>, ch: Channels) returns (result: ConditionCoverage)
    requires AllValid(signals) && ch.registry.Valid()
    modifies signals
    ensures AllValid(signals)
    ensures result == Cover(c, Observed(signals), ch)
    decreases c, 1
  {
    match c
    case Leaf(e) => result := EvaluateLeaf(e, signals, ch);
    case All(children) => result := EvaluateAllCoverage(c, children, signals, ch);
    case Any(children) => result := EvaluateAnyCoverage(c, children, signals, ch);
  }

  ghost predicate TracksAll(
      s: AllState, hasUnknown: bool, potential: seq<PotentialEvidence>, incomplete: seq<string>, required: seq<string>) {
    !s.failed && s.hasUnknown == hasUnknown && s.potential == potential
    && Elements(incomplete) == s.incomplete && Elements(required) == s.required
  }

  lemma {:induction false} FailedStays(cs: seq<Condition>, k: nat, signals: set<Signal>, ch: Channels)
    requires k <= |cs| && CoverAll(cs[..k], signals, ch).failed
    ensures CoverAll(cs, signals, ch) == CoverAll(cs[..k], signals, ch)
    decreases |cs|
  {
    if k < |cs| {
      assert cs[..|cs| - 1][..k] == cs[..k];
      FailedStays(cs[..|cs| - 1], k, signals, ch);
    } else {
      assert cs[..k] == cs;
    }
  }

  method EvaluateAllCoverage(c: Condition, children: seq<Condition>, signals: seq<CachedSignal>, ch: Channels)
    returns (result: ConditionCoverage)
    requires c == All(children) && AllValid(signals) && ch.registry.Valid()
    modifies signals
    ensures AllValid(signals)
    ensures result == Cover(c, Observed(signals), ch)
    decreases c, 0
  {
    var potential: seq<PotentialEvidence>, incomplete: seq<string>, required: seq<string>, hasUnknown := [], [], [], false;
    ghost var observed := Observed(signals);
    for i := 0 to |children|
      invariant AllValid(signals)
      invariant TracksAll(CoverAll(children[..i], observed, ch), hasUnknown, potential, incomplete, required)
    {
      var child := EvaluateConditionCoverage(children[i], signals, ch);
      assert children[..i + 1][..i] == children[..i];
      ElementsConcat(required, child.requiredSources);
      ElementsConcat(incomplete, child.incompleteSources);
      required := required + child.requiredSources;
      if !child.canBeSatisfied {
        FailedStays(children, i + 1, observed, ch);
        var sources := DeduplicateSorted(required);
        DeduplicatedList(sources, required, CoverAll(children, observed, ch).required);
        return ConditionCoverage(NotMatched, false, [], [], sources);
      }
      if child.state == Unknown {
        hasUnknown := true;
        incomplete := incomplete + child.incompleteSources;
      }
      potential := potential + child.potential;
    }
    assert children[..|children|] == children;
    var incompleteSources := DeduplicateSorted(incomplete);
    var requiredSources := DeduplicateSorted(required);
    DeduplicatedList(incompleteSources, incomplete, CoverAll(children, observed, ch).incomplete);
    DeduplicatedList(requiredSources, required, CoverAll(children, observed, ch).required);
    result := ConditionCoverage(if hasUnknown then Unknown else Matched, true, potential, incompleteSources, requiredSources);
  }

  method EvaluateAnyCoverage(c: Condition, children: seq<Condition>, signals: seq<CachedSignal>, ch: Channels)
    returns (result: ConditionCoverage)
    requires c == Any(children) && AllValid(signals) && ch.registry.Valid()
    modifies signals
    ensures AllValid(signals)
    ensures result == Cover(c, Observed(signals), ch)
    decreases c, 0
  {
    var potential: seq<PotentialEvidence>, incomplete: seq<string>, required: seq<string> := [], [], [];
    var hasMatched, hasUnknown, satisfiable := false, false, false;
    ghost var observed := Observed(signals);
    for i := 0 to |children|
      invariant AllValid(signals)
      invariant CoverAny(children[..i], observed, ch)
             == AnyState(satisfiable, hasMatched, hasUnknown, potential, Elements(incomplete), Elements(required))
    {
      var child := EvaluateConditionCoverage(children[i], signals, ch);
      assert children[..i + 1][..i] == children[..i];
      ElementsConcat(required, child.requiredSources);
      ElementsConcat(incomplete, child.incompleteSources);
      required := required + child.requiredSources;
      if child.canBeSatisfied {
        satisfiable := true;
        if child.state == Matched {
          hasMatched := true;
        }
        if child.state == Unknown {
          hasUnknown := true;
        }
        potential := potential + child.potential;
        incomplete := incomplete + child.incompleteSources;
      }
    }
    assert children[..|children|] == children;
    var requiredSources := DeduplicateSorted(required);
    DeduplicatedList(requiredSources, required, CoverAny(children, observed, ch).required);
    if !satisfiable {
      return ConditionCoverage(NotMatched, false, [], [], requiredSources);
    }
    var incompleteSources := DeduplicateSorted(incomplete);
    DeduplicatedList(incompleteSources, incomplete, CoverAny(children, observed, ch).incomplete);
    var state := if hasUnknown || !hasMatched then Unknown else Matched;
    result := ConditionCoverage(state, true, potential, incompleteSources, requiredSources);
  }

  // ----- Rules -----

  function Digit(n: nat): char
    requires n < 10
  {
    "0123456789"[n]
  }

  /** n in decimal, as %d prints it. */
  function Decimal(n: nat): string {
    if n < 10 then [Digit(n)] else Decimal(n / 10) + [Digit(n % 10)]
  }

  function Parse(s: string): int {
    if s == [] then 0 else 10 * Parse(s[..|s| - 1]) + (s[|s| - 1] as int - '0' as int)
  }

  lemma {:induction false} ParseDecimal(n: nat)
    ensures Parse(Decimal(n)) == n
  {
    assert Digit(n % 10) as int - '0' as int == n % 10;
    if n < 10 {
      assert [Digit(n)][..0] == [];
    } else {
      ParseDecimal(n / 10);
      assert (Decimal(n / 10) + [Digit(n % 10)])[..|Decimal(n / 10)|] == Decimal(n / 10);
    }
  }

  /** Ungrouped evidence is a group of its own, named by its position. */
  function GroupKey(p: PotentialEvidence, i: nat): string {
    if p.group == "" then "__independent_" + Decimal(i) else p.group
  }

  /** The entries of the group summaries. A group starts at zero. */
  function CoverageItems(potential: seq<PotentialEvidence>): (items: seq<Item<string>>)
    ensures |items| == |potential|
  {
    seq(|potential|, i requires 0 <= i < |potential| =>
          Item(GroupKey(potential[i], i), if potential[i].score > 0.0 then potential[i].score else 0.0))
  }

  ghost function UnknownSources(potential: seq<PotentialEvidence>): set<string> {
    set i, x | 0 <= i < |potential| && potential[i].isUnknown && x in potential[i].incompleteSources :: x
  }

  /** Whether the groups could still reach both thresholds, after the penalties seen so far. */
  ghost predicate CanReachThreshold(r: Rule, potential: seq<PotentialEvidence>, observedPenalties: real) {
    var table := GroupMaxima(CoverageItems(potential));
    Clamp(Sum(table) - observedPenalties) >= r.minimumScore && |table| >= r.minimumEvidence
  }

  ghost function RuleCoverage(r: Rule, c: ConditionCoverage, detected: bool, observedPenalties: real): (CoverageState, seq<string>) {
    if detected then (Matched, [])
    else if !c.canBeSatisfied || !CanReachThreshold(r, c.potential, observedPenalties) then (NotMatched, [])
    else (Unknown, ListOf(UnknownSources(c.potential)))
  }

  /** One entry of the map of group summaries. */
  datatype GroupSummary = GroupSummary(maxScore: real, incompleteSources: seq<string>)

  ghost function ScoresOf(groups: map<string, GroupSummary>): map<string, real> {
    map k | k in groups :: groups[k].maxScore
  }

  ghost function SummarySources(groups: map<string, GroupSummary>): set<string> {
    set k, x | k in groups && x in groups[k].incompleteSources :: x
  }

  ghost predicate Summarizes(groups: map<string, GroupSummary>, potential: seq<PotentialEvidence>) {
    && ScoresOf(groups) == GroupMaxima(CoverageItems(potential))
    && SummarySources(groups) == UnknownSources(potential)
    && forall k | k in groups :: groups[k].maxScore >= 0.0
  }

  function Summarize(groups: map<string, GroupSummary>, p: PotentialEvidence, i: nat): map<string, GroupSummary> {
    var key := GroupKey(p, i);
    var g := if key in groups then groups[key] else GroupSummary(0.0, []);
    var max := if p.score > g.maxScore then p.score else g.maxScore;
    groups[key := GroupSummary(max, if p.isUnknown then g.incompleteSources + p.incompleteSources else g.incompleteSources)]
  }

  lemma UnknownAppend(potential: seq<PotentialEvidence>, p: PotentialEvidence)
    ensures UnknownSources(potential + [p]) == UnknownSources(potential) + if p.isUnknown then Elements(p.incompleteSources) else {}
  {
    var more := potential + [p];
    assert more[|potential|] == p && forall i | 0 <= i < |potential| :: more[i] == potential[i];
    forall x | x in UnknownSources(potential) ensures x in UnknownSources(more) {
      var i :| 0 <= i < |potential| && potential[i].isUnknown && x in potential[i].incompleteSources;
      assert more[i].isUnknown && x in more[i].incompleteSources;
    }
    if p.isUnknown {
      forall x | x in p.incompleteSources ensures x in UnknownSources(more) { assert x in more[|potential|].incompleteSources; }
    }
  }

  lemma SummarySourcesUpdate(groups: map<string, GroupSummary>, k: string, kept: seq<string>, more: seq<string>, score: real)
    requires kept == if k in groups then groups[k].incompleteSources else []
    ensures SummarySources(groups[k := GroupSummary(score, kept + more)]) == SummarySources(groups) + Elements(more)
  {
    var next := groups[k := GroupSummary(score, kept + more)];
    forall x | x in SummarySources(groups) + Elements(more) ensures x in SummarySources(next) {
      if x in SummarySources(groups) {
        var j :| j in groups && x in groups[j].incompleteSources;
        assert j in next && x in next[j].incompleteSources;
      } else {
        assert x in next[k].incompleteSources;
      }
    }
    forall x | x in SummarySources(next) ensures x in SummarySources(groups) + Elements(more) {
      var j :| j in next && x in next[j].incompleteSources;
      if j == k && k in groups && x in kept { assert x in groups[k].incompleteSources; }
    }
  }

  lemma SummarizeStep(groups: map<string, GroupSummary>, potential: seq<PotentialEvidence>, i: nat)
    requires i < |potential| && Summarizes(groups, potential[..i])
    ensures Summarizes(Summarize(groups, potential[i], i), potential[..i + 1])
  {
    var done, more, p := potential[..i], potential[..i + 1], potential[i];
    assert more == done + [p];
    UnknownAppend(done, p);
    var key := GroupKey(p, i);
    var kept := if key in groups then groups[key].incompleteSources else [];
    var next := Summarize(groups, p, i);
    assert CoverageItems(more)[..i] == CoverageItems(done);
    assert (key in groups) == (key in ScoresOf(groups));
    assert ScoresOf(next) == GroupMaxima(CoverageItems(more));
    SummarySourcesUpdate(groups, key, kept, if p.isUnknown then p.incompleteSources else [], next[key].maxScore);
    assert !p.isUnknown ==> kept + [] == kept;
  }

  /** The sum over a map, in whatever order its keys are visited. */
  method SumGroups(groups: map<string, GroupSummary>) returns (total: real, sources: seq<string>)
    ensures total == Sum(ScoresOf(groups))
    ensures Elements(sources) == SummarySources(groups)
  {
    total, sources := 0.0, [];
    var rest := groups;
    while rest != map[]
      invariant forall k | k in rest :: k in groups && rest[k] == groups[k]
      invariant total + Sum(ScoresOf(rest)) == Sum(ScoresOf(groups))
      invariant Elements(sources) + SummarySources(rest) == SummarySources(groups)
      decreases rest.Keys
    {
      var k :| k in rest;
      assert rest.Keys != {};
      SumRemove(ScoresOf(rest), k);
      assert ScoresOf(rest) - {k} == ScoresOf(rest - {k});
      SourcesRemove(rest, k);
      ElementsConcat(sources, rest[k].incompleteSources);
      total := total + rest[k].maxScore;
      sources := sources + rest[k].incompleteSources;
      rest := rest - {k};
    }
    assert ScoresOf(rest) == map[];
  }

  lemma SourcesRemove(groups: map<string, GroupSummary>, k: string)
    requires k in groups
    ensures SummarySources(groups) == SummarySources(groups - {k}) + Elements(groups[k].incompleteSources)
  {
    forall x | x in SummarySources(groups) ensures x in SummarySources(groups - {k}) + Elements(groups[k].incompleteSources) {
      var j :| j in groups && x in groups[j].incompleteSources;
      if j != k { assert j in groups - {k} && x in (groups - {k})[j].incompleteSources; }
    }
    forall x | x in SummarySources(groups - {k}) + Elements(groups[k].incompleteSources) ensures x in SummarySources(groups) {
      if x in groups[k].incompleteSources {
      } else {
        var j :| j in groups - {k} && x in (groups - {k})[j].incompleteSources;
        assert j in groups && x in groups[j].incompleteSources;
      }
    }
  }

  method SummarizeGroups(potential: seq<PotentialEvidence>) returns (groups: map<string, GroupSummary>)
    ensures Summarizes(groups, potential)
  {
    groups := map[];
    for i := 0 to |potential|
      invariant Summarizes(groups, potential[..i])
    {
      SummarizeStep(groups, potential, i);
      groups := Summarize(groups, potential[i], i);
    }
    assert potential[..|potential|] == potential;
  }

  /** EvaluateRuleCoverage. */
  method EvaluateRuleCoverage(r: Rule, c: ConditionCoverage, detected: bool, observedPenalties: real)
    returns (state: CoverageState, incomplete: seq<string>)
    ensures (state, incomplete) == RuleCoverage(r, c, detected, observedPenalties)
  {
    if detected {
      return Matched, [];
    }
    if !c.canBeSatisfied {
      return NotMatched, [];
    }
    var groups := SummarizeGroups(c.potential);
    var upperBoundScore, allIncomplete := SumGroups(groups);
    upperBoundScore := upperBoundScore - observedPenalties;
    if upperBoundScore < 0.0 {
      upperBoundScore := 0.0;
    }
    if upperBoundScore > 100.0 {
      upperBoundScore := 100.0;
    }
    var upperBoundGroups := |groups|;
    assert ScoresOf(groups).Keys == groups.Keys;
    if !(upperBoundScore >= r.minimumScore && upperBoundGroups >= r.minimumEvidence) {
      return NotMatched, [];
    }
    incomplete := DeduplicateSorted(allIncomplete);
    DeduplicatedList(incomplete, allIncomplete, UnknownSources(c.potential));
    state := Unknown;
  }
}
