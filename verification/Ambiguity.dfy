/** Why exactness needs unambiguous groups, and that it needs nothing else: both directions, over the names of the evidence. */
module Ambiguity {
  import opened DependencyGraph
  import opened Model
  import opened Ordering
  import opened Schema
  import opened SchemaValidation
  import opened Matching
  import opened Sums
  import opened Scoring
  import opened Detections
  import opened Capabilities
  import opened Coverage
  import opened CoverageLaws
  import opened Status
  import opened Scanner
  import opened Conclusive
  import opened Exactness
  import opened ExactStatus

  // ----- Names -----

  /** The name of one evidence: its ID and its group, if any. */
  datatype Name = Name(id: string, group: string)

  function NamesOf(es: seq<Evidence>): seq<Name> {
    seq(|es|, i requires 0 <= i < |es| => Name(es[i].id, es[i].group))
  }

  ghost predicate ValidNames(names: seq<Name>) {
    && 0 < |names| <= MAX_EVIDENCE_PER_RULE
    && (forall i | 0 <= i < |names| :: IsIdentifier(names[i].id) && (names[i].group == "" || IsIdentifier(names[i].group)))
    && (forall i, j | 0 <= i < j < |names| :: names[i].id != names[j].id)
  }

  /** The ID of the ungrouped evidence at i is the group of the evidence at j. */
  predicate CollidesAt(names: seq<Name>, i: nat, j: nat) {
    i < |names| && j < |names| && names[i].group == "" && names[j].group != "" && names[i].id == names[j].group
  }

  ghost predicate Collides(names: seq<Name>) {
    exists i: nat, j: nat :: CollidesAt(names, i, j)
  }

  /** Every rule of the set matches on evidence with these names, in this order. */
  ghost predicate Carries(s: RuleSet, names: seq<Name>) {
    forall i | 0 <= i < |s.rules| :: NamesOf(Leaves(s.rules[i].condition)) == names
  }

  ghost predicate AllComplete(ch: Channels) {
    forall source, kind | ch.registry.Supports(source, kind) :: ch.complete(source, kind)
  }

  /** The three-valued status of a rule is the two-valued one. */
  ghost predicate ExactFor(s: RuleSet, ch: Channels, signals: set<Signal>, id: string)
    requires UniqueRules(s.rules) && Closed(Requirements(s.rules)) && id in RuleIds(s.rules)
  {
    ScanAnswers(s.rules, signals, ch)[id].status
    == if Detected(s.rules, TableFor(s.rules, signals), id) then IsDetected else NotDetected
  }

  /** Complete scans are exact for every valid rule set that carries these names. */
  ghost predicate AlwaysExact(ch: Channels, names: seq<Name>) {
    forall s, signals, id |
      && ValidRuleSet(s) && Closed(Requirements(s.rules)) && Carries(s, names)
      && Confident(signals) && id in RuleIds(s.rules) :: ExactFor(s, ch, signals, id)
  }

  // ----- A condition that requires everything -----

  function LeafList(es: seq<Evidence>): seq<Condition> {
    seq(|es|, i requires 0 <= i < |es| => Leaf(es[i]))
  }

  lemma LeafListInit(es: seq<Evidence>)
    requires es != []
    ensures LeafList(es)[..|es| - 1] == LeafList(es[..|es| - 1])
  {
  }

  lemma {:induction false} LeavesOfLeafList(es: seq<Evidence>)
    ensures LeavesOfAll(LeafList(es)) == es
  {
    if es != [] {
      LeafListInit(es);
      LeavesOfLeafList(es[..|es| - 1]);
      assert es == es[..|es| - 1] + [es[|es| - 1]];
    }
  }

  // ----- One signal that satisfies every sample -----

  function Sample(name: Name, weight: real): Evidence {
    Evidence(name.id, name.group, "cookie", None, Some(Literal(Exact, "k", false)), None, None, weight)
  }

  function Sighting(): Signal {
    Signal("cookie", "s", "k", "", "", 1.0)
  }

  ghost predicate IsSample(e: Evidence) {
    e == Sample(Name(e.id, e.group), e.weight)
  }

  ghost predicate AllSamples(es: seq<Evidence>) {
    forall i | 0 <= i < |es| :: IsSample(es[i])
  }

  lemma SampleValid(name: Name, weight: real)
    requires IsIdentifier(name.id) && (name.group == "" || IsIdentifier(name.group)) && 0.0 < weight <= 100.0
    ensures ValidEvidence(Sample(name, weight))
  {
    assert "k"[..0] == [] && ByteLength("k") == 1;
  }

  lemma SampleMatched(name: Name, weight: real)
    ensures AnyMatch(Sample(name, weight), {Sighting()}) && Strongest(Sample(name, weight), {Sighting()}) == Sighting()
  {
    assert Matches(Sample(name, weight), Sighting());
  }

  function SeenMatches(es: seq<Evidence>): seq<EvidenceMatch> {
    seq(|es|, i requires 0 <= i < |es| => MatchOf(es[i], Sighting()))
  }

  function SeenPotential(es: seq<Evidence>): seq<PotentialEvidence> {
    seq(|es|, i requires 0 <= i < |es| => PotentialEvidence(es[i].id, es[i].group, es[i].weight, [], false))
  }

  lemma {:induction false} AllMatched(es: seq<Evidence>)
    requires AllSamples(es)
    ensures EvaluateAll(LeafList(es), {Sighting()}).matched
    ensures EvaluateAll(LeafList(es), {Sighting()}).evidence == SeenMatches(es)
  {
    if es != [] {
      var last := es[|es| - 1];
      LeafListInit(es);
      AllMatched(es[..|es| - 1]);
      assert IsSample(last);
      SampleMatched(Name(last.id, last.group), last.weight);
      assert SeenMatches(es) == SeenMatches(es[..|es| - 1]) + [MatchOf(last, Sighting())];
    }
  }

  lemma {:induction false} AllCovered(es: seq<Evidence>, ch: Channels)
    requires AllSamples(es)
    ensures var s := CoverAll(LeafList(es), {Sighting()}, ch); !s.failed && s.potential == SeenPotential(es)
  {
    if es != [] {
      var last := es[|es| - 1];
      LeafListInit(es);
      AllCovered(es[..|es| - 1], ch);
      assert IsSample(last);
      SampleMatched(Name(last.id, last.group), last.weight);
      assert SeenPotential(es)
          == SeenPotential(es[..|es| - 1]) + [PotentialEvidence(last.id, last.group, last.weight, [], false)];
    }
  }

  // ----- Weights that part the two groupings -----

  /** The colliding pair is worth more than half of the threshold each, everything else next to nothing. */
  function WeightAt(k: nat, i: nat, j: nat): real {
    if k == i || k == j then 13.0 else 0.01
  }

  function Samples(names: seq<Name>, i: nat, j: nat): (es: seq<Evidence>)
    ensures |es| == |names|
  {
    seq(|names|, k requires 0 <= k < |names| => Sample(names[k], WeightAt(k, i, j)))
  }

  lemma SamplesAreSamples(names: seq<Name>, i: nat, j: nat)
    ensures AllSamples(Samples(names, i, j)) && NamesOf(Samples(names, i, j)) == names
  {
    var es := Samples(names, i, j);
    forall k | 0 <= k < |es| ensures IsSample(es[k]) && Name(es[k].id, es[k].group) == names[k] {
      assert es[k] == Sample(names[k], WeightAt(k, i, j));
    }
  }

  /** The scored entries without the one at i. */
  function Without<T>(s: seq<T>, i: nat): (r: seq<T>)
    requires i < |s|
    ensures |r| == |s| - 1
    ensures forall k | 0 <= k < |s| && k != i :: r[if k < i then k else k - 1] == s[k]
  {
    s[..i] + s[i + 1..]
  }

  /** Where an entry is found once the one at i is gone; the one at i is represented by that at j. */
  function PlaceOf(k: nat, i: nat, j: nat): nat
    requires i != j
  {
    var l := if k == i then j else k;
    if l < i then l else l - 1
  }

  lemma PairRepresented(items: seq<Item<string>>, i: nat, j: nat, at: seq<nat>)
    requires i < |items| && j < |items| && i != j && items[i].key == items[j].key && items[i].score <= items[j].score
    requires |at| == |items| && forall k | 0 <= k < |at| :: at[k] == PlaceOf(k, i, j)
    ensures Below(items, Without(items, i), at)
  {
    var rest := Without(items, i);
    forall k | 0 <= k < |items| ensures at[k] < |rest| && rest[at[k]] == items[if k == i then j else k] {
      var l := if k == i then j else k;
      assert rest[if l < i then l else l - 1] == items[l];
    }
  }

  lemma WithoutNonnegative(items: seq<Item<string>>, i: nat)
    requires i < |items| && forall k | 0 <= k < |items| :: items[k].score >= 0.0
    ensures forall k | 0 <= k < |items| - 1 :: Without(items, i)[k].score >= 0.0
  {
  }

  /** Merged scoring counts the pair once: the sum of the maxima is at most that of all others. */
  lemma MergedTotal(items: seq<Item<string>>, i: nat, j: nat)
    requires i < |items| && j < |items| && i != j && items[i].key == items[j].key && items[i].score <= items[j].score
    requires forall k | 0 <= k < |items| :: items[k].score >= 0.0
    ensures Sum(GroupMaxima(items)) <= Total(ItemScores(Without(items, i)))
  {
    var at := seq(|items|, k requires 0 <= k < |items| => PlaceOf(k, i, j));
    PairRepresented(items, i, j, at);
    WithoutNonnegative(items, i);
    BelowBounds(items, Without(items, i), at);
    MaximaBelowTotal(Without(items, i));
  }

  function ItemScores(items: seq<Item<string>>): (r: seq<real>)
    ensures |r| == |items|
  {
    seq(|items|, k requires 0 <= k < |items| => items[k].score)
  }

  lemma {:induction false} MaximaBelowTotal(items: seq<Item<string>>)
    requires forall k | 0 <= k < |items| :: items[k].score >= 0.0
    ensures Sum(GroupMaxima(items)) <= Total(ItemScores(items))
  {
    if items != [] {
      var init, last := items[..|items| - 1], items[|items| - 1];
      MaximaBelowTotal(init);
      GroupMaximaNonnegative(init);
      var table := GroupMaxima(init);
      var v := if last.key in table && table[last.key] >= last.score then table[last.key] else last.score;
      SumUpdate(table, last.key, v);
      assert ItemScores(items)[..|items| - 1] == ItemScores(init);
    }
  }

  /** Two entries under different keys both count. */
  lemma SplitTotal(items: seq<Item<string>>, i: nat, j: nat)
    requires i < |items| && j < |items| && items[i].key != items[j].key
    requires forall k | 0 <= k < |items| :: items[k].score >= 0.0
    ensures Sum(GroupMaxima(items)) >= items[i].score + items[j].score
    ensures |GroupMaxima(items)| >= 1
  {
    var table := GroupMaxima(items);
    GroupMaximaMeaning(items);
    GroupMaximaNonnegative(items);
    var a, b := items[i].key, items[j].key;
    SumRemove(table, a);
    SumRemove(table - {a}, b);
    SumNonnegative((table - {a}) - {b});
    assert a in table.Keys;
  }

  lemma {:induction false} TotalAtMost(values: seq<real>, small: real, at: nat, large: real)
    requires small >= 0.0 && large >= small
    requires forall k | 0 <= k < |values| :: values[k] <= if k == at then large else small
    ensures Total(values) <= |values| as real * small + (large - small)
    ensures at >= |values| ==> Total(values) <= |values| as real * small
  {
    if values != [] {
      TotalAtMost(values[..|values| - 1], small, at, large);
    }
  }

  // ----- The rule -----

  function CollidingRule(names: seq<Name>, i: nat, j: nat): Rule {
    Rule("r", "n", "waf", "v", 1, 25.0, All(LeafList(Samples(names, i, j))), [], [], [], [])
  }

  function CollidingSet(names: seq<Name>, i: nat, j: nat): RuleSet {
    RuleSet(CURRENT_SCHEMA_VERSION, [CollidingRule(names, i, j)])
  }

  lemma CollidingWellFormed(names: seq<Name>, i: nat, j: nat)
    requires ValidNames(names)
    ensures WellFormed(CollidingRule(names, i, j).condition, 1, CURRENT_SCHEMA_VERSION)
    ensures Leaves(CollidingRule(names, i, j).condition) == Samples(names, i, j)
  {
    var es := Samples(names, i, j);
    LeavesOfLeafList(es);
    forall k | 0 <= k < |es| ensures WellFormed(LeafList(es)[k], 2, CURRENT_SCHEMA_VERSION) {
      SampleValid(names[k], WeightAt(k, i, j));
    }
  }

  lemma CollidingRuleValid(names: seq<Name>, i: nat, j: nat)
    requires ValidNames(names)
    ensures ValidRule(CollidingRule(names, i, j), CURRENT_SCHEMA_VERSION)
  {
    var r, es := CollidingRule(names, i, j), Samples(names, i, j);
    CollidingWellFormed(names, i, j);
    assert r.name[0] == 'n' && r.vendor[0] == 'v' && !Blank(r.name) && !Blank(r.vendor);
    assert es + r.negative + r.ambiguous == es;
    assert EvidenceGroup(es[0]) in Groups(es);
    assert |Groups(es)| >= 1 by { SubsetCardinality({EvidenceGroup(es[0])}, Groups(es)); }
  }

  lemma SoleRule(r: Rule)
    requires r.id == "r" && r.dependencies == []
    ensures UniqueRules([r]) && RuleIds([r]) == {"r"}
    ensures Requirements([r]) == map["r" := []]
    ensures Closed(Requirements([r])) && Acyclic(Requirements([r]))
  {
    var rules := [r];
    assert RuleIds(rules) == {"r"} by { assert rules[0].id in RuleIds(rules); }
    RuleKnown(rules, 0);
    var g := Requirements(rules);
    forall id | id in g ensures !OnCycle(g, id) {
      if OnCycle(g, id) {
        OnCycleUnfold(g, id);
        assert false;
      }
    }
  }

  lemma CollidingSetValid(names: seq<Name>, i: nat, j: nat)
    requires ValidNames(names)
    ensures ValidRuleSet(CollidingSet(names, i, j)) && Closed(Requirements(CollidingSet(names, i, j).rules))
    ensures Carries(CollidingSet(names, i, j), names)
  {
    CollidingRuleValid(names, i, j);
    SoleRule(CollidingRule(names, i, j));
    CollidingWellFormed(names, i, j);
    SamplesAreSamples(names, i, j);
  }

  // ----- What the two evaluators make of it -----

  lemma CollidingItems(names: seq<Name>, i: nat, j: nat, k: nat)
    requires k < |names|
    ensures Items(SeenMatches(Samples(names, i, j)))[k]
         == Item(EvidenceGroup(Sample(names[k], WeightAt(k, i, j))), WeightAt(k, i, j))
  {
  }

  lemma RestIsSmall(items: seq<Item<string>>, i: nat, j: nat)
    requires i < |items| <= MAX_EVIDENCE_PER_RULE && j < |items| && i != j
    requires forall k | 0 <= k < |items| :: items[k].score == WeightAt(k, i, j)
    ensures Total(ItemScores(Without(items, i))) < 25.0
  {
    var rest := Without(items, i);
    var scores := ItemScores(rest);
    var at := PlaceOf(j, i, j);
    forall k | 0 <= k < |scores| ensures scores[k] <= if k == at then 13.0 else 0.01 {
      var l := if k < i then k else k + 1;
      assert rest[k] == items[l] && (k == at <==> l == j);
    }
    TotalAtMost(scores, 0.01, at, 13.0);
  }

  /** Scoring merges the pair, and stays below the threshold. */
  lemma CollidingScore(names: seq<Name>, i: nat, j: nat)
    requires ValidNames(names) && CollidesAt(names, i, j)
    ensures PositiveTotal(SeenMatches(Samples(names, i, j))) < 25.0
  {
    var items := Items(SeenMatches(Samples(names, i, j)));
    forall k | 0 <= k < |items| ensures items[k].score == WeightAt(k, i, j) { CollidingItems(names, i, j, k); }
    CollidingItems(names, i, j, i);
    CollidingItems(names, i, j, j);
    RestIsSmall(items, i, j);
    MergedTotal(items, i, j);
  }

  /** Coverage counts the pair twice, and reaches it. */
  lemma CollidingReach(names: seq<Name>, i: nat, j: nat)
    requires ValidNames(names) && CollidesAt(names, i, j)
    ensures CanReachThreshold(CollidingRule(names, i, j), SeenPotential(Samples(names, i, j)), 0.0)
    ensures ListOf(UnknownSources(SeenPotential(Samples(names, i, j)))) == []
  {
    var potential := SeenPotential(Samples(names, i, j));
    var items := CoverageItems(potential);
    forall k | 0 <= k < |items| ensures items[k].score == WeightAt(k, i, j) { }
    KeysSeparate(potential[i], i, potential[j], j);
    SplitTotal(items, i, j);
    assert UnknownSources(potential) == {};
    ListsEmpty(ListOf({}), {});
  }

  lemma CollidingUndetected(names: seq<Name>, i: nat, j: nat)
    requires ValidNames(names) && CollidesAt(names, i, j)
    ensures var rules := CollidingSet(names, i, j).rules;
            && UniqueRules(rules) && "r" in RuleIds(rules)
            && !Detected(rules, TableFor(rules, {Sighting()}), "r")
            && PenaltiesSeen(rules, TableFor(rules, {Sighting()}), CollidingRule(names, i, j)) == 0.0
  {
    var rules, r := CollidingSet(names, i, j).rules, CollidingRule(names, i, j);
    SoleRule(r);
    SamplesAreSamples(names, i, j);
    AllMatched(Samples(names, i, j));
    CollidingScore(names, i, j);
    TableAt(rules, {Sighting()}, r);
    var table := TableFor(rules, {Sighting()});
    assert table["r"].positive == SeenMatches(Samples(names, i, j));
    assert table["r"].negative == [] && table["r"].ambiguous == [] && ConflictsOf(r, table) == [];
    assert PenaltyTotal([]) == 0.0 && Total(AppliedPenalties([], table)) == 0.0;
    DetectedUnfold(rules, table, "r");
  }

  lemma CollidingFact(ch: Channels, names: seq<Name>, i: nat, j: nat)
    requires ValidNames(names) && CollidesAt(names, i, j)
    ensures var rules := CollidingSet(names, i, j).rules;
            && UniqueRules(rules) && "r" in RuleIds(rules)
            && var f := ScanFact(rules, {Sighting()}, ch, CollidingRule(names, i, j));
               f.own == Unknown && !f.detected && f.incomplete == []
  {
    CollidingUndetected(names, i, j);
    SamplesAreSamples(names, i, j);
    AllCovered(Samples(names, i, j), ch);
    CollidingReach(names, i, j);
  }

  lemma OnlyItself(g: Graph<string>, facts: FactTable)
    requires g == map["r" := []] && facts.Keys == g.Keys && Closed(g)
    requires facts["r"].own == Unknown && !facts["r"].detected && facts["r"].incomplete == []
    ensures AnswerFor(g, facts, "r").status == InsufficientCoverage && AnswerFor(g, facts, "r").incompleteSources == []
  {
    assert OpenSources(g, facts, "r") == {};
    ListsEmpty(ListOf({}), {});
  }

  /** A valid rule set with these names ends in insufficient coverage with no channel to blame. */
  ghost predicate OpenInVain(s: RuleSet, ch: Channels, names: seq<Name>, signals: set<Signal>, id: string) {
    && ValidRuleSet(s) && Closed(Requirements(s.rules)) && Carries(s, names) && id in RuleIds(s.rules)
    && Confident(signals)
    && ScanAnswers(s.rules, signals, ch)[id].status == InsufficientCoverage
    && ScanAnswers(s.rules, signals, ch)[id].incompleteSources == []
  }

  lemma CollidingStatus(ch: Channels, names: seq<Name>, i: nat, j: nat)
    requires ValidNames(names) && CollidesAt(names, i, j)
    ensures var rules := CollidingSet(names, i, j).rules;
            && UniqueRules(rules) && Closed(Requirements(rules)) && "r" in RuleIds(rules)
            && ScanAnswers(rules, {Sighting()}, ch)["r"].status == InsufficientCoverage
            && ScanAnswers(rules, {Sighting()}, ch)["r"].incompleteSources == []
  {
    var rules := CollidingSet(names, i, j).rules;
    SoleRule(CollidingRule(names, i, j));
    CollidingFact(ch, names, i, j);
    UniqueRule(rules, CollidingRule(names, i, j));
    OnlyItself(Requirements(rules), ScanFacts(rules, {Sighting()}, ch));
  }

  /** Every collision does harm: a rule set of its own, whatever the channels, even all complete ones. */
  lemma OpenWithoutAChannel(ch: Channels, names: seq<Name>, i: nat, j: nat)
    requires ValidNames(names) && CollidesAt(names, i, j)
    ensures OpenInVain(CollidingSet(names, i, j), ch, names, {Sighting()}, "r")
  {
    CollidingSetValid(names, i, j);
    CollidingStatus(ch, names, i, j);
  }

  // ----- Both directions -----

  lemma NamesUnambiguous(es: seq<Evidence>)
    requires !Collides(NamesOf(es))
    ensures UnambiguousGroups(es)
  {
    forall i, j | 0 <= i < |es| && 0 <= j < |es| && es[i].group == "" && es[j].group != "" ensures es[i].id != es[j].group {
      assert !CollidesAt(NamesOf(es), i, j);
    }
  }

  lemma OpenIsInexact(s: RuleSet, ch: Channels, names: seq<Name>, signals: set<Signal>, id: string)
    requires OpenInVain(s, ch, names, signals, id)
    ensures !AlwaysExact(ch, names)
  {
    assert !ExactFor(s, ch, signals, id);
  }

  lemma CollisionBreaksExactness(ch: Channels, names: seq<Name>, i: nat, j: nat)
    requires ValidNames(names) && CollidesAt(names, i, j)
    ensures !AlwaysExact(ch, names)
  {
    OpenWithoutAChannel(ch, names, i, j);
    OpenIsInexact(CollidingSet(names, i, j), ch, names, {Sighting()}, "r");
  }

  lemma ExactWithoutCollision(s: RuleSet, ch: Channels, signals: set<Signal>, id: string, names: seq<Name>)
    requires ValidRuleSet(s) && Closed(Requirements(s.rules)) && Carries(s, names) && !Collides(names)
    requires Confident(signals) && id in RuleIds(s.rules) && AllComplete(ch)
    ensures ExactFor(s, ch, signals, id)
  {
    forall i | 0 <= i < |s.rules| ensures UnambiguousGroups(Leaves(s.rules[i].condition)) {
      NamesUnambiguous(Leaves(s.rules[i].condition));
    }
    CompleteMeansExact(s, ch, signals, id);
  }

  lemma NoCollisionIsExact(ch: Channels, names: seq<Name>)
    requires !Collides(names) && AllComplete(ch)
    ensures AlwaysExact(ch, names)
  {
    forall s, signals, id |
      && ValidRuleSet(s) && Closed(Requirements(s.rules)) && Carries(s, names)
      && Confident(signals) && id in RuleIds(s.rules) ensures ExactFor(s, ch, signals, id)
    {
      ExactWithoutCollision(s, ch, signals, id, names);
    }
  }

  /**
   * Over all valid rule sets whose evidence carries the given names, all confident signals and all complete channels,
   * the three-valued status is exact if and only if no ungrouped evidence ID is also a group name.
   */
  lemma ExactIffNoCollision(ch: Channels, names: seq<Name>)
    requires ValidNames(names) && AllComplete(ch)
    ensures AlwaysExact(ch, names) <==> !Collides(names)
  {
    if Collides(names) {
      var i: nat, j: nat :| CollidesAt(names, i, j);
      CollisionBreaksExactness(ch, names, i, j);
    } else {
      NoCollisionIsExact(ch, names);
    }
  }
}
