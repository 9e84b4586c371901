/** Three-valued evaluation is exact: an open verdict always names a channel that keeps it open. */
module Exactness {
  import opened Model
  import opened Ordering
  import opened Schema
  import opened SchemaValidation
  import opened Matching
  import opened Sums
  import opened Scoring
  import opened Detections
  import opened Capabilities
  import opened Coverage
  import opened CoverageLaws
  import opened Scanner
  import opened Conclusive

  // ----- Without unknown evidence the bound is the evidence -----

  ghost predicate NoneUnknown(potential: seq<PotentialEvidence>) {
    forall i | 0 <= i < |potential| :: !potential[i].isUnknown
  }

  /** The potential evidence is the matched evidence, item by item. */
  ghost predicate Aligned(potential: seq<PotentialEvidence>, evidence: seq<EvidenceMatch>) {
    && |potential| == |evidence|
    && forall i | 0 <= i < |potential| ::
         evidence[i].group == MergedKey(potential[i]) && Contribution(evidence[i]) == potential[i].score
  }

  lemma AlignedConcat(a: seq<PotentialEvidence>, b: seq<EvidenceMatch>, a': seq<PotentialEvidence>, b': seq<EvidenceMatch>)
    requires Aligned(a, b) && Aligned(a', b')
    ensures Aligned(a + a', b + b')
  {
  }

  lemma NoneUnknownParts(a: seq<PotentialEvidence>, b: seq<PotentialEvidence>)
    requires NoneUnknown(a + b)
    ensures NoneUnknown(a) && NoneUnknown(b)
  {
    forall i | 0 <= i < |a| ensures !a[i].isUnknown { assert (a + b)[i] == a[i]; }
    forall i | 0 <= i < |b| ensures !b[i].isUnknown { assert (a + b)[|a| + i] == b[i]; }
  }

  lemma LeafExact(e: Evidence, signals: set<Signal>, ch: Channels)
    requires CoverLeaf(e, signals, ch).canBeSatisfied && NoneUnknown(CoverLeaf(e, signals, ch).potential)
    ensures AnyMatch(e, signals)
    ensures Aligned(CoverLeaf(e, signals, ch).potential, [MatchOf(e, Strongest(e, signals))])
  {
    var p := CoverLeaf(e, signals, ch).potential;
    assert !p[0].isUnknown;
    assert Contribution(MatchOf(e, Strongest(e, signals))) == p[0].score;
  }

  lemma {:induction false} CoverExact(c: Condition, signals: set<Signal>, ch: Channels)
    requires PositiveWeights(Leaves(c))
    requires Cover(c, signals, ch).canBeSatisfied && NoneUnknown(Cover(c, signals, ch).potential)
    ensures Evaluate(c, signals).matched && Aligned(Cover(c, signals, ch).potential, Evaluate(c, signals).evidence)
    decreases c
  {
    match c
    case Leaf(e) => LeafExact(e, signals, ch);
    case All(children) => CoverAllExact(children, signals, ch);
    case Any(children) => CoverAnyExact(children, signals, ch);
  }

  lemma {:induction false} CoverAllExact(cs: seq<Condition>, signals: set<Signal>, ch: Channels)
    requires PositiveWeights(LeavesOfAll(cs))
    requires !CoverAll(cs, signals, ch).failed && NoneUnknown(CoverAll(cs, signals, ch).potential)
    ensures EvaluateAll(cs, signals).matched && Aligned(CoverAll(cs, signals, ch).potential, EvaluateAll(cs, signals).evidence)
    decreases cs
  {
    if cs != [] {
      var init, last := cs[..|cs| - 1], cs[|cs| - 1];
      PositiveParts(LeavesOfAll(init), Leaves(last));
      NoneUnknownParts(CoverAll(init, signals, ch).potential, Cover(last, signals, ch).potential);
      CoverAllExact(init, signals, ch);
      CoverExact(last, signals, ch);
      AlignedConcat(CoverAll(init, signals, ch).potential, EvaluateAll(init, signals).evidence,
                    Cover(last, signals, ch).potential, Evaluate(last, signals).evidence);
    }
  }

  lemma {:induction false} CoverAnyExact(cs: seq<Condition>, signals: set<Signal>, ch: Channels)
    requires PositiveWeights(LeavesOfAll(cs)) && NoneUnknown(CoverAny(cs, signals, ch).potential)
    ensures CoverAny(cs, signals, ch).satisfiable <==> EvaluateAny(cs, signals).0.matched
    ensures Aligned(CoverAny(cs, signals, ch).potential, EvaluateAny(cs, signals).0.evidence)
    decreases cs
  {
    if cs != [] {
      var init, last := cs[..|cs| - 1], cs[|cs| - 1];
      PositiveParts(LeavesOfAll(init), Leaves(last));
      if Evaluate(last, signals).matched { var at := FutureIsBounded(last, ch, signals, signals); }
      if Cover(last, signals, ch).canBeSatisfied {
        NoneUnknownParts(CoverAny(init, signals, ch).potential, Cover(last, signals, ch).potential);
        CoverExact(last, signals, ch);
        CoverAnyExact(init, signals, ch);
        AlignedConcat(CoverAny(init, signals, ch).potential, EvaluateAny(init, signals).0.evidence,
                      Cover(last, signals, ch).potential, Evaluate(last, signals).evidence);
      } else {
        CoverAnyExact(init, signals, ch);
      }
    }
  }

  // ----- Splitting and merging groups -----

  /** No ungrouped evidence ID is also the name of a group of other evidence. */
  ghost predicate NoCollision(potential: seq<PotentialEvidence>) {
    forall i, j | 0 <= i < |potential| && 0 <= j < |potential| && potential[i].group == "" && potential[j].group != "" ::
      potential[i].id != potential[j].group
  }

  ghost predicate DistinctPotential(potential: seq<PotentialEvidence>) {
    forall i, j | 0 <= i < j < |potential| :: potential[i].id != potential[j].id
  }

  function Identity(n: nat): (at: seq<nat>)
    ensures |at| == n && forall i | 0 <= i < n :: at[i] == i
  {
    seq(n, i requires 0 <= i < n => i)
  }

  lemma MergedBelowSplit(potential: seq<PotentialEvidence>, evidence: seq<EvidenceMatch>)
    requires Aligned(potential, evidence) && ValidGroups(potential)
    ensures Below(Items(evidence), CoverageItems(potential), Identity(|evidence|))
  {
    var a, b := Items(evidence), CoverageItems(potential);
    forall i, j | 0 <= i < |a| && 0 <= j < |a| && b[i].key == b[j].key ensures a[i].key == a[j].key {
      KeysSeparate(potential[i], i, potential[j], j);
    }
  }

  lemma SplitBelowMerged(potential: seq<PotentialEvidence>, evidence: seq<EvidenceMatch>)
    requires Aligned(potential, evidence) && ValidGroups(potential) && NoCollision(potential) && DistinctPotential(potential)
    requires forall i | 0 <= i < |potential| :: potential[i].score >= 0.0
    ensures Below(CoverageItems(potential), Items(evidence), Identity(|evidence|))
  {
    var a, b := CoverageItems(potential), Items(evidence);
    forall i, j | 0 <= i < |a| && 0 <= j < |a| && b[i].key == b[j].key ensures a[i].key == a[j].key {
      KeysSeparate(potential[i], i, potential[j], j);
      assert i < j ==> potential[i].id != potential[j].id;
      assert j < i ==> potential[j].id != potential[i].id;
    }
  }

  ghost predicate SameTotals(potential: seq<PotentialEvidence>, evidence: seq<EvidenceMatch>) {
    && Sum(GroupMaxima(CoverageItems(potential))) == PositiveTotal(evidence)
    && |GroupMaxima(CoverageItems(potential))| == |GroupMaxima(Items(evidence))|
  }

  lemma WithoutCollision(potential: seq<PotentialEvidence>, evidence: seq<EvidenceMatch>)
    requires Aligned(potential, evidence) && ValidGroups(potential) && NoCollision(potential) && DistinctPotential(potential)
    requires forall i | 0 <= i < |potential| :: potential[i].score >= 0.0
    ensures SameTotals(potential, evidence)
  {
    MergedBelowSplit(potential, evidence);
    SplitBelowMerged(potential, evidence);
    BelowBounds(Items(evidence), CoverageItems(potential), Identity(|evidence|));
    BelowBounds(CoverageItems(potential), Items(evidence), Identity(|evidence|));
  }

  /** A collision makes the split form count one group too many, with a positive maximum. */
  lemma WithCollision(potential: seq<PotentialEvidence>, evidence: seq<EvidenceMatch>, i: nat, j: nat)
    requires Aligned(potential, evidence) && ValidGroups(potential)
    requires forall i | 0 <= i < |potential| :: potential[i].score > 0.0
    requires i < |potential| && j < |potential| && potential[i].group == "" && potential[i].id == potential[j].group != ""
    ensures PositiveTotal(evidence) < Sum(GroupMaxima(CoverageItems(potential)))
    ensures |GroupMaxima(Items(evidence))| < |GroupMaxima(CoverageItems(potential))|
  {
    MergedBelowSplit(potential, evidence);
    KeysSeparate(potential[i], i, potential[j], j);
    assert Items(evidence)[i].key == Items(evidence)[j].key;
    BelowStrictly(Items(evidence), CoverageItems(potential), Identity(|evidence|), i, j);
  }

  /** For distinct, positively scored evidence: the coverage groups agree with the score groups exactly without a collision. */
  lemma SplitAgreesIffNoCollision(potential: seq<PotentialEvidence>, evidence: seq<EvidenceMatch>)
    requires Aligned(potential, evidence) && ValidGroups(potential) && DistinctPotential(potential)
    requires forall i | 0 <= i < |potential| :: potential[i].score > 0.0
    ensures SameTotals(potential, evidence) <==> NoCollision(potential)
  {
    if NoCollision(potential) {
      WithoutCollision(potential, evidence);
    } else {
      var i, j :| 0 <= i < |potential| && 0 <= j < |potential| && potential[i].group == "" && potential[j].group != ""
                  && potential[i].id == potential[j].group;
      WithCollision(potential, evidence, i, j);
    }
  }

  // ----- The sources that unknown evidence names -----

  /** source is an incomplete channel that could satisfy one of the predicates. */
  ghost predicate OpenFor(ch: Channels, es: seq<Evidence>, source: string) {
    exists i :: 0 <= i < |es| && source in IncompleteSet(ch, es[i])
  }

  lemma OpenForParts(ch: Channels, a: seq<Evidence>, b: seq<Evidence>, source: string)
    requires OpenFor(ch, a, source) || OpenFor(ch, b, source)
    ensures OpenFor(ch, a + b, source)
  {
    if OpenFor(ch, a, source) {
      var i :| 0 <= i < |a| && source in IncompleteSet(ch, a[i]);
      assert (a + b)[i] == a[i];
    } else {
      var i :| 0 <= i < |b| && source in IncompleteSet(ch, b[i]);
      assert (a + b)[|a| + i] == b[i];
    }
  }

  /** Unknown evidence names at least one source; every named source is required, and incomplete for some predicate. */
  ghost predicate NamesSources(potential: seq<PotentialEvidence>, required: set<string>, ch: Channels, es: seq<Evidence>) {
    forall i | 0 <= i < |potential| && potential[i].isUnknown ::
      && potential[i].incompleteSources != []
      && forall x | x in potential[i].incompleteSources :: x in required && OpenFor(ch, es, x)
  }

  lemma NamesConcat(a: seq<PotentialEvidence>, required: set<string>, es: seq<Evidence>,
                    b: seq<PotentialEvidence>, required': set<string>, es': seq<Evidence>, ch: Channels)
    requires NamesSources(a, required, ch, es) && NamesSources(b, required', ch, es')
    ensures NamesSources(a + b, required + required', ch, es + es')
  {
    forall i, x | 0 <= i < |a + b| && (a + b)[i].isUnknown && x in (a + b)[i].incompleteSources
      ensures x in required + required' && OpenFor(ch, es + es', x)
    {
      if i < |a| { assert (a + b)[i] == a[i]; } else { assert (a + b)[i] == b[i - |a|]; }
      OpenForParts(ch, es, es', x);
    }
  }

  lemma LeafNames(e: Evidence, signals: set<Signal>, ch: Channels)
    ensures NamesSources(CoverLeaf(e, signals, ch).potential, Elements(CoverLeaf(e, signals, ch).requiredSources), ch, [e])
  {
    var c := CoverLeaf(e, signals, ch);
    if c.state == Unknown {
      var list := ListOf(IncompleteSet(ch, e));
      ListsEmpty(list, IncompleteSet(ch, e));
      forall x | x in list ensures x in Elements(c.requiredSources) && OpenFor(ch, [e], x) {
        assert x in Elements(list) && Elements(c.requiredSources) == CapableSet(ch.registry, e);
        assert x in IncompleteSet(ch, [e][0]);
      }
    }
  }

  lemma {:induction false} CoverNames(c: Condition, signals: set<Signal>, ch: Channels)
    ensures NamesSources(Cover(c, signals, ch).potential, Elements(Cover(c, signals, ch).requiredSources), ch, Leaves(c))
    decreases c
  {
    match c
    case Leaf(e) => LeafNames(e, signals, ch);
    case All(children) => CoverAllNames(children, signals, ch);
    case Any(children) => CoverAnyNames(children, signals, ch);
  }

  lemma {:induction false} CoverAllNames(cs: seq<Condition>, signals: set<Signal>, ch: Channels)
    ensures NamesSources(CoverAll(cs, signals, ch).potential, CoverAll(cs, signals, ch).required, ch, LeavesOfAll(cs))
    decreases cs
  {
    if cs != [] {
      var init, last := cs[..|cs| - 1], cs[|cs| - 1];
      CoverAllNames(init, signals, ch);
      CoverNames(last, signals, ch);
      var s, c := CoverAll(init, signals, ch), Cover(last, signals, ch);
      NamesConcat(s.potential, s.required, LeavesOfAll(init), c.potential, Elements(c.requiredSources), Leaves(last), ch);
      NamesConcat(s.potential, s.required, LeavesOfAll(init), [], Elements(c.requiredSources), Leaves(last), ch);
      NamesConcat(s.potential, s.required, LeavesOfAll(init), [], {}, Leaves(last), ch);
      assert s.potential + [] == s.potential && s.required + {} == s.required;
    }
  }

  lemma {:induction false} CoverAnyNames(cs: seq<Condition>, signals: set<Signal>, ch: Channels)
    ensures NamesSources(CoverAny(cs, signals, ch).potential, CoverAny(cs, signals, ch).required, ch, LeavesOfAll(cs))
    decreases cs
  {
    if cs != [] {
      var init, last := cs[..|cs| - 1], cs[|cs| - 1];
      CoverAnyNames(init, signals, ch);
      CoverNames(last, signals, ch);
      var s, c := CoverAny(init, signals, ch), Cover(last, signals, ch);
      NamesConcat(s.potential, s.required, LeavesOfAll(init), c.potential, Elements(c.requiredSources), Leaves(last), ch);
      NamesConcat(s.potential, s.required, LeavesOfAll(init), [], Elements(c.requiredSources), Leaves(last), ch);
      assert s.potential + [] == s.potential;
    }
  }

  // ----- One rule -----

  /** No ungrouped predicate of the rule has an ID that names a group of the rule. */
  ghost predicate UnambiguousGroups(es: seq<Evidence>) {
    forall i, j | 0 <= i < |es| && 0 <= j < |es| && es[i].group == "" && es[j].group != "" :: es[i].id != es[j].group
  }

  lemma SourcedUnambiguous(potential: seq<PotentialEvidence>, es: seq<Evidence>, from: seq<nat>)
    requires Sourced(potential, es, from) && DistinctIds(es) && UnambiguousGroups(es)
    ensures NoCollision(potential) && DistinctPotential(potential)
  {
    forall i, j | 0 <= i < j < |potential| ensures potential[i].id != potential[j].id {
      assert from[i] < from[j] && es[from[i]].id != es[from[j]].id;
    }
    forall i, j | 0 <= i < |potential| && 0 <= j < |potential| && potential[i].group == "" && potential[j].group != ""
      ensures potential[i].id != potential[j].group
    {
      assert es[from[i]].id != es[from[j]].group;
    }
  }

  lemma RuleIdsDistinct(r: Rule, version: int)
    requires ValidRule(r, version)
    ensures DistinctIds(Leaves(r.condition))
  {
    DistinctConcat(Leaves(r.condition) + r.negative, r.ambiguous);
    DistinctConcat(Leaves(r.condition), r.negative);
  }

  /** For a candidate, the penalties seen are the penalties scored. */
  lemma PenaltiesScored(rules: seq<Rule>, r: Rule, signals: set<Signal>)
    requires UniqueRules(rules) && r in rules && PositiveRule(r) && Confident(signals)
    requires MatchRule(r, signals).Candidate()
    ensures r.id in TableFor(rules, signals)
    ensures EvidenceBase(rules, r, signals)
         == PositiveTotal(MatchRule(r, signals).positive) - PenaltiesSeen(rules, TableFor(rules, signals), r)
  {
    TableAt(rules, signals, r);
    MagnitudesArePenalties(r.negative, signals);
    MagnitudesArePenalties(r.ambiguous, signals);
    AppliedListTotal(r.conflicts, TableFor(rules, signals));
  }

  /** If nothing unknown is left, a rule whose own coverage is open meets its thresholds already. */
  lemma OwnIsExact(rules: seq<Rule>, r: Rule, version: int, ch: Channels, signals: set<Signal>)
    requires UniqueRules(rules) && r in rules && ValidRule(r, version) && UnambiguousGroups(Leaves(r.condition))
    requires Confident(signals) && r.id in RuleIds(rules)
    requires ScanFact(rules, signals, ch, r).own == Unknown && ScanFact(rules, signals, ch, r).incomplete == []
    ensures Standing(r, TableFor(rules, signals))
  {
    var cover := Cover(r.condition, signals, ch);
    ValidIsPositive(r, version);
    TableAt(rules, signals, r);
    CoverNames(r.condition, signals, ch);
    NothingUnknown(cover.potential, Elements(cover.requiredSources), ch, Leaves(r.condition));
    CoverExact(r.condition, signals, ch);
    var from := CoverSourced(r.condition, signals, ch);
    WellFormedLeaves(r.condition, 1, version);
    SourcedGroups(cover.potential, Leaves(r.condition), from);
    RuleIdsDistinct(r, version);
    SourcedUnambiguous(cover.potential, Leaves(r.condition), from);
    var evidence := MatchRule(r, signals).positive;
    EvidenceWeighted(r.condition, signals);
    AlignedNonnegative(cover.potential, evidence);
    WithoutCollision(cover.potential, evidence);
    GroupCount(evidence);
    PenaltiesScored(rules, r, signals);
  }

  lemma AlignedNonnegative(potential: seq<PotentialEvidence>, evidence: seq<EvidenceMatch>)
    requires Aligned(potential, evidence) && Weighted(evidence)
    ensures forall i | 0 <= i < |potential| :: potential[i].score >= 0.0
  {
    forall i | 0 <= i < |potential| ensures potential[i].score >= 0.0 {
      ProductMonotone(evidence[i].weight, 0.0, evidence[i].signal.confidence);
    }
  }

  lemma UnknownIsNamed(potential: seq<PotentialEvidence>, required: set<string>, ch: Channels, es: seq<Evidence>, i: nat)
    requires NamesSources(potential, required, ch, es) && i < |potential| && potential[i].isUnknown
    ensures ListOf(UnknownSources(potential)) != []
  {
    var x := potential[i].incompleteSources[0];
    assert x in potential[i].incompleteSources && x in UnknownSources(potential);
    ListsEmpty(ListOf(UnknownSources(potential)), UnknownSources(potential));
  }

  lemma NothingUnknown(potential: seq<PotentialEvidence>, required: set<string>, ch: Channels, es: seq<Evidence>)
    requires NamesSources(potential, required, ch, es) && ListOf(UnknownSources(potential)) == []
    ensures NoneUnknown(potential)
  {
    forall i | 0 <= i < |potential| ensures !potential[i].isUnknown {
      if potential[i].isUnknown { UnknownIsNamed(potential, required, ch, es, i); }
    }
  }
}
