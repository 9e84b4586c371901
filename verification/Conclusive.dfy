/** A not-detected verdict is conclusive, and exactly when it is. */
module Conclusive {
  import opened DependencyGraph
  import opened Model
  import opened Schema
  import opened SchemaValidation
  import opened Matching
  import opened MatchingLaws
  import opened Sums
  import opened Scoring
  import opened Detections
  import opened Coverage
  import opened CoverageLaws
  import opened Status
  import opened Scanner

  // ----- Penalties only grow -----

  ghost predicate Confident(signals: set<Signal>) {
    forall s | s in signals :: 0.0 <= s.confidence <= 1.0
  }

  lemma AdmissibleConfident(ch: Channels, signals: set<Signal>, more: set<Signal>)
    requires Admissible(ch, signals, more) && Confident(signals)
    ensures Confident(more)
  {
  }

  lemma {:induction false} MagnitudesArePenalties(es: seq<Evidence>, signals: set<Signal>)
    requires Confident(signals) && PositiveWeights(es)
    ensures MatchMagnitudes(MatchList(es, signals)) == Contributions(MatchList(es, signals))
    decreases |es|
  {
    if es != [] {
      var init, last := es[..|es| - 1], es[|es| - 1];
      MagnitudesArePenalties(init, signals);
      if AnyMatch(last, signals) {
        var m := MatchOf(last, Strongest(last, signals));
        ProductMonotone(last.weight, 0.0, m.signal.confidence);
        assert Magnitude(-Contribution(m)) == Contribution(m);
        assert MatchMagnitudes(MatchList(init, signals) + [m]) == MatchMagnitudes(MatchList(init, signals)) + [Contribution(m)];
        assert Contributions(MatchList(init, signals) + [m]) == Contributions(MatchList(init, signals)) + [Contribution(m)];
      }
    }
  }

  lemma PenaltyAppend(matches: seq<EvidenceMatch>, m: EvidenceMatch)
    ensures PenaltyTotal(matches + [m]) == PenaltyTotal(matches) + Contribution(m)
  {
    assert Contributions(matches + [m])[..|matches|] == Contributions(matches);
  }

  ghost function PenaltyOf(e: Evidence, signals: set<Signal>): real {
    if AnyMatch(e, signals) then Contribution(MatchOf(e, Strongest(e, signals))) else 0.0
  }

  lemma PenaltyLast(es: seq<Evidence>, signals: set<Signal>)
    requires es != []
    ensures PenaltyTotal(MatchList(es, signals))
         == PenaltyTotal(MatchList(es[..|es| - 1], signals)) + PenaltyOf(es[|es| - 1], signals)
  {
    var last, before := es[|es| - 1], MatchList(es[..|es| - 1], signals);
    if AnyMatch(last, signals) {
      var m := MatchOf(last, Strongest(last, signals));
      PenaltyAppend(before, m);
      assert MatchList(es, signals) == before + [m];
    } else {
      assert MatchList(es, signals) == before;
    }
  }

  lemma PenaltyIs(e: Evidence, signals: set<Signal>)
    requires AnyMatch(e, signals)
    ensures PenaltyOf(e, signals) == e.weight * Strongest(e, signals).confidence
  {
  }

  lemma ScaledAlike(p: real, q: real, w: real, x: real, y: real)
    requires p == w * x && q == w * y && w >= 0.0 && x <= y
    ensures p <= q
  {
    ProductMonotone(w, x, y);
  }

  lemma NoPenaltyYet(e: Evidence, more: set<Signal>)
    requires Confident(more) && e.weight > 0.0
    ensures PenaltyOf(e, more) >= 0.0
  {
    if AnyMatch(e, more) {
      PenaltyIs(e, more);
      ScaledAlike(0.0, PenaltyOf(e, more), e.weight, 0.0, Strongest(e, more).confidence);
    }
  }

  lemma PenaltyOfGrows(e: Evidence, signals: set<Signal>, more: set<Signal>)
    requires signals <= more && Confident(more) && e.weight > 0.0
    ensures PenaltyOf(e, signals) <= PenaltyOf(e, more)
  {
    if AnyMatch(e, signals) {
      StrongestGrows(e, signals, more);
      PenaltyIs(e, signals);
      PenaltyIs(e, more);
      ScaledAlike(PenaltyOf(e, signals), PenaltyOf(e, more), e.weight, Strongest(e, signals).confidence,
                  Strongest(e, more).confidence);
    } else {
      NoPenaltyYet(e, more);
    }
  }

  lemma {:induction false} PenaltiesGrow(es: seq<Evidence>, signals: set<Signal>, more: set<Signal>)
    requires signals <= more && Confident(more) && PositiveWeights(es)
    ensures PenaltyTotal(MatchList(es, signals)) <= PenaltyTotal(MatchList(es, more))
    decreases |es|
  {
    if es != [] {
      PenaltiesGrow(es[..|es| - 1], signals, more);
      PenaltyLast(es, signals);
      PenaltyLast(es, more);
      PenaltyOfGrows(es[|es| - 1], signals, more);
    }
  }

  lemma {:induction false} AppliedListTotal(conflicts: seq<Conflict>, table: MatchTable)
    ensures Total(PenaltiesOf(AppliedConflicts(conflicts, table))) == Total(AppliedPenalties(conflicts, table))
    decreases |conflicts|
  {
    if conflicts != [] {
      var init, last := conflicts[..|conflicts| - 1], conflicts[|conflicts| - 1];
      AppliedListTotal(init, table);
      var before := AppliedConflicts(init, table);
      assert PenaltiesOf(before + [last])[..|before|] == PenaltiesOf(before);
      assert AppliedPenalties(conflicts, table)[..|conflicts| - 1] == AppliedPenalties(init, table);
    }
  }

  // ----- Positive scores and conflicts only grow -----

  lemma CoveredScores(a: seq<EvidenceMatch>, b: seq<EvidenceMatch>, at: seq<nat>)
    requires CoveredBy(a, b, at)
    requires forall i | 0 <= i < |b| :: b[i].weight > 0.0 && b[i].signal.confidence >= 0.0
    ensures PositiveTotal(a) <= PositiveTotal(b)
  {
    forall i | 0 <= i < |at| ensures Items(a)[i].score <= Items(b)[at[i]].score {
      ProductMonotone(a[i].weight, a[i].signal.confidence, b[at[i]].signal.confidence);
    }
    forall i | 0 <= i < |b| ensures Items(b)[i].score >= 0.0 { ProductMonotone(b[i].weight, 0.0, b[i].signal.confidence); }
    BelowBounds(Items(a), Items(b), at);
  }

  ghost predicate Weighted(evidence: seq<EvidenceMatch>) {
    forall i | 0 <= i < |evidence| :: evidence[i].weight > 0.0 && evidence[i].signal.confidence >= 0.0
  }

  lemma WeightedConcat(a: seq<EvidenceMatch>, b: seq<EvidenceMatch>)
    requires Weighted(a) && Weighted(b)
    ensures Weighted(a + b)
  {
  }

  lemma {:induction false} EvidenceWeighted(c: Condition, signals: set<Signal>)
    requires Confident(signals) && PositiveWeights(Leaves(c))
    ensures Weighted(Evaluate(c, signals).evidence)
    decreases c
  {
    match c
    case Leaf(e) => assert Leaves(c)[0] == e;
    case All(children) => AllWeighted(children, signals);
    case Any(children) => AnyWeighted(children, signals);
  }

  lemma {:induction false} AllWeighted(cs: seq<Condition>, signals: set<Signal>)
    requires Confident(signals) && PositiveWeights(LeavesOfAll(cs))
    ensures Weighted(EvaluateAll(cs, signals).evidence)
    decreases cs
  {
    if cs != [] {
      var init, last := cs[..|cs| - 1], cs[|cs| - 1];
      PositiveParts(LeavesOfAll(init), Leaves(last));
      AllWeighted(init, signals);
      EvidenceWeighted(last, signals);
      WeightedConcat(EvaluateAll(init, signals).evidence, Evaluate(last, signals).evidence);
    }
  }

  lemma {:induction false} AnyWeighted(cs: seq<Condition>, signals: set<Signal>)
    requires Confident(signals) && PositiveWeights(LeavesOfAll(cs))
    ensures Weighted(EvaluateAny(cs, signals).0.evidence) && Weighted(EvaluateAny(cs, signals).1.evidence)
    decreases cs
  {
    if cs != [] {
      var init, last := cs[..|cs| - 1], cs[|cs| - 1];
      PositiveParts(LeavesOfAll(init), Leaves(last));
      AnyWeighted(init, signals);
      EvidenceWeighted(last, signals);
      WeightedConcat(EvaluateAny(init, signals).0.evidence, Evaluate(last, signals).evidence);
      WeightedConcat(EvaluateAny(init, signals).1.evidence, Evaluate(last, signals).evidence);
    }
  }

  /** What a valid rule says about its numbers. */
  ghost predicate PositiveRule(r: Rule) {
    && PositiveWeights(Leaves(r.condition)) && PositiveWeights(r.negative) && PositiveWeights(r.ambiguous)
    && (forall i | 0 <= i < |r.conflicts| :: r.conflicts[i].penalty > 0.0)
  }

  lemma {:induction false} WellFormedLeaves(c: Condition, depth: nat, version: int)
    requires WellFormed(c, depth, version)
    ensures forall i | 0 <= i < |Leaves(c)| :: ValidEvidence(Leaves(c)[i])
    decreases c
  {
    match c
    case Leaf(_) =>
    case All(children) => WellFormedChildren(children, depth, version);
    case Any(children) => WellFormedChildren(children, depth, version);
  }

  lemma {:induction false} WellFormedChildren(cs: seq<Condition>, depth: nat, version: int)
    requires forall i | 0 <= i < |cs| :: WellFormed(cs[i], depth + 1, version)
    ensures forall i | 0 <= i < |LeavesOfAll(cs)| :: ValidEvidence(LeavesOfAll(cs)[i])
    decreases cs
  {
    if cs != [] {
      WellFormedChildren(cs[..|cs| - 1], depth, version);
      WellFormedLeaves(cs[|cs| - 1], depth + 1, version);
    }
  }

  lemma ValidIsPositive(r: Rule, version: int)
    requires ValidRule(r, version)
    ensures PositiveRule(r)
  {
    WellFormedLeaves(r.condition, 1, version);
  }

  lemma PositiveScoreGrows(r: Rule, signals: set<Signal>, more: set<Signal>)
    requires signals <= more && Confident(more) && PositiveRule(r)
    requires MatchRule(r, signals).Candidate()
    ensures MatchRule(r, more).Candidate()
    ensures PositiveScore(MatchRule(r, signals)) <= PositiveScore(MatchRule(r, more))
  {
    var at := CandidateGrows(r, signals, more);
    EvidenceWeighted(r.condition, more);
    CoveredScores(MatchRule(r, signals).positive, MatchRule(r, more).positive, at);
  }

  ghost predicate PositiveRules(rules: seq<Rule>) {
    forall i | 0 <= i < |rules| :: PositiveRule(rules[i])
  }

  lemma PositiveById(rules: seq<Rule>, id: string)
    requires PositiveRules(rules) && Known(rules, id)
    ensures PositiveRule(RuleById(rules, id))
  {
    var r := RuleById(rules, id);
    var i :| 0 <= i < |rules| && rules[i] == r;
    assert PositiveRule(rules[i]);
  }

  lemma AppliesGrows(rules: seq<Rule>, c: Conflict, signals: set<Signal>, more: set<Signal>)
    requires UniqueRules(rules) && PositiveRules(rules) && signals <= more && Confident(more)
    requires Applies(c, TableFor(rules, signals))
    ensures Applies(c, TableFor(rules, more))
  {
    var i :| 0 <= i < |rules| && rules[i].id == c.ruleId;
    RuleKnown(rules, i);
    PositiveById(rules, c.ruleId);
    PositiveScoreGrows(RuleById(rules, c.ruleId), signals, more);
  }

  lemma ConflictsGrow(rules: seq<Rule>, r: Rule, signals: set<Signal>, more: set<Signal>)
    requires UniqueRules(rules) && PositiveRules(rules) && PositiveRule(r) && signals <= more && Confident(more)
    ensures Total(AppliedPenalties(r.conflicts, TableFor(rules, signals))) <= Total(AppliedPenalties(r.conflicts, TableFor(rules, more)))
  {
    var a, b := AppliedPenalties(r.conflicts, TableFor(rules, signals)), AppliedPenalties(r.conflicts, TableFor(rules, more));
    forall i | 0 <= i < |a| ensures a[i] <= b[i] {
      if Applies(r.conflicts[i], TableFor(rules, signals)) { AppliesGrows(rules, r.conflicts[i], signals, more); }
    }
    TotalMonotone(a, b);
  }

  lemma AppliedNonnegative(conflicts: seq<Conflict>, table: MatchTable)
    requires forall i | 0 <= i < |conflicts| :: conflicts[i].penalty > 0.0
    ensures Total(AppliedPenalties(conflicts, table)) >= 0.0
  {
    var zeros := seq(|conflicts|, i => 0.0);
    TotalZero(zeros);
    TotalMonotone(zeros, AppliedPenalties(conflicts, table));
  }

  // ----- One rule -----

  lemma TableAt(rules: seq<Rule>, signals: set<Signal>, r: Rule)
    requires UniqueRules(rules) && r in rules
    ensures r.id in RuleIds(rules) && Known(rules, r.id) && RuleById(rules, r.id) == r
    ensures r.id in TableFor(rules, signals) && TableFor(rules, signals)[r.id] == MatchRule(r, signals)
  {
    UniqueRule(rules, r);
  }

  /** What a scan has seen against a rule is still held against it later, once the rule is a candidate. */
  lemma PenaltiesSeenGrow(rules: seq<Rule>, r: Rule, signals: set<Signal>, more: set<Signal>)
    requires UniqueRules(rules) && PositiveRules(rules) && r in rules && PositiveRule(r)
    requires signals <= more && Confident(more)
    ensures r.id in TableFor(rules, signals)
    ensures PenaltiesSeen(rules, TableFor(rules, signals), r)
         <= PenaltyTotal(MatchList(r.negative, more)) + PenaltyTotal(MatchList(r.ambiguous, more))
            + Total(AppliedPenalties(r.conflicts, TableFor(rules, more)))
  {
    TableAt(rules, signals, r);
    MagnitudesArePenalties(r.negative, signals);
    MagnitudesArePenalties(r.ambiguous, signals);
    PenaltiesGrow(r.negative, signals, more);
    PenaltiesGrow(r.ambiguous, signals, more);
    AppliedListTotal(r.conflicts, TableFor(rules, signals));
    ConflictsGrow(rules, r, signals, more);
    AppliedNonnegative(r.conflicts, TableFor(rules, more));
    assert Total(PenaltiesOf([])) == 0.0;
  }

  lemma ClampMonotone(x: real, y: real)
    requires x <= y
    ensures Clamp(x) <= Clamp(y)
  {
  }

  /** The evidence of a future candidate is within what the coverage of its condition allows. */
  lemma FutureIsCovered(r: Rule, version: int, ch: Channels, signals: set<Signal>, more: set<Signal>)
    requires ValidRule(r, version) && PositiveRule(r)
    requires AllForeseen(ch, signals, more, Leaves(r.condition))
    requires MatchRule(r, more).Candidate()
    ensures Cover(r.condition, signals, ch).canBeSatisfied
    ensures var items := CoverageItems(Cover(r.condition, signals, ch).potential);
            && PositiveTotal(MatchRule(r, more).positive) <= Sum(GroupMaxima(items))
            && r.minimumEvidence <= |GroupMaxima(items)|
  {
    var cover := Cover(r.condition, signals, ch);
    var at := FutureIsBounded(r.condition, ch, signals, more);
    WellFormedLeaves(r.condition, 1, version);
    var from := CoverSourced(r.condition, signals, ch);
    SourcedGroups(cover.potential, Leaves(r.condition), from);
    BoundedScores(MatchRule(r, more).positive, cover.potential, at);
  }

  /** The rule could still be detected, as far as its own coverage can tell. */
  lemma FutureReaches(rules: seq<Rule>, r: Rule, version: int, ch: Channels, signals: set<Signal>, more: set<Signal>)
    requires UniqueRules(rules) && PositiveRules(rules) && r in rules && ValidRule(r, version)
    requires signals <= more && Confident(more) && AllForeseen(ch, signals, more, Leaves(r.condition))
    requires r.id in TableFor(rules, more) && Standing(r, TableFor(rules, more))
    ensures r.id in RuleIds(rules) && ScanFact(rules, signals, ch, r).own != NotMatched
  {
    ValidIsPositive(r, version);
    TableAt(rules, signals, r);
    TableAt(rules, more, r);
    FutureIsCovered(r, version, ch, signals, more);
    PenaltiesSeenGrow(rules, r, signals, more);
    var potential := Cover(r.condition, signals, ch).potential;
    ClampMonotone(EvidenceBase(rules, r, more),
                  Sum(GroupMaxima(CoverageItems(potential))) - PenaltiesSeen(rules, TableFor(rules, signals), r));
    assert CanReachThreshold(r, potential, PenaltiesSeen(rules, TableFor(rules, signals), r));
  }

  /** The evidence score of a candidate before it is clamped. */
  ghost function EvidenceBase(rules: seq<Rule>, r: Rule, signals: set<Signal>): real
    requires UniqueRules(rules)
  {
    var m := MatchRule(r, signals);
    PositiveTotal(m.positive) - PenaltyTotal(m.negative) - PenaltyTotal(m.ambiguous)
    - Total(AppliedPenalties(r.conflicts, TableFor(rules, signals)))
  }

  // ----- All rules of a scan -----

  lemma ValidSetIsPositive(s: RuleSet)
    requires ValidRuleSet(s)
    ensures PositiveRules(s.rules)
  {
    forall i | 0 <= i < |s.rules| ensures PositiveRule(s.rules[i]) { ValidIsPositive(s.rules[i], s.schemaVersion); }
  }

  ghost predicate RulesForeseen(ch: Channels, signals: set<Signal>, more: set<Signal>, rules: seq<Rule>) {
    forall i | 0 <= i < |rules| :: AllForeseen(ch, signals, more, Leaves(rules[i].condition))
  }

  lemma SettledRulesForeseen(ch: Channels, signals: set<Signal>, more: set<Signal>, rules: seq<Rule>)
    requires Settled(ch, signals) && Admissible(ch, signals, more)
    ensures RulesForeseen(ch, signals, more, rules)
  {
    forall e: Evidence ensures Foreseen(ch, signals, more, e) {
      SettledSettles(ch, signals, e);
      SettledIsForeseen(e, ch, signals, more);
    }
  }

  lemma ClosedStaysDown(
      s: RuleSet, ch: Channels, signals: set<Signal>, more: set<Signal>, i: nat)
    requires ValidRuleSet(s) && i < |s.rules|
    requires signals <= more && Confident(more) && RulesForeseen(ch, signals, more, s.rules)
    requires s.rules[i].id in RuleIds(s.rules) && ScanFact(s.rules, signals, ch, s.rules[i]).own == NotMatched
    ensures s.rules[i].id !in StandingIds(s.rules, TableFor(s.rules, more))
  {
    var rules, r := s.rules, s.rules[i];
    ValidSetIsPositive(s);
    TableAt(rules, more, r);
    if Standing(r, TableFor(rules, more)) {
      assert AllForeseen(ch, signals, more, Leaves(r.condition));
      FutureReaches(rules, r, s.schemaVersion, ch, signals, more);
    }
  }

  /**
   * The verdict not_detected holds in every larger set of signals in which each predicate of the rules does what its
   * coverage foresees, with all dependencies, penalties and conflicts.
   */
  lemma ForeseenIsConclusive(s: RuleSet, ch: Channels, signals: set<Signal>, more: set<Signal>, id: string)
    requires ValidRuleSet(s) && Closed(Requirements(s.rules)) && id in RuleIds(s.rules)
    requires signals <= more && Confident(more) && RulesForeseen(ch, signals, more, s.rules)
    requires ScanAnswers(s.rules, signals, ch)[id].status == NotDetected
    ensures !Detected(s.rules, TableFor(s.rules, more), id)
  {
    var rules := s.rules;
    var g, facts := Requirements(rules), ScanFacts(rules, signals, ch);
    assert Refuted(g, facts, id);
    var below :| below in facts && Reaches(g, id, below) && facts[below].own == NotMatched;
    var i :| 0 <= i < |rules| && rules[i].id == below;
    RuleKnown(rules, i);
    ClosedStaysDown(s, ch, signals, more, i);
    assert below !in StandingIds(rules, TableFor(rules, more));
  }

  /**
   * The verdict not_detected is conclusive: whatever supported signals the incomplete channels could still have
   * delivered, the rule would not have been detected, neither by itself nor with its dependencies.
   */
  lemma NotDetectedIsConclusive(s: RuleSet, ch: Channels, signals: set<Signal>, more: set<Signal>, id: string)
    requires ValidRuleSet(s) && Closed(Requirements(s.rules)) && id in RuleIds(s.rules)
    requires Confident(signals) && Settled(ch, signals) && Admissible(ch, signals, more)
    requires ScanAnswers(s.rules, signals, ch)[id].status == NotDetected
    ensures !Detected(s.rules, TableFor(s.rules, more), id)
  {
    AdmissibleConfident(ch, signals, more);
    SettledRulesForeseen(ch, signals, more, s.rules);
    ForeseenIsConclusive(s, ch, signals, more, id);
  }

  /**
   * The same of what is reported: where a scan of certain signals reports not detected for a rule, evaluating any
   * admissible future reports the rule as not detected as well.
   */
  lemma ReportedNegativesAreConclusive(
      s: RuleSet, ch: Channels, signals: set<Signal>, more: set<Signal>, coverage: seq<RuleState>, later: seq<Detection>,
      i: nat)
    requires ValidRuleSet(s) && Closed(Requirements(s.rules))
    requires (forall x | x in signals :: x.confidence == 1.0) && Admissible(ch, signals, more)
    requires i < |coverage| == |s.rules| && ReportsStates(coverage, s.rules, ScanAnswers(s.rules, signals, ch))
    requires |later| == |s.rules| && DescribesRules(later, s.rules, TableFor(s.rules, more))
    requires coverage[i].status == NotDetected
    ensures !later[i].detected
  {
    CertainIsSettled(ch, signals);
    RuleKnown(s.rules, i);
    NotDetectedIsConclusive(s, ch, signals, more, s.rules[i].id);
    assert Describes(later[i], s.rules, TableFor(s.rules, more), s.rules[i]);
  }
}
