/** A rule is closed exactly when it would miss its thresholds even in the best case of what is still unknown. */
module BestCase {
  import opened DependencyGraph
  import opened Model
  import opened Schema
  import opened Matching
  import opened Scoring
  import opened Detections
  import opened Coverage
  import opened CoverageLaws
  import opened Status
  import opened Scanner
  import opened Conclusive
  import opened Exactness
  import opened ExactStatus

  // ----- The best case -----

  /** More brings the best case for e: certainty where an incomplete channel could match it, and nothing new elsewhere. */
  ghost predicate Filled(ch: Channels, signals: set<Signal>, more: set<Signal>, e: Evidence) {
    if AnyMatch(e, signals) then
      AnyMatch(e, more) && Strongest(e, more).confidence == Strongest(e, signals).confidence
    else if exists source :: ch.registry.Supports(source, e.kind) && AcceptsField(e.source, source) && !ch.complete(source, e.kind) then
      AnyMatch(e, more) && Strongest(e, more).confidence == 1.0
    else
      !AnyMatch(e, more)
  }

  ghost predicate AllFilled(ch: Channels, signals: set<Signal>, more: set<Signal>, es: seq<Evidence>) {
    forall i | 0 <= i < |es| :: Filled(ch, signals, more, es[i])
  }

  lemma AllFilledParts(ch: Channels, signals: set<Signal>, more: set<Signal>, a: seq<Evidence>, b: seq<Evidence>)
    requires AllFilled(ch, signals, more, a + b)
    ensures AllFilled(ch, signals, more, a) && AllFilled(ch, signals, more, b)
  {
    forall i | 0 <= i < |a| ensures Filled(ch, signals, more, a[i]) { assert (a + b)[i] == a[i]; }
    forall i | 0 <= i < |b| ensures Filled(ch, signals, more, b[i]) { assert (a + b)[|a| + i] == b[i]; }
  }

  lemma OpenIffIncomplete(ch: Channels, e: Evidence)
    ensures IncompleteSet(ch, e) != {} <==>
            exists source :: ch.registry.Supports(source, e.kind) && AcceptsField(e.source, source) && !ch.complete(source, e.kind)
  {
    if source :| ch.registry.Supports(source, e.kind) && AcceptsField(e.source, source) && !ch.complete(source, e.kind) {
      assert source in IncompleteSet(ch, e);
    }
  }

  /** xs brings the best case: every open predicate is matched by some of them, and no closed or weaker one by any. */
  ghost predicate BringsBest(ch: Channels, signals: set<Signal>, xs: set<Signal>, e: Evidence) {
    && (forall x | x in xs && Matches(e, x) ::
          x.confidence == 1.0
          && if AnyMatch(e, signals) then Strongest(e, signals).confidence == 1.0 else IncompleteSet(ch, e) != {})
    && (!AnyMatch(e, signals) && IncompleteSet(ch, e) != {} ==> AnyMatch(e, xs))
  }

  /** Best cases exist wherever the predicates of a rule can be told apart. */
  lemma OpeningFills(ch: Channels, signals: set<Signal>, xs: set<Signal>, e: Evidence)
    requires BringsBest(ch, signals, xs, e) && Confident(signals)
    ensures Filled(ch, signals, signals + xs, e)
  {
    var more := signals + xs;
    OpenIffIncomplete(ch, e);
    if AnyMatch(e, signals) {
      StrongestAtLeast(e, more, Strongest(e, signals));
      var best := Strongest(e, more);
      if best in signals { StrongestAtLeast(e, signals, best); }
    } else if IncompleteSet(ch, e) != {} {
      var x :| x in xs && Matches(e, x);
      assert x in more;
      assert Strongest(e, more) in xs;
    }
  }

  lemma LeafFilled(e: Evidence, ch: Channels, signals: set<Signal>, more: set<Signal>)
    requires Filled(ch, signals, more, e)
    ensures CoverLeaf(e, signals, ch).canBeSatisfied <==> AnyMatch(e, more)
    ensures AnyMatch(e, more) ==> Aligned(CoverLeaf(e, signals, ch).potential, [MatchOf(e, Strongest(e, more))])
  {
    OpenIffIncomplete(ch, e);
    if AnyMatch(e, more) {
      var m := MatchOf(e, Strongest(e, more));
      assert Contribution(m) == e.weight * Strongest(e, more).confidence;
    }
  }

  /** The coverage of a condition is its evaluation in the best case: satisfiable where that matches, score by score. */
  lemma {:induction false} CoverIsBestCase(c: Condition, ch: Channels, signals: set<Signal>, more: set<Signal>)
    requires AllFilled(ch, signals, more, Leaves(c))
    ensures Cover(c, signals, ch).canBeSatisfied <==> Evaluate(c, more).matched
    ensures Evaluate(c, more).matched ==> Aligned(Cover(c, signals, ch).potential, Evaluate(c, more).evidence)
    decreases c
  {
    match c
    case Leaf(e) =>
      assert Leaves(c)[0] == e;
      LeafFilled(e, ch, signals, more);
    case All(children) => AllIsBestCase(children, ch, signals, more);
    case Any(children) => AnyIsBestCase(children, ch, signals, more);
  }

  lemma {:induction false} AllIsBestCase(cs: seq<Condition>, ch: Channels, signals: set<Signal>, more: set<Signal>)
    requires AllFilled(ch, signals, more, LeavesOfAll(cs))
    ensures !CoverAll(cs, signals, ch).failed <==> EvaluateAll(cs, more).matched
    ensures EvaluateAll(cs, more).matched ==> Aligned(CoverAll(cs, signals, ch).potential, EvaluateAll(cs, more).evidence)
    decreases cs
  {
    if cs != [] {
      var init, last := cs[..|cs| - 1], cs[|cs| - 1];
      AllFilledParts(ch, signals, more, LeavesOfAll(init), Leaves(last));
      AllIsBestCase(init, ch, signals, more);
      CoverIsBestCase(last, ch, signals, more);
      if EvaluateAll(cs, more).matched {
        AlignedConcat(CoverAll(init, signals, ch).potential, EvaluateAll(init, more).evidence,
                      Cover(last, signals, ch).potential, Evaluate(last, more).evidence);
      }
    }
  }

  lemma {:induction false} AnyIsBestCase(cs: seq<Condition>, ch: Channels, signals: set<Signal>, more: set<Signal>)
    requires AllFilled(ch, signals, more, LeavesOfAll(cs))
    ensures CoverAny(cs, signals, ch).satisfiable <==> EvaluateAny(cs, more).0.matched
    ensures Aligned(CoverAny(cs, signals, ch).potential, EvaluateAny(cs, more).0.evidence)
    decreases cs
  {
    if cs != [] {
      var init, last := cs[..|cs| - 1], cs[|cs| - 1];
      AllFilledParts(ch, signals, more, LeavesOfAll(init), Leaves(last));
      AnyIsBestCase(init, ch, signals, more);
      CoverIsBestCase(last, ch, signals, more);
      if Evaluate(last, more).matched {
        AlignedConcat(CoverAny(init, signals, ch).potential, EvaluateAny(init, more).0.evidence,
                      Cover(last, signals, ch).potential, Evaluate(last, more).evidence);
      }
    }
  }

  // ----- One rule -----

  /** In the best case, and with no more penalties than were seen, the rule meets its own thresholds. */
  ghost predicate MeetsAtBest(rules: seq<Rule>, r: Rule, signals: set<Signal>, more: set<Signal>)
    requires UniqueRules(rules) && r.id in TableFor(rules, signals)
  {
    var m := MatchRule(r, more);
    && m.conditionMatched && |GroupsOf(m.positive)| >= r.minimumEvidence
    && PositiveTotal(m.positive) - PenaltiesSeen(rules, TableFor(rules, signals), r) >= r.minimumScore
  }

  lemma BestTotals(r: Rule, version: int, ch: Channels, signals: set<Signal>, more: set<Signal>)
    requires ValidRule(r, version) && UnambiguousGroups(Leaves(r.condition)) && Confident(more)
    requires AllFilled(ch, signals, more, Leaves(r.condition)) && Evaluate(r.condition, more).matched
    ensures SameTotals(Cover(r.condition, signals, ch).potential, Evaluate(r.condition, more).evidence)
  {
    var potential, evidence := Cover(r.condition, signals, ch).potential, Evaluate(r.condition, more).evidence;
    ValidIsPositive(r, version);
    CoverIsBestCase(r.condition, ch, signals, more);
    var from := CoverSourced(r.condition, signals, ch);
    WellFormedLeaves(r.condition, 1, version);
    SourcedGroups(potential, Leaves(r.condition), from);
    RuleIdsDistinct(r, version);
    SourcedUnambiguous(potential, Leaves(r.condition), from);
    EvidenceWeighted(r.condition, more);
    AlignedNonnegative(potential, evidence);
    WithoutCollision(potential, evidence);
  }

  lemma ClampReaches(x: real, minimum: real)
    requires 0.0 < minimum <= 100.0
    ensures Clamp(x) >= minimum <==> x >= minimum
  {
  }

  /** An undetected rule is closed by its own coverage exactly when it would miss its thresholds in the best case. */
  lemma ClosedIffMissedAtBest(rules: seq<Rule>, r: Rule, version: int, ch: Channels, signals: set<Signal>, more: set<Signal>)
    requires UniqueRules(rules) && r in rules && ValidRule(r, version) && UnambiguousGroups(Leaves(r.condition))
    requires Confident(more) && AllFilled(ch, signals, more, Leaves(r.condition))
    ensures r.id in RuleIds(rules) && r.id in TableFor(rules, signals)
    ensures !Detected(rules, TableFor(rules, signals), r.id) ==>
              (ScanFact(rules, signals, ch, r).own == NotMatched <==> !MeetsAtBest(rules, r, signals, more))
  {
    TableAt(rules, signals, r);
    CoverIsBestCase(r.condition, ch, signals, more);
    var evidence := Evaluate(r.condition, more).evidence;
    if Evaluate(r.condition, more).matched {
      BestTotals(r, version, ch, signals, more);
      GroupCount(evidence);
      ClampReaches(PositiveTotal(evidence) - PenaltiesSeen(rules, TableFor(rules, signals), r), r.minimumScore);
    }
  }

  // ----- All rules of a scan -----

  ghost predicate RulesFilled(ch: Channels, signals: set<Signal>, more: set<Signal>, rules: seq<Rule>) {
    forall i | 0 <= i < |rules| :: AllFilled(ch, signals, more, Leaves(rules[i].condition))
  }

  /** A rule below id is not detected and would miss its thresholds in the best case. */
  ghost predicate MissedBelow(rules: seq<Rule>, signals: set<Signal>, more: set<Signal>, id: string)
    requires UniqueRules(rules)
  {
    exists i :: 0 <= i < |rules| && Reaches(Requirements(rules), id, rules[i].id)
      && rules[i].id in TableFor(rules, signals)
      && !Detected(rules, TableFor(rules, signals), rules[i].id)
      && !MeetsAtBest(rules, rules[i], signals, more)
  }

  lemma OwnMatchedIffDetected(rules: seq<Rule>, signals: set<Signal>, ch: Channels, r: Rule)
    requires UniqueRules(rules) && r.id in RuleIds(rules)
    ensures ScanFact(rules, signals, ch, r).own == Matched <==> Detected(rules, TableFor(rules, signals), r.id)
  {
  }

  lemma FactIsMissed(s: RuleSet, ch: Channels, signals: set<Signal>, more: set<Signal>, i: nat)
    requires ValidRuleSet(s) && i < |s.rules| && UnambiguousRules(s.rules)
    requires Confident(more) && RulesFilled(ch, signals, more, s.rules)
    ensures s.rules[i].id in ScanFacts(s.rules, signals, ch) && s.rules[i].id in TableFor(s.rules, signals)
    ensures ScanFacts(s.rules, signals, ch)[s.rules[i].id].own == NotMatched
       <==> !Detected(s.rules, TableFor(s.rules, signals), s.rules[i].id) && !MeetsAtBest(s.rules, s.rules[i], signals, more)
  {
    var r := s.rules[i];
    RuleKnown(s.rules, i);
    OwnMatchedIffDetected(s.rules, signals, ch, r);
    ClosedIffMissedAtBest(s.rules, r, s.schemaVersion, ch, signals, more);
  }

  lemma RefutedIffMissed(s: RuleSet, ch: Channels, signals: set<Signal>, more: set<Signal>, id: string)
    requires ValidRuleSet(s) && Closed(Requirements(s.rules)) && id in RuleIds(s.rules) && UnambiguousRules(s.rules)
    requires Confident(more) && RulesFilled(ch, signals, more, s.rules)
    ensures Refuted(Requirements(s.rules), ScanFacts(s.rules, signals, ch), id) <==> MissedBelow(s.rules, signals, more, id)
  {
    var rules := s.rules;
    var g, facts := Requirements(rules), ScanFacts(rules, signals, ch);
    if Refuted(g, facts, id) {
      var below :| below in facts && Reaches(g, id, below) && facts[below].own == NotMatched;
      var i :| 0 <= i < |rules| && rules[i].id == below;
      FactIsMissed(s, ch, signals, more, i);
    }
    if MissedBelow(rules, signals, more, id) {
      var i :| 0 <= i < |rules| && Reaches(g, id, rules[i].id) && rules[i].id in TableFor(rules, signals)
               && !Detected(rules, TableFor(rules, signals), rules[i].id) && !MeetsAtBest(rules, rules[i], signals, more);
      FactIsMissed(s, ch, signals, more, i);
    }
  }

  /**
   * The verdict of a scan in terms of matching and scoring alone: not-detected exactly when the rule is not detected and
   * a rule in the closure of its requirements, undetected so far, would miss its thresholds in the best case.
   */
  lemma NotDetectedIffMissed(s: RuleSet, ch: Channels, signals: set<Signal>, more: set<Signal>, id: string)
    requires ValidRuleSet(s) && Closed(Requirements(s.rules)) && id in RuleIds(s.rules) && UnambiguousRules(s.rules)
    requires Confident(more) && RulesFilled(ch, signals, more, s.rules)
    ensures ScanAnswers(s.rules, signals, ch)[id].status == NotDetected
       <==> !Detected(s.rules, TableFor(s.rules, signals), id) && MissedBelow(s.rules, signals, more, id)
    ensures ScanAnswers(s.rules, signals, ch)[id].status == InsufficientCoverage
       <==> !Detected(s.rules, TableFor(s.rules, signals), id) && !MissedBelow(s.rules, signals, more, id)
  {
    FactAt(s.rules, signals, ch, id);
    RefutedIffMissed(s, ch, signals, more, id);
  }
}
