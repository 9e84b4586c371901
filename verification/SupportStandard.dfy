/** The reachability checks of the detector support standard, and why they are the right ones. */
module SupportStandard {
  import opened Model
  import opened Schema
  import opened Matching
  import opened MatchingLaws
  import opened Sums
  import opened Scoring
  import opened Detections
  import opened CoverageLaws
  import opened Conclusive

  // ----- The computed maxima -----

  /** Every predicate, filed under its group at its weight. */
  function LeafItems(es: seq<Evidence>): (items: seq<Item<string>>)
    ensures |items| == |es|
  {
    seq(|es|, i requires 0 <= i < |es| => Item(EvidenceGroup(es[i]), es[i].weight))
  }

  /** The largest weight of every group of a condition tree. */
  function MaximumPerGroup(c: Condition): map<string, real> {
    GroupMaxima(LeafItems(Leaves(c)))
  }

  lemma {:induction false} LeafItemsConcat(a: seq<Evidence>, b: seq<Evidence>)
    ensures LeafItems(a + b) == LeafItems(a) + LeafItems(b)
  {
  }

  function Recorded(table: map<string, real>, e: Evidence): map<string, real> {
    var group := EvidenceGroup(e);
    if e.weight > (if group in table then table[group] else 0.0) then table[group := e.weight] else table
  }

  /** What one more predicate does to the maxima. */
  lemma RecordOne(es: seq<Evidence>, e: Evidence)
    requires PositiveWeights(es) && e.weight > 0.0
    ensures GroupMaxima(LeafItems(es + [e])) == Recorded(GroupMaxima(LeafItems(es)), e)
  {
    var items := LeafItems(es + [e]);
    assert items[..|es|] == LeafItems(es);
    var table, group := GroupMaxima(LeafItems(es)), EvidenceGroup(e);
    assert group in table && table[group] >= e.weight ==> table[group := table[group]] == table;
  }

  /** The map that collectEvidenceGroups writes into. */
  class GroupCollector {
    var groups: map<string, real>

    constructor ()
      ensures groups == map[]
    {
      groups := map[];
    }

    method CollectEvidenceGroups(c: Condition, ghost seen: seq<Evidence>)
      requires PositiveWeights(seen) && PositiveWeights(Leaves(c))
      requires groups == GroupMaxima(LeafItems(seen))
      modifies this
      ensures groups == GroupMaxima(LeafItems(seen + Leaves(c)))
      decreases c
    {
      if c.Leaf? {
        assert Leaves(c) == [c.evidence] && Leaves(c)[0].weight > 0.0;
        RecordOne(seen, c.evidence);
        var group := EvidenceGroup(c.evidence);
        var current := if group in groups then groups[group] else 0.0;
        if c.evidence.weight > current {
          groups := groups[group := c.evidence.weight];
        }
        return;
      }
      assert seen + [] == seen;
      for i := 0 to |c.children|
        invariant groups == GroupMaxima(LeafItems(seen + LeavesOfAll(c.children[..i])))
      {
        ChildWeights(c.children, i);
        JoinWeights(seen, LeavesOfAll(c.children[..i]));
        PrefixLeaves(c.children, i);
        RegroupEvidence(seen, LeavesOfAll(c.children[..i]), Leaves(c.children[i]));
        CollectEvidenceGroups(c.children[i], seen + LeavesOfAll(c.children[..i]));
      }
      assert c.children[..|c.children|] == c.children;
    }
  }

  lemma ChildWeights(cs: seq<Condition>, i: nat)
    requires i < |cs| && PositiveWeights(LeavesOfAll(cs))
    ensures PositiveWeights(LeavesOfAll(cs[..i])) && PositiveWeights(Leaves(cs[i]))
  {
    var rest := SchemaValidation.LeavesPrefix(cs, i + 1);
    PositiveParts(LeavesOfAll(cs[..i + 1]), rest);
    PrefixLeaves(cs, i);
    PositiveParts(LeavesOfAll(cs[..i]), Leaves(cs[i]));
  }

  lemma RegroupEvidence(seen: seq<Evidence>, a: seq<Evidence>, b: seq<Evidence>)
    ensures (seen + a) + b == seen + (a + b)
  {
  }

  lemma PrefixLeaves(cs: seq<Condition>, i: nat)
    requires i < |cs|
    ensures LeavesOfAll(cs[..i + 1]) == LeavesOfAll(cs[..i]) + Leaves(cs[i])
  {
    assert cs[..i + 1][..i] == cs[..i];
  }

  lemma JoinWeights(a: seq<Evidence>, b: seq<Evidence>)
    requires PositiveWeights(a) && PositiveWeights(b)
    ensures PositiveWeights(a + b)
  {
  }

  ghost predicate Reachable(r: Rule) {
    |MaximumPerGroup(r.condition)| >= r.minimumEvidence && Sum(MaximumPerGroup(r.condition)) >= r.minimumScore
  }

  method SumWeights(groups: map<string, real>) returns (total: real)
    ensures total == Sum(groups)
  {
    total := 0.0;
    var rest := groups;
    while rest != map[]
      invariant total + Sum(rest) == Sum(groups)
      decreases rest.Keys
    {
      assert rest.Keys != {};
      var k :| k in rest;
      SumRemove(rest, k);
      total := total + rest[k];
      rest := rest - {k};
    }
  }

  /** The reachability checks of validateRuleSupportStandard. */
  method CheckReachable(r: Rule) returns (ok: bool)
    requires PositiveWeights(Leaves(r.condition))
    ensures ok <==> Reachable(r)
  {
    var collector := new GroupCollector();
    collector.CollectEvidenceGroups(r.condition, []);
    assert [] + Leaves(r.condition) == Leaves(r.condition);
    if |collector.groups| < r.minimumEvidence {
      return false;
    }
    var maxScore := SumWeights(collector.groups);
    ok := maxScore >= r.minimumScore;
  }

  // ----- No evidence exceeds the maxima -----

  /** Every match stands for a predicate, at no more than its weight. */
  ghost predicate Within(evidence: seq<EvidenceMatch>, es: seq<Evidence>, at: seq<nat>) {
    && |at| == |evidence|
    && forall i | 0 <= i < |at| ::
         at[i] < |es| && evidence[i].group == EvidenceGroup(es[at[i]]) && Contribution(evidence[i]) <= es[at[i]].weight
  }

  lemma WithinConcat(a: seq<EvidenceMatch>, b: seq<Evidence>, at: seq<nat>,
                     a': seq<EvidenceMatch>, b': seq<Evidence>, at': seq<nat>)
    requires Within(a, b, at) && Within(a', b', at')
    ensures Within(a + a', b + b', at + Shifted(at', |b|))
  {
    var whole := at + Shifted(at', |b|);
    forall i | 0 <= i < |whole|
      ensures whole[i] < |b + b'|
      ensures i < |a| ==> (a + a')[i] == a[i] && (b + b')[whole[i]] == b[at[i]]
      ensures i >= |a| ==> (a + a')[i] == a'[i - |a|] && (b + b')[whole[i]] == b'[at'[i - |a|]]
    {
    }
  }

  lemma LeafWithin(e: Evidence, signals: set<Signal>)
    requires Confident(signals) && e.weight > 0.0 && AnyMatch(e, signals)
    ensures Within([MatchOf(e, Strongest(e, signals))], [e], [0])
  {
    ProductMonotone(e.weight, Strongest(e, signals).confidence, 1.0);
  }

  /** Matched or not, the evidence of a condition stays within its predicates. */
  lemma {:induction false} EvidenceWithin(c: Condition, signals: set<Signal>) returns (at: seq<nat>)
    requires Confident(signals) && PositiveWeights(Leaves(c))
    ensures Within(Evaluate(c, signals).evidence, Leaves(c), at)
    decreases c
  {
    match c
    case Leaf(e) =>
      assert Leaves(c)[0] == e;
      at := [];
      if AnyMatch(e, signals) {
        LeafWithin(e, signals);
        at := [0];
      }
    case All(children) =>
      at := AllWithin(children, signals);
    case Any(children) =>
      var matched, partial := AnyWithin(children, signals);
      at := if EvaluateAny(children, signals).0.matched then matched else partial;
  }

  lemma {:induction false} AllWithin(cs: seq<Condition>, signals: set<Signal>) returns (at: seq<nat>)
    requires Confident(signals) && PositiveWeights(LeavesOfAll(cs))
    ensures Within(EvaluateAll(cs, signals).evidence, LeavesOfAll(cs), at)
    decreases cs
  {
    if cs == [] {
      at := [];
    } else {
      var init, last := cs[..|cs| - 1], cs[|cs| - 1];
      PositiveParts(LeavesOfAll(init), Leaves(last));
      var front := AllWithin(init, signals);
      var back := EvidenceWithin(last, signals);
      WithinConcat(EvaluateAll(init, signals).evidence, LeavesOfAll(init), front, Evaluate(last, signals).evidence, Leaves(last), back);
      at := front + Shifted(back, |LeavesOfAll(init)|);
    }
  }

  lemma {:induction false} AnyWithin(cs: seq<Condition>, signals: set<Signal>) returns (matched: seq<nat>, partial: seq<nat>)
    requires Confident(signals) && PositiveWeights(LeavesOfAll(cs))
    ensures Within(EvaluateAny(cs, signals).0.evidence, LeavesOfAll(cs), matched)
    ensures Within(EvaluateAny(cs, signals).1.evidence, LeavesOfAll(cs), partial)
    decreases cs
  {
    if cs == [] {
      matched, partial := [], [];
    } else {
      var init, last := cs[..|cs| - 1], cs[|cs| - 1];
      PositiveParts(LeavesOfAll(init), Leaves(last));
      matched, partial := AnyWithin(init, signals);
      var back := EvidenceWithin(last, signals);
      var es, shifted := LeavesOfAll(init), Shifted(back, |LeavesOfAll(init)|);
      WithinConcat(EvaluateAny(init, signals).0.evidence, es, matched, Evaluate(last, signals).evidence, Leaves(last), back);
      WithinConcat(EvaluateAny(init, signals).1.evidence, es, partial, Evaluate(last, signals).evidence, Leaves(last), back);
      if Evaluate(last, signals).matched {
        matched := matched + shifted;
      } else {
        partial := partial + shifted;
      }
    }
  }

  /** For every set of signals, the positive total and the group count of a rule are at most the computed maxima. */
  lemma MaximaAreBounds(r: Rule, signals: set<Signal>)
    requires Confident(signals) && PositiveWeights(Leaves(r.condition))
    ensures PositiveTotal(MatchRule(r, signals).positive) <= Sum(MaximumPerGroup(r.condition))
    ensures |GroupsOf(MatchRule(r, signals).positive)| <= |MaximumPerGroup(r.condition)|
  {
    var evidence := MatchRule(r, signals).positive;
    var at := EvidenceWithin(r.condition, signals);
    forall i | 0 <= i < |LeafItems(Leaves(r.condition))| ensures LeafItems(Leaves(r.condition))[i].score >= 0.0 {
      assert Leaves(r.condition)[i].weight > 0.0;
    }
    BelowBounds(Items(evidence), LeafItems(Leaves(r.condition)), at);
    GroupCount(evidence);
  }

  /** A rule that the checks refuse is detected on no set of signals. */
  lemma RefusedIsNeverDetected(rules: seq<Rule>, r: Rule, version: int, signals: set<Signal>)
    requires UniqueRules(rules) && r in rules && ValidRule(r, version) && Confident(signals) && !Reachable(r)
    ensures !Detected(rules, TableFor(rules, signals), r.id)
  {
    ValidIsPositive(r, version);
    TableAt(rules, signals, r);
    MaximaAreBounds(r, signals);
    DetectedUnfold(rules, TableFor(rules, signals), r.id);
    NegativesNonnegative(r.negative, signals);
    NegativesNonnegative(r.ambiguous, signals);
    AppliedNonnegative(r.conflicts, TableFor(rules, signals));
    ClampMonotone(EvidenceBase(rules, r, signals), Sum(MaximumPerGroup(r.condition)));
  }

  lemma NegativesNonnegative(es: seq<Evidence>, signals: set<Signal>)
    requires Confident(signals) && PositiveWeights(es)
    ensures PenaltyTotal(MatchList(es, signals)) >= 0.0
  {
    PenaltiesGrow(es, {}, signals);
    NothingMatches(es);
  }

  lemma {:induction false} NothingMatches(es: seq<Evidence>)
    ensures MatchList(es, {}) == []
  {
    if es != [] { NothingMatches(es[..|es| - 1]); }
  }

  // ----- The maxima are attained -----

  /** Every predicate is met by a certain signal. */
  ghost predicate MeetsAll(es: seq<Evidence>, signals: set<Signal>) {
    forall i | 0 <= i < |es| :: AnyMatch(es[i], signals) && Strongest(es[i], signals).confidence == 1.0
  }

  lemma MeetsParts(a: seq<Evidence>, b: seq<Evidence>, signals: set<Signal>)
    requires MeetsAll(a + b, signals)
    ensures MeetsAll(a, signals) && MeetsAll(b, signals)
  {
    forall i | 0 <= i < |a| ensures AnyMatch(a[i], signals) && Strongest(a[i], signals).confidence == 1.0 { assert (a + b)[i] == a[i]; }
    forall i | 0 <= i < |b| ensures AnyMatch(b[i], signals) && Strongest(b[i], signals).confidence == 1.0 { assert (a + b)[|a| + i] == b[i]; }
  }

  lemma {:induction false} AllEvidence(c: Condition, depth: nat, version: int, signals: set<Signal>)
    requires WellFormed(c, depth, version) && MeetsAll(Leaves(c), signals)
    ensures Evaluate(c, signals).matched && Items(Evaluate(c, signals).evidence) == LeafItems(Leaves(c))
    decreases c
  {
    match c
    case Leaf(e) =>
      assert Leaves(c)[0] == e;
      assert Contribution(MatchOf(e, Strongest(e, signals))) == e.weight * 1.0 == e.weight;
    case All(children) =>
      AllEvidenceOfAll(children, depth, version, signals);
    case Any(children) =>
      AllEvidenceOfAny(children, depth, version, signals);
  }

  lemma ItemsConcat(a: seq<EvidenceMatch>, b: seq<EvidenceMatch>)
    ensures Items(a + b) == Items(a) + Items(b)
  {
  }

  lemma {:induction false} AllEvidenceOfAll(cs: seq<Condition>, depth: nat, version: int, signals: set<Signal>)
    requires forall i | 0 <= i < |cs| :: WellFormed(cs[i], depth + 1, version)
    requires MeetsAll(LeavesOfAll(cs), signals)
    ensures EvaluateAll(cs, signals).matched && Items(EvaluateAll(cs, signals).evidence) == LeafItems(LeavesOfAll(cs))
    decreases cs
  {
    if cs != [] {
      var init, last := cs[..|cs| - 1], cs[|cs| - 1];
      MeetsParts(LeavesOfAll(init), Leaves(last), signals);
      AllEvidenceOfAll(init, depth, version, signals);
      AllEvidence(last, depth + 1, version, signals);
      ItemsConcat(EvaluateAll(init, signals).evidence, Evaluate(last, signals).evidence);
      LeafItemsConcat(LeavesOfAll(init), Leaves(last));
    }
  }

  lemma {:induction false} AllEvidenceOfAny(cs: seq<Condition>, depth: nat, version: int, signals: set<Signal>)
    requires forall i | 0 <= i < |cs| :: WellFormed(cs[i], depth + 1, version)
    requires MeetsAll(LeavesOfAll(cs), signals)
    ensures cs != [] ==> EvaluateAny(cs, signals).0.matched
    ensures Items(EvaluateAny(cs, signals).0.evidence) == LeafItems(LeavesOfAll(cs))
    decreases cs
  {
    if cs != [] {
      var init, last := cs[..|cs| - 1], cs[|cs| - 1];
      MeetsParts(LeavesOfAll(init), Leaves(last), signals);
      AllEvidenceOfAny(init, depth, version, signals);
      AllEvidence(last, depth + 1, version, signals);
      ItemsConcat(EvaluateAny(init, signals).0.evidence, Evaluate(last, signals).evidence);
      LeafItemsConcat(LeavesOfAll(init), Leaves(last));
    }
  }

  /**
   * On signals that meet every predicate with certainty, a valid rule that nothing counts against meets its own
   * thresholds exactly when the checks accept it: the computed maxima are not merely bounds.
   */
  lemma MaximaAreAttained(rules: seq<Rule>, r: Rule, version: int, signals: set<Signal>)
    requires UniqueRules(rules) && r in rules && ValidRule(r, version)
    requires r.negative == [] && r.ambiguous == [] && r.conflicts == []
    requires MeetsAll(Leaves(r.condition), signals)
    ensures r.id in TableFor(rules, signals)
    ensures Standing(r, TableFor(rules, signals)) <==> Reachable(r)
  {
    TableAt(rules, signals, r);
    AllEvidence(r.condition, 1, version, signals);
    var evidence := MatchRule(r, signals).positive;
    GroupCount(evidence);
    assert MatchList([], signals) == [] && PenaltyTotal([]) == 0.0;
    assert Total(AppliedPenalties([], TableFor(rules, signals))) == 0.0;
    assert PositiveTotal(evidence) == Sum(MaximumPerGroup(r.condition));
  }
}
