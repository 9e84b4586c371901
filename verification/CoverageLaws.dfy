/** The coverage bound against matching: what unseen signals can still do to a condition. */
module CoverageLaws {
  import opened Model
  import opened Schema
  import opened Matching
  import opened MatchingLaws
  import opened Capabilities
  import opened Sums
  import opened Scoring
  import opened Coverage

  // ----- What incomplete channels may still deliver -----

  /** more adds only signals of supported channels that were observed incompletely. */
  ghost predicate Admissible(ch: Channels, signals: set<Signal>, more: set<Signal>) {
    && signals <= more
    && forall s | s in more && s !in signals ::
         ch.registry.Supports(s.source, s.kind) && !ch.complete(s.source, s.kind) && 0.0 <= s.confidence <= 1.0
  }

  ghost predicate SameContent(s: Signal, t: Signal) {
    s.kind == t.kind && s.key == t.key && s.value == t.value && s.url == t.url
  }

  /** Some certain signal says what s says, and comes from the source of s or from source. */
  ghost predicate Settles(signals: set<Signal>, s: Signal, source: string) {
    exists t :: t in signals && SameContent(s, t) && (t.source == s.source || t.source == source) && t.confidence == 1.0
  }

  /**
   * No incomplete channel could still make an observed content more certain than it is. Holds whenever every
   * observed signal has confidence 1.
   */
  ghost predicate Settled(ch: Channels, signals: set<Signal>) {
    forall s, source | s in signals && ch.registry.Supports(source, s.kind) && !ch.complete(source, s.kind) ::
      Settles(signals, s, source)
  }

  /**
   * The coverage of e allows for what more does to it: the best match is no stronger than the best match seen, or, where
   * none was seen, an incomplete channel accounts for it.
   */
  ghost predicate Foreseen(ch: Channels, signals: set<Signal>, more: set<Signal>, e: Evidence) {
    AnyMatch(e, more) ==>
      if AnyMatch(e, signals) then Strongest(e, more).confidence <= Strongest(e, signals).confidence
      else IncompleteSet(ch, e) != {} && Strongest(e, more).confidence <= 1.0
  }

  ghost predicate AllForeseen(ch: Channels, signals: set<Signal>, more: set<Signal>, es: seq<Evidence>) {
    forall i | 0 <= i < |es| :: Foreseen(ch, signals, more, es[i])
  }

  /** Where an incomplete channel could still match what is matched already, some match is certain. */
  ghost predicate SettledFor(ch: Channels, signals: set<Signal>, e: Evidence) {
    AnyMatch(e, signals) && IncompleteSet(ch, e) != {} ==>
      exists t :: t in signals && Matches(e, t) && t.confidence == 1.0
  }

  lemma CertainIsSettled(ch: Channels, signals: set<Signal>)
    requires forall s | s in signals :: s.confidence == 1.0
    ensures Settled(ch, signals)
  {
    forall s, source | s in signals && ch.registry.Supports(source, s.kind) && !ch.complete(source, s.kind)
      ensures Settles(signals, s, source)
    {
      assert SameContent(s, s);
    }
  }

  lemma StrongestAtLeast(e: Evidence, signals: set<Signal>, t: Signal)
    requires t in signals && Matches(e, t)
    ensures AnyMatch(e, signals) && Strongest(e, signals).confidence >= t.confidence
  {
    assert t == Strongest(e, signals) || StrongerSignal(Strongest(e, signals), t);
  }

  /** A predicate that accepts a content from two sources accepts it from either. */
  lemma SameContentMatches(e: Evidence, s: Signal, other: Signal, t: Signal)
    requires Matches(e, s) && Matches(e, other) && SameContent(s, t) && (t.source == s.source || t.source == other.source)
    ensures Matches(e, t)
  {
  }

  /** Settled signals settle every predicate. */
  lemma SettledSettles(ch: Channels, signals: set<Signal>, e: Evidence)
    requires Settled(ch, signals)
    ensures SettledFor(ch, signals, e)
  {
    if AnyMatch(e, signals) && IncompleteSet(ch, e) != {} {
      var s :| s in signals && Matches(e, s);
      var source :| source in IncompleteSet(ch, e);
      assert Settles(signals, s, source);
      var t :| t in signals && SameContent(s, t) && (t.source == s.source || t.source == source) && t.confidence == 1.0;
      SameContentMatches(e, s, s.(source := source), t);
    }
  }

  /** What an admissible future adds to a predicate comes from an incomplete channel that can match it. */
  lemma NewIsIncomplete(e: Evidence, ch: Channels, signals: set<Signal>, more: set<Signal>, s: Signal)
    requires Admissible(ch, signals, more) && s in more && s !in signals && Matches(e, s)
    ensures s.source in IncompleteSet(ch, e) && s.confidence <= 1.0
  {
  }

  /** An already matched and settled predicate is not matched with more confidence in any admissible future. */
  lemma NoStrongerMatch(e: Evidence, ch: Channels, signals: set<Signal>, more: set<Signal>)
    requires Admissible(ch, signals, more) && AnyMatch(e, signals) && SettledFor(ch, signals, e)
    ensures AnyMatch(e, more) && Strongest(e, more).confidence <= Strongest(e, signals).confidence
  {
    StrongestGrows(e, signals, more);
    var other := Strongest(e, more);
    if other in signals {
      StrongestAtLeast(e, signals, other);
    } else {
      NewIsIncomplete(e, ch, signals, more, other);
      var t :| t in signals && Matches(e, t) && t.confidence == 1.0;
      StrongestAtLeast(e, signals, t);
    }
  }

  /** Admissible futures of settled predicates are foreseen. */
  lemma SettledIsForeseen(e: Evidence, ch: Channels, signals: set<Signal>, more: set<Signal>)
    requires Admissible(ch, signals, more) && SettledFor(ch, signals, e)
    ensures Foreseen(ch, signals, more, e)
  {
    if AnyMatch(e, signals) {
      NoStrongerMatch(e, ch, signals, more);
    } else if AnyMatch(e, more) {
      NewIsIncomplete(e, ch, signals, more, Strongest(e, more));
    }
  }

  lemma AllForeseenParts(ch: Channels, signals: set<Signal>, more: set<Signal>, a: seq<Evidence>, b: seq<Evidence>)
    requires AllForeseen(ch, signals, more, a + b)
    ensures AllForeseen(ch, signals, more, a) && AllForeseen(ch, signals, more, b)
  {
    forall i | 0 <= i < |a| ensures Foreseen(ch, signals, more, a[i]) { assert (a + b)[i] == a[i]; }
    forall i | 0 <= i < |b| ensures Foreseen(ch, signals, more, b[i]) { assert (a + b)[|a| + i] == b[i]; }
  }

  // ----- The bound covers every foreseen future -----

  function MergedKey(p: PotentialEvidence): string {
    if p.group != "" then p.group else p.id
  }

  /** Every match is listed as potential evidence, with at least its contribution. */
  ghost predicate BoundedBy(evidence: seq<EvidenceMatch>, potential: seq<PotentialEvidence>, at: seq<nat>) {
    && |at| == |evidence|
    && forall i | 0 <= i < |at| ::
         && at[i] < |potential|
         && evidence[i].group == MergedKey(potential[at[i]])
         && Contribution(evidence[i]) <= potential[at[i]].score
  }

  lemma BoundedConcat(a: seq<EvidenceMatch>, b: seq<PotentialEvidence>, at: seq<nat>,
                      a': seq<EvidenceMatch>, b': seq<PotentialEvidence>, at': seq<nat>)
    requires BoundedBy(a, b, at) && BoundedBy(a', b', at')
    ensures BoundedBy(a + a', b + b', at + Shifted(at', |b|))
  {
    var whole := at + Shifted(at', |b|);
    forall i | 0 <= i < |whole|
      ensures whole[i] < |b + b'|
      ensures i < |a| ==> (a + a')[i] == a[i] && (b + b')[whole[i]] == b[at[i]]
      ensures i >= |a| ==> (a + a')[i] == a'[i - |a|] && (b + b')[whole[i]] == b'[at'[i - |a|]]
    {
    }
  }

  lemma BoundedWider(a: seq<EvidenceMatch>, b: seq<PotentialEvidence>, at: seq<nat>, extra: seq<PotentialEvidence>)
    requires BoundedBy(a, b, at)
    ensures BoundedBy(a, b + extra, at)
  {
  }

  lemma OneBounded(m: EvidenceMatch, p: PotentialEvidence)
    requires m.group == MergedKey(p) && Contribution(m) <= p.score
    ensures BoundedBy([m], [p], [0])
  {
  }

  /** A contribution never exceeds the weight times any upper bound of the confidence. */
  lemma ContributionBound(e: Evidence, s: Signal, bound: real, p: PotentialEvidence)
    requires e.weight > 0.0 && s.confidence <= bound
    requires p.id == e.id && p.group == e.group && p.score == e.weight * bound
    ensures BoundedBy([MatchOf(e, s)], [p], [0])
  {
    ProductMonotone(e.weight, s.confidence, bound);
    OneBounded(MatchOf(e, s), p);
  }

  lemma SeenLeafBounded(e: Evidence, ch: Channels, signals: set<Signal>, s: Signal)
    requires e.weight > 0.0 && AnyMatch(e, signals) && s.confidence <= Strongest(e, signals).confidence
    ensures CoverLeaf(e, signals, ch).canBeSatisfied
    ensures BoundedBy([MatchOf(e, s)], CoverLeaf(e, signals, ch).potential, [0])
  {
    var bound := Strongest(e, signals).confidence;
    ContributionBound(e, s, bound, PotentialEvidence(e.id, e.group, e.weight * bound, [], false));
  }

  lemma UnseenLeafBounded(e: Evidence, ch: Channels, signals: set<Signal>, s: Signal)
    requires e.weight > 0.0 && !AnyMatch(e, signals) && IncompleteSet(ch, e) != {} && s.confidence <= 1.0
    ensures CoverLeaf(e, signals, ch).canBeSatisfied
    ensures BoundedBy([MatchOf(e, s)], CoverLeaf(e, signals, ch).potential, [0])
  {
    ContributionBound(e, s, 1.0, PotentialEvidence(e.id, e.group, e.weight, ListOf(IncompleteSet(ch, e)), true));
  }

  lemma LeafBounded(e: Evidence, ch: Channels, signals: set<Signal>, more: set<Signal>)
    requires Foreseen(ch, signals, more, e) && e.weight > 0.0 && AnyMatch(e, more)
    ensures CoverLeaf(e, signals, ch).canBeSatisfied
    ensures BoundedBy([MatchOf(e, Strongest(e, more))], CoverLeaf(e, signals, ch).potential, [0])
  {
    if AnyMatch(e, signals) {
      SeenLeafBounded(e, ch, signals, Strongest(e, more));
    } else {
      UnseenLeafBounded(e, ch, signals, Strongest(e, more));
    }
  }

  lemma ProductMonotone(w: real, x: real, y: real)
    requires w >= 0.0 && x <= y
    ensures w * x <= w * y
  {
    assert w * (y - x) >= 0.0;
  }

  ghost predicate PositiveWeights(es: seq<Evidence>) {
    forall i | 0 <= i < |es| :: es[i].weight > 0.0
  }

  lemma PositiveParts(a: seq<Evidence>, b: seq<Evidence>)
    requires PositiveWeights(a + b)
    ensures PositiveWeights(a) && PositiveWeights(b)
  {
    forall i | 0 <= i < |a| ensures a[i].weight > 0.0 { assert (a + b)[i] == a[i]; }
    forall i | 0 <= i < |b| ensures b[i].weight > 0.0 { assert (a + b)[|a| + i] == b[i]; }
  }

  /** A condition that matches in a foreseen future can be satisfied, and its evidence is within the bound. */
  lemma {:induction false} FutureIsBounded(c: Condition, ch: Channels, signals: set<Signal>, more: set<Signal>)
    returns (at: seq<nat>)
    requires AllForeseen(ch, signals, more, Leaves(c))
    requires PositiveWeights(Leaves(c)) && Evaluate(c, more).matched
    ensures Cover(c, signals, ch).canBeSatisfied
    ensures BoundedBy(Evaluate(c, more).evidence, Cover(c, signals, ch).potential, at)
    decreases c
  {
    match c
    case Leaf(e) =>
      assert Leaves(c)[0] == e;
      LeafBounded(e, ch, signals, more);
      at := [0];
    case All(children) =>
      at := FutureOfAll(children, ch, signals, more);
    case Any(children) =>
      at := FutureOfAny(children, ch, signals, more);
  }

  lemma {:induction false} FutureOfAll(cs: seq<Condition>, ch: Channels, signals: set<Signal>, more: set<Signal>)
    returns (at: seq<nat>)
    requires AllForeseen(ch, signals, more, LeavesOfAll(cs))
    requires PositiveWeights(LeavesOfAll(cs)) && EvaluateAll(cs, more).matched
    ensures !CoverAll(cs, signals, ch).failed
    ensures BoundedBy(EvaluateAll(cs, more).evidence, CoverAll(cs, signals, ch).potential, at)
    decreases cs
  {
    if cs == [] {
      at := [];
    } else {
      var init, last := cs[..|cs| - 1], cs[|cs| - 1];
      PositiveParts(LeavesOfAll(init), Leaves(last));
      AllForeseenParts(ch, signals, more, LeavesOfAll(init), Leaves(last));
      var front := FutureOfAll(init, ch, signals, more);
      var back := FutureIsBounded(last, ch, signals, more);
      BoundedConcat(EvaluateAll(init, more).evidence, CoverAll(init, signals, ch).potential, front,
                    Evaluate(last, more).evidence, Cover(last, signals, ch).potential, back);
      at := front + Shifted(back, |CoverAll(init, signals, ch).potential|);
    }
  }

  lemma {:induction false} FutureOfAny(cs: seq<Condition>, ch: Channels, signals: set<Signal>, more: set<Signal>)
    returns (at: seq<nat>)
    requires AllForeseen(ch, signals, more, LeavesOfAll(cs))
    requires PositiveWeights(LeavesOfAll(cs))
    ensures EvaluateAny(cs, more).0.matched ==> CoverAny(cs, signals, ch).satisfiable
    ensures BoundedBy(EvaluateAny(cs, more).0.evidence, CoverAny(cs, signals, ch).potential, at)
    decreases cs
  {
    if cs == [] {
      at := [];
    } else {
      var init, last := cs[..|cs| - 1], cs[|cs| - 1];
      PositiveParts(LeavesOfAll(init), Leaves(last));
      AllForeseenParts(ch, signals, more, LeavesOfAll(init), Leaves(last));
      at := FutureOfAny(init, ch, signals, more);
      var a, b := EvaluateAny(init, more).0.evidence, CoverAny(init, signals, ch).potential;
      if Evaluate(last, more).matched {
        var back := FutureIsBounded(last, ch, signals, more);
        BoundedConcat(a, b, at, Evaluate(last, more).evidence, Cover(last, signals, ch).potential, back);
        at := at + Shifted(back, |b|);
      } else {
        BoundedWider(a, b, at, Cover(last, signals, ch).potential);
      }
    }
  }

  /** Potential evidence of valid predicates: groups are identifiers. */
  ghost predicate ValidGroups(potential: seq<PotentialEvidence>) {
    forall i | 0 <= i < |potential| :: potential[i].group == "" || IsIdentifier(potential[i].group)
  }

  /** No identifier is taken for the key of ungrouped evidence, and different positions have different keys. */
  lemma KeysSeparate(p: PotentialEvidence, i: nat, q: PotentialEvidence, j: nat)
    requires p.group == "" || IsIdentifier(p.group)
    requires q.group == "" || IsIdentifier(q.group)
    ensures GroupKey(p, i) == GroupKey(q, j) <==> p.group == q.group && (p.group == "" ==> i == j)
  {
    var prefix := "__independent_";
    assert (prefix + Decimal(i))[0] == '_' && (prefix + Decimal(j))[0] == '_';
    if p.group == "" && q.group == "" && GroupKey(p, i) == GroupKey(q, j) {
      assert (prefix + Decimal(i))[|prefix|..] == Decimal(i);
      assert (prefix + Decimal(j))[|prefix|..] == Decimal(j);
      ParseDecimal(i);
      ParseDecimal(j);
    }
  }

  /** Bounded evidence scores no more, and counts no more groups, than the coverage summaries. */
  lemma BoundedScores(evidence: seq<EvidenceMatch>, potential: seq<PotentialEvidence>, at: seq<nat>)
    requires BoundedBy(evidence, potential, at) && ValidGroups(potential)
    ensures PositiveTotal(evidence) <= Sum(GroupMaxima(CoverageItems(potential)))
    ensures |GroupsOf(evidence)| <= |GroupMaxima(CoverageItems(potential))|
  {
    var a, b := Items(evidence), CoverageItems(potential);
    forall i, j | 0 <= i < |at| && 0 <= j < |at| && b[at[i]].key == b[at[j]].key ensures a[i].key == a[j].key {
      KeysSeparate(potential[at[i]], at[i], potential[at[j]], at[j]);
    }
    BelowBounds(a, b, at);
    GroupCount(evidence);
  }

  lemma GroupCount(evidence: seq<EvidenceMatch>)
    ensures |GroupsOf(evidence)| == |GroupMaxima(Items(evidence))|
    ensures GroupMaxima(Items(evidence)).Keys == GroupsOf(evidence)
  {
    GroupMaximaMeaning(Items(evidence));
    forall g ensures g in GroupsOf(evidence) <==> g in GroupMaxima(Items(evidence)) {
      if g in GroupsOf(evidence) {
        var i :| 0 <= i < |evidence| && evidence[i].group == g;
        assert Items(evidence)[i].key == g;
      }
      if g in GroupMaxima(Items(evidence)) {
        var i :| 0 <= i < |evidence| && Items(evidence)[i].key == g;
        assert evidence[i].group == g;
      }
    }
    assert GroupMaxima(Items(evidence)).Keys == GroupsOf(evidence);
  }

  // ----- Where potential evidence comes from -----

  /** The potential evidence stands for some of the predicates, in their order. */
  ghost predicate Sourced(potential: seq<PotentialEvidence>, es: seq<Evidence>, from: seq<nat>) {
    && |from| == |potential|
    && (forall i | 0 <= i < |from| ::
          from[i] < |es| && potential[i].id == es[from[i]].id && potential[i].group == es[from[i]].group)
    && (forall i, j | 0 <= i < j < |from| :: from[i] < from[j])
  }

  lemma SourcedConcat(a: seq<PotentialEvidence>, b: seq<Evidence>, from: seq<nat>,
                      a': seq<PotentialEvidence>, b': seq<Evidence>, from': seq<nat>)
    requires Sourced(a, b, from) && Sourced(a', b', from')
    ensures Sourced(a + a', b + b', from + Shifted(from', |b|))
  {
    var whole := from + Shifted(from', |b|);
    forall i | 0 <= i < |whole|
      ensures whole[i] < |b + b'|
      ensures i < |a| ==> (a + a')[i] == a[i] && (b + b')[whole[i]] == b[from[i]]
      ensures i >= |a| ==> (a + a')[i] == a'[i - |a|] && (b + b')[whole[i]] == b'[from'[i - |a|]]
    {
    }
  }

  lemma SourcedWider(a: seq<PotentialEvidence>, b: seq<Evidence>, from: seq<nat>, extra: seq<Evidence>)
    requires Sourced(a, b, from)
    ensures Sourced(a, b + extra, from)
  {
  }

  lemma {:induction false} CoverSourced(c: Condition, signals: set<Signal>, ch: Channels) returns (from: seq<nat>)
    ensures Sourced(Cover(c, signals, ch).potential, Leaves(c), from)
    decreases c
  {
    match c
    case Leaf(e) =>
      from := if CoverLeaf(e, signals, ch).canBeSatisfied then [0] else [];
    case All(children) =>
      from := CoverAllSourced(children, signals, ch);
      if CoverAll(children, signals, ch).failed { from := []; }
    case Any(children) =>
      from := CoverAnySourced(children, signals, ch);
      if !CoverAny(children, signals, ch).satisfiable { from := []; }
  }

  lemma {:induction false} CoverAllSourced(cs: seq<Condition>, signals: set<Signal>, ch: Channels) returns (from: seq<nat>)
    ensures Sourced(CoverAll(cs, signals, ch).potential, LeavesOfAll(cs), from)
    decreases cs
  {
    if cs == [] {
      from := [];
    } else {
      var init, last := cs[..|cs| - 1], cs[|cs| - 1];
      from := CoverAllSourced(init, signals, ch);
      var a, b := CoverAll(init, signals, ch).potential, LeavesOfAll(init);
      if CoverAll(init, signals, ch).failed || !Cover(last, signals, ch).canBeSatisfied {
        SourcedWider(a, b, from, Leaves(last));
      } else {
        var back := CoverSourced(last, signals, ch);
        SourcedConcat(a, b, from, Cover(last, signals, ch).potential, Leaves(last), back);
        from := from + Shifted(back, |b|);
      }
    }
  }

  lemma {:induction false} CoverAnySourced(cs: seq<Condition>, signals: set<Signal>, ch: Channels) returns (from: seq<nat>)
    ensures Sourced(CoverAny(cs, signals, ch).potential, LeavesOfAll(cs), from)
    decreases cs
  {
    if cs == [] {
      from := [];
    } else {
      var init, last := cs[..|cs| - 1], cs[|cs| - 1];
      from := CoverAnySourced(init, signals, ch);
      var a, b := CoverAny(init, signals, ch).potential, LeavesOfAll(init);
      if !Cover(last, signals, ch).canBeSatisfied {
        SourcedWider(a, b, from, Leaves(last));
      } else {
        var back := CoverSourced(last, signals, ch);
        SourcedConcat(a, b, from, Cover(last, signals, ch).potential, Leaves(last), back);
        from := from + Shifted(back, |b|);
      }
    }
  }

  lemma SourcedGroups(potential: seq<PotentialEvidence>, es: seq<Evidence>, from: seq<nat>)
    requires Sourced(potential, es, from) && forall i | 0 <= i < |es| :: ValidEvidence(es[i])
    ensures ValidGroups(potential)
  {
    forall i | 0 <= i < |potential| ensures potential[i].group == "" || IsIdentifier(potential[i].group) {
      assert ValidEvidence(es[from[i]]);
    }
  }
}
