/** What the coverage of a condition reports, predicate by predicate: potential evidence, state, and sources. */
module CoverageMeanings {
  import opened DependencyGraph
  import opened Model
  import opened Ordering
  import opened Schema
  import opened Matching
  import opened Scoring
  import opened Detections
  import opened Capabilities
  import opened Coverage
  import opened Status
  import opened Scanner
  import opened BestCase
  import opened PartialOutcomes

  // ----- One predicate -----

  /** source can produce what e asks for, and was not observed completely. */
  ghost predicate IsOpen(ch: Channels, e: Evidence, source: string) {
    ch.registry.Supports(source, e.kind) && AcceptsField(e.source, source) && !ch.complete(source, e.kind)
  }

  ghost predicate CanProduce(ch: Channels, e: Evidence, source: string) {
    ch.registry.Supports(source, e.kind) && AcceptsField(e.source, source)
  }

  /** A seen predicate counts with its confidence, an open one in full and with its open sources. */
  ghost predicate Weighs(ch: Channels, signals: set<Signal>, p: PotentialEvidence, e: Evidence) {
    && p.id == e.id && p.group == e.group
    && if AnyMatch(e, signals) then
         !p.isUnknown && p.incompleteSources == [] && p.score == e.weight * Strongest(e, signals).confidence
       else
         p.isUnknown && p.score == e.weight && forall x :: x in p.incompleteSources <==> IsOpen(ch, e, x)
  }

  ghost predicate AllWeigh(ch: Channels, signals: set<Signal>, ps: seq<PotentialEvidence>, es: seq<Evidence>) {
    |ps| == |es| && forall i | 0 <= i < |ps| :: Weighs(ch, signals, ps[i], es[i])
  }

  lemma AllWeighConcat(ch: Channels, signals: set<Signal>, ps: seq<PotentialEvidence>, es: seq<Evidence>,
                       ps': seq<PotentialEvidence>, es': seq<Evidence>)
    requires AllWeigh(ch, signals, ps, es) && AllWeigh(ch, signals, ps', es')
    ensures AllWeigh(ch, signals, ps + ps', es + es')
  {
  }

  lemma ListOfHas(s: set<string>, x: string)
    ensures x in ListOf(s) <==> x in s
  {
    assert Elements(ListOf(s)) == s;
    assert x in ListOf(s) <==> x in Elements(ListOf(s));
  }

  lemma LeafWeighs(e: Evidence, ch: Channels, signals: set<Signal>)
    requires CoverLeaf(e, signals, ch).canBeSatisfied
    ensures AllWeigh(ch, signals, CoverLeaf(e, signals, ch).potential, [e])
  {
    if !AnyMatch(e, signals) {
      forall x ensures x in ListOf(IncompleteSet(ch, e)) <==> IsOpen(ch, e, x) { ListOfHas(IncompleteSet(ch, e), x); }
    }
  }

  // ----- Potential evidence -----

  /** The potential evidence is that of the predicates that would be shown in the best case, in document order. */
  lemma {:induction false} PotentialIsShowing(c: Condition, ch: Channels, signals: set<Signal>, more: set<Signal>)
    requires AllFilled(ch, signals, more, Leaves(c)) && Cover(c, signals, ch).canBeSatisfied
    ensures AllWeigh(ch, signals, Cover(c, signals, ch).potential, Showing(c, more))
    decreases c
  {
    CoverIsBestCase(c, ch, signals, more);
    MatchedIffHolds(c, more);
    match c
    case Leaf(e) =>
      assert Leaves(c)[0] == e;
      LeafFilled(e, ch, signals, more);
      LeafWeighs(e, ch, signals);
    case All(children) => AllPotential(children, ch, signals, more);
    case Any(children) => AnyPotential(children, ch, signals, more);
  }

  lemma {:induction false} AllPotential(cs: seq<Condition>, ch: Channels, signals: set<Signal>, more: set<Signal>)
    requires AllFilled(ch, signals, more, LeavesOfAll(cs)) && !CoverAll(cs, signals, ch).failed
    ensures AllWeigh(ch, signals, CoverAll(cs, signals, ch).potential, ShowingIn(cs, more, false))
    decreases cs
  {
    if cs != [] {
      var init, last := cs[..|cs| - 1], cs[|cs| - 1];
      AllFilledParts(ch, signals, more, LeavesOfAll(init), Leaves(last));
      AllPotential(init, ch, signals, more);
      PotentialIsShowing(last, ch, signals, more);
      AllWeighConcat(ch, signals, CoverAll(init, signals, ch).potential, ShowingIn(init, more, false),
                     Cover(last, signals, ch).potential, Showing(last, more));
    }
  }

  lemma {:induction false} AnyPotential(cs: seq<Condition>, ch: Channels, signals: set<Signal>, more: set<Signal>)
    requires AllFilled(ch, signals, more, LeavesOfAll(cs))
    ensures AllWeigh(ch, signals, CoverAny(cs, signals, ch).potential, ShowingIn(cs, more, true))
    decreases cs
  {
    if cs != [] {
      var init, last := cs[..|cs| - 1], cs[|cs| - 1];
      AllFilledParts(ch, signals, more, LeavesOfAll(init), Leaves(last));
      AnyPotential(init, ch, signals, more);
      CoverIsBestCase(last, ch, signals, more);
      MatchedIffHolds(last, more);
      if Cover(last, signals, ch).canBeSatisfied {
        PotentialIsShowing(last, ch, signals, more);
        AllWeighConcat(ch, signals, CoverAny(init, signals, ch).potential, ShowingIn(init, more, true),
                       Cover(last, signals, ch).potential, Showing(last, more));
      }
    }
  }

  // ----- State and incomplete sources -----

  /** Some potential evidence is unknown and names source. */
  ghost predicate NamedIn(ps: seq<PotentialEvidence>, source: string) {
    exists i :: 0 <= i < |ps| && ps[i].isUnknown && source in ps[i].incompleteSources
  }

  ghost predicate SomeUnknown(ps: seq<PotentialEvidence>) {
    exists i :: 0 <= i < |ps| && ps[i].isUnknown
  }

  lemma UnknownConcat(a: seq<PotentialEvidence>, b: seq<PotentialEvidence>)
    ensures SomeUnknown(a + b) <==> SomeUnknown(a) || SomeUnknown(b)
    ensures forall x :: NamedIn(a + b, x) <==> NamedIn(a, x) || NamedIn(b, x)
  {
    var whole := a + b;
    assert forall i | 0 <= i < |a| :: whole[i] == a[i];
    assert forall i | 0 <= i < |b| :: whole[|a| + i] == b[i];
    assert forall i | |a| <= i < |whole| :: whole[i] == b[i - |a|];
  }

  /** The state and the sources of a satisfiable condition are those of its potential evidence. */
  lemma {:induction false} StateIsOfPotential(c: Condition, ch: Channels, signals: set<Signal>)
    ensures var k := Cover(c, signals, ch);
            && (k.state == NotMatched <==> !k.canBeSatisfied)
            && (k.canBeSatisfied ==> (k.state == Unknown <==> SomeUnknown(k.potential)))
            && (k.canBeSatisfied ==> forall x :: x in k.incompleteSources <==> NamedIn(k.potential, x))
            && (!k.canBeSatisfied ==> k.potential == [] && k.incompleteSources == [])
    decreases c
  {
    match c
    case Leaf(e) => LeafState(e, ch, signals);
    case All(children) =>
      AllState(children, ch, signals);
      forall x ensures x in ListOf(CoverAll(children, signals, ch).incomplete) <==> x in CoverAll(children, signals, ch).incomplete {
        ListOfHas(CoverAll(children, signals, ch).incomplete, x);
      }
    case Any(children) =>
      AnyState(children, ch, signals);
      forall x ensures x in ListOf(CoverAny(children, signals, ch).incomplete) <==> x in CoverAny(children, signals, ch).incomplete {
        ListOfHas(CoverAny(children, signals, ch).incomplete, x);
      }
  }

  lemma LeafState(e: Evidence, ch: Channels, signals: set<Signal>)
    ensures var k := CoverLeaf(e, signals, ch);
            && (k.state == NotMatched <==> !k.canBeSatisfied)
            && (k.canBeSatisfied ==> (k.state == Unknown <==> SomeUnknown(k.potential)))
            && (k.canBeSatisfied ==> forall x :: x in k.incompleteSources <==> NamedIn(k.potential, x))
            && (!k.canBeSatisfied ==> k.potential == [] && k.incompleteSources == [])
  {
    var k := CoverLeaf(e, signals, ch);
    if k.state == Unknown {
      assert k.potential[0].isUnknown && k.potential[0].incompleteSources == k.incompleteSources;
    }
  }

  lemma {:induction false} AllState(cs: seq<Condition>, ch: Channels, signals: set<Signal>)
    ensures var s := CoverAll(cs, signals, ch);
            !s.failed ==>
              (s.hasUnknown <==> SomeUnknown(s.potential)) && forall x :: x in s.incomplete <==> NamedIn(s.potential, x)
    decreases cs
  {
    if cs != [] {
      var init, last := cs[..|cs| - 1], cs[|cs| - 1];
      AllState(init, ch, signals);
      StateIsOfPotential(last, ch, signals);
      UnknownConcat(CoverAll(init, signals, ch).potential, Cover(last, signals, ch).potential);
    }
  }

  lemma {:induction false} AnyState(cs: seq<Condition>, ch: Channels, signals: set<Signal>)
    ensures var s := CoverAny(cs, signals, ch);
            && (s.hasUnknown <==> SomeUnknown(s.potential))
            && (s.satisfiable <==> s.hasMatched || s.hasUnknown)
            && forall x :: x in s.incomplete <==> NamedIn(s.potential, x)
    decreases cs
  {
    if cs != [] {
      var init, last := cs[..|cs| - 1], cs[|cs| - 1];
      AnyState(init, ch, signals);
      StateIsOfPotential(last, ch, signals);
      UnknownConcat(CoverAny(init, signals, ch).potential, Cover(last, signals, ch).potential);
    }
  }

  // ----- Required sources -----

  /** The predicates that are looked at: an all-condition stops behind its first child that fails even in the best case. */
  ghost function Consulted(c: Condition, more: set<Signal>): seq<Evidence>
    decreases c, 1
  {
    match c
    case Leaf(e) => [e]
    case All(children) => ConsultedIn(children, more, true)
    case Any(children) => ConsultedIn(children, more, false)
  }

  ghost function ConsultedIn(cs: seq<Condition>, more: set<Signal>, stops: bool): seq<Evidence>
    decreases cs, 0
  {
    if cs == [] then []
    else
      var init := cs[..|cs| - 1];
      ConsultedIn(init, more, stops)
      + if stops && exists i | 0 <= i < |init| :: !Holds(init[i], more) then [] else Consulted(cs[|cs| - 1], more)
  }

  ghost predicate ProducedAmong(ch: Channels, es: seq<Evidence>, source: string) {
    exists i :: 0 <= i < |es| && CanProduce(ch, es[i], source)
  }

  lemma ProducedConcat(ch: Channels, a: seq<Evidence>, b: seq<Evidence>, source: string)
    ensures ProducedAmong(ch, a + b, source) <==> ProducedAmong(ch, a, source) || ProducedAmong(ch, b, source)
  {
    var whole := a + b;
    assert forall i | 0 <= i < |a| :: whole[i] == a[i];
    assert forall i | 0 <= i < |b| :: whole[|a| + i] == b[i];
    assert forall i | |a| <= i < |whole| :: whole[i] == b[i - |a|];
  }

  /** The required sources are those that can produce one of the predicates looked at. */
  lemma {:induction false} RequiredIsConsulted(c: Condition, ch: Channels, signals: set<Signal>, more: set<Signal>, x: string)
    requires AllFilled(ch, signals, more, Leaves(c))
    ensures x in Cover(c, signals, ch).requiredSources <==> ProducedAmong(ch, Consulted(c, more), x)
    decreases c
  {
    match c
    case Leaf(e) =>
      ListOfHas(CapableSet(ch.registry, e), x);
      assert CanProduce(ch, [e][0], x) <==> x in CapableSet(ch.registry, e);
    case All(children) =>
      AllRequired(children, ch, signals, more, x);
      ListOfHas(CoverAll(children, signals, ch).required, x);
    case Any(children) =>
      AnyRequired(children, ch, signals, more, x);
      ListOfHas(CoverAny(children, signals, ch).required, x);
  }

  lemma {:induction false} AllRequired(cs: seq<Condition>, ch: Channels, signals: set<Signal>, more: set<Signal>, x: string)
    requires AllFilled(ch, signals, more, LeavesOfAll(cs))
    ensures x in CoverAll(cs, signals, ch).required <==> ProducedAmong(ch, ConsultedIn(cs, more, true), x)
    decreases cs
  {
    if cs != [] {
      var init, last := cs[..|cs| - 1], cs[|cs| - 1];
      AllFilledParts(ch, signals, more, LeavesOfAll(init), Leaves(last));
      AllRequired(init, ch, signals, more, x);
      AllIsBestCase(init, ch, signals, more);
      AllMatchedIffHold(init, more);
      if CoverAll(init, signals, ch).failed {
        assert exists i | 0 <= i < |init| :: !Holds(init[i], more);
        assert ConsultedIn(cs, more, true) == ConsultedIn(init, more, true);
      } else {
        RequiredIsConsulted(last, ch, signals, more, x);
        ProducedConcat(ch, ConsultedIn(init, more, true), Consulted(last, more), x);
        assert ConsultedIn(cs, more, true) == ConsultedIn(init, more, true) + Consulted(last, more);
        assert x in Elements(Cover(last, signals, ch).requiredSources) <==> x in Cover(last, signals, ch).requiredSources;
      }
    }
  }

  lemma {:induction false} AnyRequired(cs: seq<Condition>, ch: Channels, signals: set<Signal>, more: set<Signal>, x: string)
    requires AllFilled(ch, signals, more, LeavesOfAll(cs))
    ensures x in CoverAny(cs, signals, ch).required <==> ProducedAmong(ch, ConsultedIn(cs, more, false), x)
    decreases cs
  {
    if cs != [] {
      var init, last := cs[..|cs| - 1], cs[|cs| - 1];
      AllFilledParts(ch, signals, more, LeavesOfAll(init), Leaves(last));
      AnyRequired(init, ch, signals, more, x);
      RequiredIsConsulted(last, ch, signals, more, x);
      ProducedConcat(ch, ConsultedIn(init, more, false), Consulted(last, more), x);
      assert x in Elements(Cover(last, signals, ch).requiredSources) <==> x in Cover(last, signals, ch).requiredSources;
    }
  }

  // ----- What an open rule reports -----

  ghost predicate OpenAmong(ch: Channels, signals: set<Signal>, es: seq<Evidence>, source: string) {
    exists i :: 0 <= i < |es| && !AnyMatch(es[i], signals) && IsOpen(ch, es[i], source)
  }

  /** An open rule lists exactly the open sources of the unseen predicates that would be shown in the best case. */
  lemma OpenRuleLists(rules: seq<Rule>, r: Rule, ch: Channels, signals: set<Signal>, more: set<Signal>, x: string)
    requires UniqueRules(rules) && r.id in RuleIds(rules) && AllFilled(ch, signals, more, Leaves(r.condition))
    requires ScanFact(rules, signals, ch, r).own == Unknown
    ensures x in ScanFact(rules, signals, ch, r).incomplete <==> OpenAmong(ch, signals, Showing(r.condition, more), x)
  {
    var ps, es := Cover(r.condition, signals, ch).potential, Showing(r.condition, more);
    PotentialIsShowing(r.condition, ch, signals, more);
    ListOfHas(UnknownSources(ps), x);
    assert forall i | 0 <= i < |ps| :: Weighs(ch, signals, ps[i], es[i]);
    if x in UnknownSources(ps) {
      var i :| 0 <= i < |ps| && ps[i].isUnknown && x in ps[i].incompleteSources;
      assert !AnyMatch(es[i], signals) && IsOpen(ch, es[i], x);
    }
    if OpenAmong(ch, signals, es, x) {
      var i :| 0 <= i < |es| && !AnyMatch(es[i], signals) && IsOpen(ch, es[i], x);
      assert ps[i].isUnknown && x in ps[i].incompleteSources;
    }
  }

  /** Rule i, in the closure of the requirements of id, is undetected and leaves source open. */
  ghost predicate LeftOpenBy(
      rules: seq<Rule>, ch: Channels, signals: set<Signal>, more: set<Signal>, id: string, i: nat, source: string)
    requires UniqueRules(rules)
  {
    && i < |rules| && Reaches(Requirements(rules), id, rules[i].id)
    && !Detected(rules, TableFor(rules, signals), rules[i].id)
    && OpenAmong(ch, signals, Showing(rules[i].condition, more), source)
  }

  lemma FactOf(rules: seq<Rule>, ch: Channels, signals: set<Signal>, i: nat)
    requires UniqueRules(rules) && i < |rules|
    ensures rules[i].id in RuleIds(rules)
    ensures rules[i].id in ScanFacts(rules, signals, ch)
    ensures ScanFacts(rules, signals, ch)[rules[i].id] == ScanFact(rules, signals, ch, rules[i])
    ensures ScanFact(rules, signals, ch, rules[i]).detected == Detected(rules, TableFor(rules, signals), rules[i].id)
  {
    RuleKnown(rules, i);
  }

  lemma OpenFactLists(rules: seq<Rule>, ch: Channels, signals: set<Signal>, more: set<Signal>, i: nat, x: string)
    requires UniqueRules(rules) && i < |rules| && AllFilled(ch, signals, more, Leaves(rules[i].condition))
    requires !Detected(rules, TableFor(rules, signals), rules[i].id)
    requires rules[i].id in RuleIds(rules) && ScanFact(rules, signals, ch, rules[i]).own != NotMatched
    ensures x in ScanFact(rules, signals, ch, rules[i]).incomplete
       <==> OpenAmong(ch, signals, Showing(rules[i].condition, more), x)
  {
    OwnMatchedIffDetected(rules, signals, ch, rules[i]);
    OpenRuleLists(rules, rules[i], ch, signals, more, x);
  }

  lemma OpenAnswer(s: RuleSet, ch: Channels, signals: set<Signal>, id: string, x: string)
    requires ValidRuleSet(s) && Closed(Requirements(s.rules)) && id in RuleIds(s.rules)
    requires ScanAnswers(s.rules, signals, ch)[id].status == InsufficientCoverage
    ensures !Refuted(Requirements(s.rules), ScanFacts(s.rules, signals, ch), id)
    ensures x in ScanAnswers(s.rules, signals, ch)[id].incompleteSources
       <==> x in OpenSources(Requirements(s.rules), ScanFacts(s.rules, signals, ch), id)
  {
    ListOfHas(OpenSources(Requirements(s.rules), ScanFacts(s.rules, signals, ch), id), x);
  }

  lemma OpenSourcesMean(s: RuleSet, ch: Channels, signals: set<Signal>, more: set<Signal>, id: string, x: string)
    requires ValidRuleSet(s) && Closed(Requirements(s.rules)) && id in RuleIds(s.rules)
    requires RulesFilled(ch, signals, more, s.rules) && !Refuted(Requirements(s.rules), ScanFacts(s.rules, signals, ch), id)
    ensures x in OpenSources(Requirements(s.rules), ScanFacts(s.rules, signals, ch), id)
       <==> exists i: nat :: LeftOpenBy(s.rules, ch, signals, more, id, i, x)
  {
    var rules := s.rules;
    var g, facts := Requirements(rules), ScanFacts(rules, signals, ch);
    if x in OpenSources(g, facts, id) {
      var below :| below in facts && Reaches(g, id, below) && !facts[below].detected && x in facts[below].incomplete;
      var i :| 0 <= i < |rules| && rules[i].id == below;
      OpenBySome(s, ch, signals, more, id, i, x);
    }
    if i: nat :| LeftOpenBy(rules, ch, signals, more, id, i, x) {
      OpenBySome(s, ch, signals, more, id, i, x);
    }
  }

  /** An open verdict lists exactly the sources that an undetected rule in the closure of its requirements leaves open. */
  lemma OpenVerdictLists(s: RuleSet, ch: Channels, signals: set<Signal>, more: set<Signal>, id: string, x: string)
    requires ValidRuleSet(s) && Closed(Requirements(s.rules)) && id in RuleIds(s.rules)
    requires RulesFilled(ch, signals, more, s.rules)
    requires ScanAnswers(s.rules, signals, ch)[id].status == InsufficientCoverage
    ensures x in ScanAnswers(s.rules, signals, ch)[id].incompleteSources
       <==> exists i: nat :: LeftOpenBy(s.rules, ch, signals, more, id, i, x)
  {
    OpenAnswer(s, ch, signals, id, x);
    OpenSourcesMean(s, ch, signals, more, id, x);
  }

  lemma OpenBySome(s: RuleSet, ch: Channels, signals: set<Signal>, more: set<Signal>, id: string, i: nat, x: string)
    requires ValidRuleSet(s) && Closed(Requirements(s.rules)) && id in RuleIds(s.rules)
    requires RulesFilled(ch, signals, more, s.rules) && !Refuted(Requirements(s.rules), ScanFacts(s.rules, signals, ch), id)
    requires i < |s.rules| && Reaches(Requirements(s.rules), id, s.rules[i].id)
    ensures s.rules[i].id in ScanFacts(s.rules, signals, ch)
    ensures var fact := ScanFacts(s.rules, signals, ch)[s.rules[i].id];
            !fact.detected && x in fact.incomplete <==> LeftOpenBy(s.rules, ch, signals, more, id, i, x)
  {
    FactOf(s.rules, ch, signals, i);
    if !Detected(s.rules, TableFor(s.rules, signals), s.rules[i].id) {
      assert AllFilled(ch, signals, more, Leaves(s.rules[i].condition));
      OpenFactLists(s.rules, ch, signals, more, i, x);
    }
  }

  /** The verdict on id looks at rule i: its own, or a dependency of an undetected rule in its closure. */
  ghost predicate LooksAt(rules: seq<Rule>, signals: set<Signal>, id: string, i: nat)
    requires UniqueRules(rules)
  {
    i < |rules| &&
    (rules[i].id == id
     || exists j: nat :: j < |rules| && Reaches(Requirements(rules), id, rules[j].id)
          && !Detected(rules, TableFor(rules, signals), rules[j].id) && rules[i].id in rules[j].dependencies)
  }

  lemma LooksAtIffConsults(rules: seq<Rule>, ch: Channels, signals: set<Signal>, id: string, i: nat)
    requires UniqueRules(rules) && Closed(Requirements(rules)) && i < |rules|
    ensures Consults(Requirements(rules), ScanFacts(rules, signals, ch), id, rules[i].id) <==> LooksAt(rules, signals, id, i)
  {
    var g, facts := Requirements(rules), ScanFacts(rules, signals, ch);
    if via :| via in facts && Reaches(g, id, via) && !facts[via].detected && IsEdge(g, via, rules[i].id) {
      var j :| 0 <= j < |rules| && rules[j].id == via;
      FactOf(rules, ch, signals, j);
      assert rules[i].id in rules[j].dependencies by { RuleKnown(rules, j); }
    }
    if j: nat :| j < |rules| && Reaches(g, id, rules[j].id)
                 && !Detected(rules, TableFor(rules, signals), rules[j].id) && rules[i].id in rules[j].dependencies {
      FactOf(rules, ch, signals, j);
      RuleKnown(rules, j);
      assert IsEdge(g, rules[j].id, rules[i].id);
    }
  }

  /** A verdict requires exactly the sources that can produce a predicate looked at in a rule looked at. */
  lemma VerdictRequires(s: RuleSet, ch: Channels, signals: set<Signal>, more: set<Signal>, id: string, x: string)
    requires ValidRuleSet(s) && Closed(Requirements(s.rules)) && id in RuleIds(s.rules)
    requires RulesFilled(ch, signals, more, s.rules)
    ensures x in ScanAnswers(s.rules, signals, ch)[id].requiredSources
       <==> exists i: nat :: LooksAt(s.rules, signals, id, i) && ProducedAmong(ch, Consulted(s.rules[i].condition, more), x)
  {
    var rules := s.rules;
    var g, facts := Requirements(rules), ScanFacts(rules, signals, ch);
    ListOfHas(ConsultedSources(g, facts, id), x);
    if x in ConsultedSources(g, facts, id) {
      var below :| below in facts && Consults(g, facts, id, below) && x in facts[below].required;
      var i :| 0 <= i < |rules| && rules[i].id == below;
      RequiredBy(s, ch, signals, more, id, i, x);
    }
    if i: nat :| LooksAt(rules, signals, id, i) && ProducedAmong(ch, Consulted(rules[i].condition, more), x) {
      RequiredBy(s, ch, signals, more, id, i, x);
    }
  }

  lemma RequiredBy(s: RuleSet, ch: Channels, signals: set<Signal>, more: set<Signal>, id: string, i: nat, x: string)
    requires ValidRuleSet(s) && Closed(Requirements(s.rules)) && i < |s.rules| && RulesFilled(ch, signals, more, s.rules)
    ensures s.rules[i].id in ScanFacts(s.rules, signals, ch)
    ensures x in ScanFacts(s.rules, signals, ch)[s.rules[i].id].required
       <==> ProducedAmong(ch, Consulted(s.rules[i].condition, more), x)
    ensures Consults(Requirements(s.rules), ScanFacts(s.rules, signals, ch), id, s.rules[i].id)
       <==> LooksAt(s.rules, signals, id, i)
  {
    FactOf(s.rules, ch, signals, i);
    assert AllFilled(ch, signals, more, Leaves(s.rules[i].condition));
    RequiredIsConsulted(s.rules[i].condition, ch, signals, more, x);
    LooksAtIffConsults(s.rules, ch, signals, id, i);
  }
}
