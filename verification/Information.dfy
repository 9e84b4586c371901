/** Coverage is monotone in information: observing more channels completely never revises a verdict. */
module Information {
  import Conclusive
  import opened DependencyGraph
  import opened Model
  import opened Ordering
  import opened Schema
  import opened Matching
  import opened MatchingLaws
  import opened Sums
  import opened Detections
  import opened Capabilities
  import opened Coverage
  import opened CoverageLaws
  import opened Status
  import opened Scanner

  /** fuller is complete wherever ch is, over the same producers. */
  ghost predicate MoreComplete(ch: Channels, fuller: Channels) {
    && fuller.registry == ch.registry
    && forall source, kind | ch.complete(source, kind) :: fuller.complete(source, kind)
  }

  // ----- Conditions -----

  /** b lists all of a, in order, with the same scores, at least as unknown, and blaming at least the same sources. */
  ghost predicate Narrows(a: seq<PotentialEvidence>, b: seq<PotentialEvidence>, at: seq<nat>) {
    && |at| == |a|
    && (forall i | 0 <= i < |at| ::
          && at[i] < |b|
          && a[i].id == b[at[i]].id && a[i].group == b[at[i]].group && a[i].score == b[at[i]].score
          && (a[i].isUnknown ==> b[at[i]].isUnknown)
          && forall x | x in a[i].incompleteSources :: x in b[at[i]].incompleteSources)
    && (forall i, j | 0 <= i < j < |at| :: at[i] < at[j])
  }

  lemma NarrowsConcat(a: seq<PotentialEvidence>, b: seq<PotentialEvidence>, at: seq<nat>,
                      a': seq<PotentialEvidence>, b': seq<PotentialEvidence>, at': seq<nat>)
    requires Narrows(a, b, at) && Narrows(a', b', at')
    ensures Narrows(a + a', b + b', at + Shifted(at', |b|))
  {
    var whole := at + Shifted(at', |b|);
    forall i | 0 <= i < |whole|
      ensures whole[i] < |b + b'|
      ensures i < |a| ==> (a + a')[i] == a[i] && (b + b')[whole[i]] == b[at[i]]
      ensures i >= |a| ==> (a + a')[i] == a'[i - |a|] && (b + b')[whole[i]] == b'[at'[i - |a|]]
    {
    }
  }

  lemma NarrowsWider(a: seq<PotentialEvidence>, b: seq<PotentialEvidence>, at: seq<nat>, extra: seq<PotentialEvidence>)
    requires Narrows(a, b, at)
    ensures Narrows(a, b + extra, at)
  {
  }

  lemma LeafNarrows(e: Evidence, signals: set<Signal>, ch: Channels, fuller: Channels)
    requires MoreComplete(ch, fuller) && CoverLeaf(e, signals, fuller).canBeSatisfied
    ensures CoverLeaf(e, signals, ch).canBeSatisfied
    ensures Narrows(CoverLeaf(e, signals, fuller).potential, CoverLeaf(e, signals, ch).potential, [0])
  {
    if !AnyMatch(e, signals) {
      var less, more := IncompleteSet(fuller, e), IncompleteSet(ch, e);
      assert less <= more;
      var a, b := ListOf(less), ListOf(more);
      forall x | x in a ensures x in b { assert x in Elements(a) && x in Elements(b); }
    }
  }

  lemma {:induction false} CoverNarrows(c: Condition, signals: set<Signal>, ch: Channels, fuller: Channels) returns (at: seq<nat>)
    requires MoreComplete(ch, fuller) && Cover(c, signals, fuller).canBeSatisfied
    ensures Cover(c, signals, ch).canBeSatisfied
    ensures Narrows(Cover(c, signals, fuller).potential, Cover(c, signals, ch).potential, at)
    decreases c
  {
    match c
    case Leaf(e) =>
      LeafNarrows(e, signals, ch, fuller);
      at := [0];
    case All(children) =>
      at := CoverAllNarrows(children, signals, ch, fuller);
    case Any(children) =>
      at := CoverAnyNarrows(children, signals, ch, fuller);
  }

  lemma {:induction false} CoverAllNarrows(cs: seq<Condition>, signals: set<Signal>, ch: Channels, fuller: Channels)
    returns (at: seq<nat>)
    requires MoreComplete(ch, fuller) && !CoverAll(cs, signals, fuller).failed
    ensures !CoverAll(cs, signals, ch).failed
    ensures Narrows(CoverAll(cs, signals, fuller).potential, CoverAll(cs, signals, ch).potential, at)
    decreases cs
  {
    if cs == [] {
      at := [];
    } else {
      var init, last := cs[..|cs| - 1], cs[|cs| - 1];
      var front := CoverAllNarrows(init, signals, ch, fuller);
      var back := CoverNarrows(last, signals, ch, fuller);
      var a, b := CoverAll(init, signals, fuller).potential, CoverAll(init, signals, ch).potential;
      NarrowsConcat(a, b, front, Cover(last, signals, fuller).potential, Cover(last, signals, ch).potential, back);
      at := front + Shifted(back, |b|);
    }
  }

  lemma {:induction false} CoverAnyNarrows(cs: seq<Condition>, signals: set<Signal>, ch: Channels, fuller: Channels)
    returns (at: seq<nat>)
    requires MoreComplete(ch, fuller)
    ensures CoverAny(cs, signals, fuller).satisfiable ==> CoverAny(cs, signals, ch).satisfiable
    ensures Narrows(CoverAny(cs, signals, fuller).potential, CoverAny(cs, signals, ch).potential, at)
    decreases cs
  {
    if cs == [] {
      at := [];
    } else {
      var init, last := cs[..|cs| - 1], cs[|cs| - 1];
      at := CoverAnyNarrows(init, signals, ch, fuller);
      var a, b := CoverAny(init, signals, fuller).potential, CoverAny(init, signals, ch).potential;
      if Cover(last, signals, fuller).canBeSatisfied {
        var back := CoverNarrows(last, signals, ch, fuller);
        NarrowsConcat(a, b, at, Cover(last, signals, fuller).potential, Cover(last, signals, ch).potential, back);
        at := at + Shifted(back, |b|);
      } else {
        NarrowsWider(a, b, at, Cover(last, signals, ch).potential);
      }
    }
  }

  // ----- Rules -----

  lemma NarrowsReach(r: Rule, a: seq<PotentialEvidence>, b: seq<PotentialEvidence>, at: seq<nat>, penalties: real)
    requires Narrows(a, b, at) && ValidGroups(b)
    ensures CanReachThreshold(r, a, penalties) ==> CanReachThreshold(r, b, penalties)
    ensures UnknownSources(a) <= UnknownSources(b)
  {
    forall i | 0 <= i < |a| ensures a[i].group == "" || IsIdentifier(a[i].group) { assert a[i].group == b[at[i]].group; }
    var x, y := CoverageItems(a), CoverageItems(b);
    forall i, j | 0 <= i < |at| && 0 <= j < |at| && y[at[i]].key == y[at[j]].key ensures x[i].key == x[j].key {
      KeysSeparate(b[at[i]], at[i], b[at[j]], at[j]);
      assert i < j ==> at[i] < at[j];
      assert j < i ==> at[j] < at[i];
    }
    BelowBounds(x, y, at);
    Conclusive.ClampMonotone(Sum(GroupMaxima(x)) - penalties, Sum(GroupMaxima(y)) - penalties);
    forall s | s in UnknownSources(a) ensures s in UnknownSources(b) {
      var i :| 0 <= i < |a| && a[i].isUnknown && s in a[i].incompleteSources;
      assert b[at[i]].isUnknown && s in b[at[i]].incompleteSources;
    }
  }

  lemma FactNarrows(rules: seq<Rule>, r: Rule, version: int, signals: set<Signal>, ch: Channels, fuller: Channels)
    requires UniqueRules(rules) && r.id in RuleIds(rules) && ValidRule(r, version) && MoreComplete(ch, fuller)
    ensures var less, more := ScanFact(rules, signals, fuller, r), ScanFact(rules, signals, ch, r);
            && less.detected == more.detected
            && (more.own == NotMatched ==> less.own == NotMatched)
            && Elements(less.incomplete) <= Elements(more.incomplete)
  {
    var a, b := Cover(r.condition, signals, fuller), Cover(r.condition, signals, ch);
    if a.canBeSatisfied {
      var at := CoverNarrows(r.condition, signals, ch, fuller);
      var from := CoverSourced(r.condition, signals, ch);
      Conclusive.WellFormedLeaves(r.condition, 1, version);
      SourcedGroups(b.potential, Leaves(r.condition), from);
      NarrowsReach(r, a.potential, b.potential, at, PenaltiesSeen(rules, TableFor(rules, signals), r));
    }
  }

  // ----- Statuses -----

  /** With more complete channels, less can be wrong and less is open, rule by rule. */
  ghost predicate FactsNarrow(less: FactTable, more: FactTable) {
    && less.Keys == more.Keys
    && forall id | id in more ::
         && less[id].detected == more[id].detected
         && (more[id].own == NotMatched ==> less[id].own == NotMatched)
         && Elements(less[id].incomplete) <= Elements(more[id].incomplete)
  }

  lemma StatusNarrows(g: Graph<string>, less: FactTable, more: FactTable, id: string)
    requires FactsNarrow(less, more) && more.Keys == g.Keys && Closed(g) && id in g
    ensures StatusOf(g, less, id) == StatusOf(g, more, id)
         || (StatusOf(g, more, id) == InsufficientCoverage && StatusOf(g, less, id) == NotDetected)
    ensures OpenSources(g, less, id) <= OpenSources(g, more, id)
  {
    if Refuted(g, more, id) {
      var below :| below in more && Reaches(g, id, below) && more[below].own == NotMatched;
      assert below in less && less[below].own == NotMatched;
    }
    forall x | x in OpenSources(g, less, id) ensures x in OpenSources(g, more, id) {
      var below :| below in less && Reaches(g, id, below) && !less[below].detected && x in less[below].incomplete;
      assert x in Elements(less[below].incomplete) && x in Elements(more[below].incomplete);
    }
  }

  lemma ScanFactsNarrow(s: RuleSet, signals: set<Signal>, ch: Channels, fuller: Channels)
    requires ValidRuleSet(s) && MoreComplete(ch, fuller)
    ensures FactsNarrow(ScanFacts(s.rules, signals, fuller), ScanFacts(s.rules, signals, ch))
  {
    forall id | id in RuleIds(s.rules)
      ensures var less, more := ScanFacts(s.rules, signals, fuller)[id], ScanFacts(s.rules, signals, ch)[id];
              && less.detected == more.detected
              && (more.own == NotMatched ==> less.own == NotMatched)
              && Elements(less.incomplete) <= Elements(more.incomplete)
    {
      var i :| 0 <= i < |s.rules| && s.rules[i].id == id;
      RuleKnown(s.rules, i);
      FactNarrows(s.rules, s.rules[i], s.schemaVersion, signals, ch, fuller);
    }
  }

  /**
   * Making channels more complete keeps every detected and every not-detected status. An insufficient one is kept, or
   * resolved to not detected, and never blames a channel that it did not blame before.
   */
  lemma MoreInformation(s: RuleSet, signals: set<Signal>, ch: Channels, fuller: Channels, id: string)
    requires ValidRuleSet(s) && Closed(Requirements(s.rules)) && id in RuleIds(s.rules) && MoreComplete(ch, fuller)
    ensures var before, after := ScanAnswers(s.rules, signals, ch)[id], ScanAnswers(s.rules, signals, fuller)[id];
            && (after.status == before.status || (before.status == InsufficientCoverage && after.status == NotDetected))
            && Elements(after.incompleteSources) <= Elements(before.incompleteSources)
  {
    var g, less, more := Requirements(s.rules), ScanFacts(s.rules, signals, fuller), ScanFacts(s.rules, signals, ch);
    ScanFactsNarrow(s, signals, ch, fuller);
    StatusNarrows(g, less, more, id);
    assert ScanAnswers(s.rules, signals, fuller)[id] == AnswerFor(g, less, id);
    assert ScanAnswers(s.rules, signals, ch)[id] == AnswerFor(g, more, id);
  }
}
