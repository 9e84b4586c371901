/** What an insufficient-coverage status promises, and the one way it can fail to keep the promise. */
module ExactStatus {
  import opened DependencyGraph
  import opened Model
  import opened Ordering
  import opened Schema
  import opened SchemaValidation
  import opened Scoring
  import opened Detections
  import opened Capabilities
  import opened Coverage
  import opened Status
  import opened Scanner
  import opened Conclusive
  import opened Exactness

  ghost predicate UnambiguousRules(rules: seq<Rule>) {
    forall i | 0 <= i < |rules| :: UnambiguousGroups(Leaves(rules[i].condition))
  }

  /** x is an incomplete channel for some predicate of a rule in the closure of the requirements of id. */
  ghost predicate KeepsOpen(rules: seq<Rule>, ch: Channels, id: string, x: string)
    requires UniqueRules(rules)
  {
    exists i :: 0 <= i < |rules| && Reaches(Requirements(rules), id, rules[i].id) && OpenFor(ch, Leaves(rules[i].condition), x)
  }

  /** A rule without its detection has, below it, a rule that misses its own thresholds. */
  lemma UnmetBelow(rules: seq<Rule>, table: MatchTable, id: string) returns (i: nat)
    requires UniqueRules(rules) && Covers(table, rules) && Closed(Requirements(rules)) && id in RuleIds(rules)
    requires !Detected(rules, table, id)
    ensures i < |rules| && rules[i].id in table && Reaches(Requirements(rules), id, rules[i].id) && !Standing(rules[i], table)
  {
    var g := Requirements(rules);
    var below :| Reaches(g, id, below) && below !in StandingIds(rules, table);
    var path :| IsPathBetween(g, path, id, below);
    ClosedUnderReach(g, g.Keys, path);
    var k :| 0 <= k < |rules| && rules[k].id == below;
    RuleKnown(rules, k);
    i := k;
  }

  lemma NamedAreOpen(rules: seq<Rule>, signals: set<Signal>, ch: Channels, r: Rule, x: string)
    requires UniqueRules(rules) && r.id in RuleIds(rules)
    requires x in ScanFact(rules, signals, ch, r).incomplete
    ensures x in ScanFact(rules, signals, ch, r).required && OpenFor(ch, Leaves(r.condition), x)
  {
    var cover := Cover(r.condition, signals, ch);
    CoverNames(r.condition, signals, ch);
    assert x in Elements(ListOf(UnknownSources(cover.potential)));
    var i :| 0 <= i < |cover.potential| && cover.potential[i].isUnknown && x in cover.potential[i].incompleteSources;
    assert x in Elements(cover.requiredSources);
  }

  lemma ConsultsOpen(g: Graph<string>, facts: FactTable, id: string, below: string)
    requires Consistent(g, facts) && Reaches(g, id, below) && below in facts && !facts[below].detected
    ensures Consults(g, facts, id, below)
  {
    if below != id {
      var path :| IsPathBetween(g, path, id, below);
      LastEdge(g, path);
      var via := path[|path| - 2];
      assert IsEdge(g, via, below);
      assert !facts[via].detected;
    }
  }

  /** Every source that an open verdict names is required by the rule and really keeps it open. */
  lemma NamedSourcesAreOpen(s: RuleSet, ch: Channels, signals: set<Signal>, id: string, x: string)
    requires ValidRuleSet(s) && Closed(Requirements(s.rules)) && id in RuleIds(s.rules)
    requires x in ScanAnswers(s.rules, signals, ch)[id].incompleteSources
    ensures ScanAnswers(s.rules, signals, ch)[id].status == InsufficientCoverage
    ensures x in ScanAnswers(s.rules, signals, ch)[id].requiredSources
    ensures KeepsOpen(s.rules, ch, id, x)
  {
    var rules := s.rules;
    var g, facts := Requirements(rules), ScanFacts(rules, signals, ch);
    FactsConsistent(rules, signals, ch);
    assert StatusOf(g, facts, id) == InsufficientCoverage;
    assert x in Elements(ListOf(OpenSources(g, facts, id)));
    var below :| below in facts && Reaches(g, id, below) && !facts[below].detected && x in facts[below].incomplete;
    var i :| 0 <= i < |rules| && rules[i].id == below;
    RuleKnown(rules, i);
    NamedAreOpen(rules, signals, ch, rules[i], x);
    ConsultsOpen(g, facts, id, below);
    assert x in ConsultedSources(g, facts, id);
    assert x in Elements(ListOf(ConsultedSources(g, facts, id)));
  }

  /** A rule that misses its thresholds, and is not refuted by its own coverage, is open and says why. */
  lemma UnmetIsOpen(rules: seq<Rule>, r: Rule, version: int, ch: Channels, signals: set<Signal>)
    requires UniqueRules(rules) && r in rules && ValidRule(r, version) && UnambiguousGroups(Leaves(r.condition))
    requires Confident(signals) && r.id in RuleIds(rules) && !Standing(r, TableFor(rules, signals))
    requires ScanFact(rules, signals, ch, r).own != NotMatched
    ensures !ScanFact(rules, signals, ch, r).detected && ScanFact(rules, signals, ch, r).incomplete != []
  {
    StandingIfDetected(rules, TableFor(rules, signals), r);
    assert ScanFact(rules, signals, ch, r).own == Unknown;
    if ScanFact(rules, signals, ch, r).incomplete == [] { OwnIsExact(rules, r, version, ch, signals); }
  }

  lemma OpenBelow(g: Graph<string>, facts: FactTable, id: string, below: string)
    requires Consistent(g, facts) && id in g && StatusOf(g, facts, id) == InsufficientCoverage
    requires Reaches(g, id, below) && below in facts && !facts[below].detected && facts[below].incomplete != []
    ensures AnswerFor(g, facts, id).incompleteSources != []
  {
    var x := facts[below].incomplete[0];
    assert x in facts[below].incomplete && x in OpenSources(g, facts, id);
    ListsEmpty(ListOf(OpenSources(g, facts, id)), OpenSources(g, facts, id));
  }

  /** Where groups are unambiguous, insufficient coverage always names at least one channel. */
  lemma InsufficientNamesAChannel(s: RuleSet, ch: Channels, signals: set<Signal>, id: string)
    requires ValidRuleSet(s) && Closed(Requirements(s.rules)) && id in RuleIds(s.rules)
    requires Confident(signals) && UnambiguousRules(s.rules)
    requires ScanAnswers(s.rules, signals, ch)[id].status == InsufficientCoverage
    ensures ScanAnswers(s.rules, signals, ch)[id].incompleteSources != []
  {
    var rules := s.rules;
    var g, facts := Requirements(rules), ScanFacts(rules, signals, ch);
    FactsConsistent(rules, signals, ch);
    FactAt(rules, signals, ch, id);
    var i := UnmetBelow(rules, TableFor(rules, signals), id);
    RuleKnown(rules, i);
    assert facts[rules[i].id] == ScanFact(rules, signals, ch, rules[i]);
    assert !Refuted(g, facts, id);
    UnmetIsOpen(rules, rules[i], s.schemaVersion, ch, signals);
    OpenBelow(g, facts, id, rules[i].id);
  }

  lemma StandingIfDetected(rules: seq<Rule>, table: MatchTable, r: Rule)
    requires UniqueRules(rules) && Covers(table, rules) && r in rules && r.id in table
    ensures Detected(rules, table, r.id) ==> Standing(r, table)
  {
    UniqueRule(rules, r);
    DetectedUnfold(rules, table, r.id);
  }

  /** An insufficient verdict exhibits a supported channel that is not complete. */
  lemma InsufficientMeansIncomplete(s: RuleSet, ch: Channels, signals: set<Signal>, id: string)
    returns (source: string, kind: string)
    requires ValidRuleSet(s) && Closed(Requirements(s.rules)) && id in RuleIds(s.rules)
    requires Confident(signals) && UnambiguousRules(s.rules)
    requires ScanAnswers(s.rules, signals, ch)[id].status == InsufficientCoverage
    ensures ch.registry.Supports(source, kind) && !ch.complete(source, kind)
  {
    InsufficientNamesAChannel(s, ch, signals, id);
    source := ScanAnswers(s.rules, signals, ch)[id].incompleteSources[0];
    NamedSourcesAreOpen(s, ch, signals, id, source);
    kind := OpenChannel(s.rules, ch, id, source);
  }

  lemma OpenChannel(rules: seq<Rule>, ch: Channels, id: string, source: string) returns (kind: string)
    requires UniqueRules(rules) && KeepsOpen(rules, ch, id, source)
    ensures ch.registry.Supports(source, kind) && !ch.complete(source, kind)
  {
    var i :| 0 <= i < |rules| && Reaches(Requirements(rules), id, rules[i].id) && OpenFor(ch, Leaves(rules[i].condition), source);
    var j :| 0 <= j < |Leaves(rules[i].condition)| && source in IncompleteSet(ch, Leaves(rules[i].condition)[j]);
    kind := Leaves(rules[i].condition)[j].kind;
  }

  /** Where every supported channel is complete, the three-valued status is the two-valued one. */
  lemma CompleteMeansExact(s: RuleSet, ch: Channels, signals: set<Signal>, id: string)
    requires ValidRuleSet(s) && Closed(Requirements(s.rules)) && id in RuleIds(s.rules)
    requires Confident(signals) && UnambiguousRules(s.rules)
    requires forall source, kind | ch.registry.Supports(source, kind) :: ch.complete(source, kind)
    ensures ScanAnswers(s.rules, signals, ch)[id].status
         == if Detected(s.rules, TableFor(s.rules, signals), id) then IsDetected else NotDetected
  {
    FactAt(s.rules, signals, ch, id);
    if ScanAnswers(s.rules, signals, ch)[id].status == InsufficientCoverage {
      var source, kind := InsufficientMeansIncomplete(s, ch, signals, id);
    }
  }
}
