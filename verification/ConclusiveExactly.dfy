/** The converse: where some channel could still make a match more certain, not-detected is not conclusive. */
module ConclusiveExactly {
  import opened DependencyGraph
  import opened Model
  import opened Schema
  import opened SchemaValidation
  import opened Matching
  import opened Sums
  import opened Scoring
  import opened Detections
  import opened Capabilities
  import opened Coverage
  import opened CoverageLaws
  import opened Status
  import opened Scanner
  import opened Conclusive

  // ----- Rule sets over a class of patterns -----

  predicate FieldWithin(usable: TextPattern -> bool, field: Option<TextPattern>) {
    field.Some? ==> usable(field.value)
  }

  /** All patterns of e belong to the class. */
  predicate Within(usable: TextPattern -> bool, e: Evidence) {
    FieldWithin(usable, e.source) && FieldWithin(usable, e.key) && FieldWithin(usable, e.value) && FieldWithin(usable, e.url)
  }

  ghost predicate RulesWithin(usable: TextPattern -> bool, rules: seq<Rule>) {
    forall i, e | 0 <= i < |rules| && e in Leaves(rules[i].condition) + rules[i].negative + rules[i].ambiguous ::
      Within(usable, e)
  }

  /** A pattern that a rule document can hold when compile is the regular expression compiler. */
  ghost predicate Loadable(compile: (string, bool) -> Option<string -> bool>, p: TextPattern) {
    p.Regex? ==> p.compiled == compile(p.expression, p.caseInsensitive)
  }

  predicate IsLiteral(p: TextPattern) {
    p.Literal?
  }

  // ----- A rule of one predicate -----

  const PROBE := "probe"

  function ProbeOf(e: Evidence): Evidence {
    e.(id := PROBE, group := "", weight := 100.0)
  }

  /** One rule that is detected only by a certain match of e. */
  function ProbeRule(e: Evidence): Rule {
    Rule(PROBE, "n", "waf", "v", 1, 100.0, Leaf(ProbeOf(e)), [], [], [], [])
  }

  function ProbeSet(e: Evidence): RuleSet {
    RuleSet(CURRENT_SCHEMA_VERSION, [ProbeRule(e)])
  }

  lemma ProbeMatches(e: Evidence, ch: Channels, signals: set<Signal>)
    ensures forall t :: Matches(ProbeOf(e), t) <==> Matches(e, t)
    ensures AnyMatch(ProbeOf(e), signals) <==> AnyMatch(e, signals)
    ensures IncompleteSet(ch, ProbeOf(e)) == IncompleteSet(ch, e)
  {
    forall t ensures Matches(ProbeOf(e), t) <==> Matches(e, t) { }
  }

  lemma ProbeRuleValid(e: Evidence)
    requires ValidEvidence(e)
    ensures ValidRule(ProbeRule(e), CURRENT_SCHEMA_VERSION)
  {
    var r, p := ProbeRule(e), ProbeOf(e);
    FitsOne(p, 0, {});
    assert Leaves(r.condition) == [p];
    assert r.name[0] == 'n' && r.vendor[0] == 'v';
    assert !Blank(r.name) && !Blank(r.vendor);
    assert [p] + r.negative + r.ambiguous == [p];
  }

  lemma ProbeGraph(e: Evidence)
    ensures UniqueRules(ProbeSet(e).rules)
    ensures Requirements(ProbeSet(e).rules) == map[PROBE := []]
    ensures RuleIds(ProbeSet(e).rules) == {PROBE}
    ensures Closed(Requirements(ProbeSet(e).rules)) && Acyclic(Requirements(ProbeSet(e).rules))
  {
    var rules := ProbeSet(e).rules;
    assert RuleIds(rules) == {PROBE} by { assert rules[0].id in RuleIds(rules); }
    RuleKnown(rules, 0);
    var g := Requirements(rules);
    forall id | id in g ensures !OnCycle(g, id) {
      if OnCycle(g, id) {
        OnCycleUnfold(g, id);
        assert false;
      }
    }
  }

  lemma ProbeSetValid(e: Evidence)
    requires ValidEvidence(e)
    ensures ValidRuleSet(ProbeSet(e))
  {
    ProbeRuleValid(e);
    ProbeGraph(e);
  }

  lemma ProbeSetWithin(usable: TextPattern -> bool, e: Evidence)
    requires Within(usable, e)
    ensures RulesWithin(usable, ProbeSet(e).rules)
  {
    var r := ProbeRule(e);
    assert Leaves(r.condition) + r.negative + r.ambiguous == [ProbeOf(e)];
  }

  lemma OneGroup(key: string, score: real)
    ensures GroupMaxima([Item(key, score)]) == map[key := score]
    ensures Sum(map[key := score]) == score
    ensures |map[key := score]| == 1
  {
    var items := [Item(key, score)];
    assert items[..0] == [];
    var table := map[key := score];
    SumRemove(table, key);
    assert table - {key} == map[];
  }

  lemma OneMatchTotal(m: EvidenceMatch)
    ensures PositiveTotal([m]) == Contribution(m)
    ensures |GroupsOf([m])| == 1
  {
    OneGroup(m.group, Contribution(m));
    assert Items([m]) == [Item(m.group, Contribution(m))];
    assert GroupsOf([m]) == {m.group} by { assert [m][0].group in GroupsOf([m]); }
  }

  /** The probe is a candidate where its predicate matches, and scores 100 times the best confidence. */
  lemma ProbeScore(e: Evidence, signals: set<Signal>)
    requires Confident(signals) && AnyMatch(ProbeOf(e), signals)
    ensures UniqueRules(ProbeSet(e).rules) && PROBE in TableFor(ProbeSet(e).rules, signals)
    ensures EvidenceScore(ProbeRule(e), TableFor(ProbeSet(e).rules, signals))
         == 100.0 * Strongest(ProbeOf(e), signals).confidence
    ensures TableFor(ProbeSet(e).rules, signals)[PROBE].Candidate()
  {
    var rules, r, p := ProbeSet(e).rules, ProbeRule(e), ProbeOf(e);
    ProbeGraph(e);
    assert rules[0] == r;
    TableAt(rules, signals, r);
    var m := MatchOf(p, Strongest(p, signals));
    OneMatchTotal(m);
    assert MatchRule(r, signals).positive == [m];
    assert MatchRule(r, signals).negative == [] && MatchRule(r, signals).ambiguous == [];
    assert PenaltyTotal([]) == 0.0;
    assert Total(AppliedPenalties([], TableFor(rules, signals))) == 0.0;
  }

  lemma ProbeDetected(e: Evidence, signals: set<Signal>)
    requires Confident(signals) && AnyMatch(ProbeOf(e), signals)
    ensures UniqueRules(ProbeSet(e).rules)
    ensures Detected(ProbeSet(e).rules, TableFor(ProbeSet(e).rules, signals), PROBE)
       <==> Strongest(ProbeOf(e), signals).confidence == 1.0
  {
    var rules, r := ProbeSet(e).rules, ProbeRule(e);
    ProbeGraph(e);
    ProbeScore(e, signals);
    assert rules[0] == r;
    UniqueRule(rules, r);
    DetectedUnfold(rules, TableFor(rules, signals), PROBE);
  }

  /** The scan's answer for the probe is not-detected. */
  ghost predicate ProbeIsRefuted(e: Evidence, ch: Channels, signals: set<Signal>) {
    var rules := ProbeSet(e).rules;
    && UniqueRules(rules) && Closed(Requirements(rules)) && PROBE in RuleIds(rules)
    && ScanAnswers(rules, signals, ch)[PROBE].status == NotDetected
  }

  lemma UncertainIsRefuted(e: Evidence, ch: Channels, signals: set<Signal>)
    requires Confident(signals) && AnyMatch(ProbeOf(e), signals)
    requires Strongest(ProbeOf(e), signals).confidence < 1.0
    ensures ProbeIsRefuted(e, ch, signals)
  {
    var rules, r, p := ProbeSet(e).rules, ProbeRule(e), ProbeOf(e);
    ProbeGraph(e);
    ProbeDetected(e, signals);
    assert rules[0] == r;
    TableAt(rules, signals, r);
    var cover := Cover(r.condition, signals, ch);
    var potential := PotentialEvidence(p.id, p.group, p.weight * Strongest(p, signals).confidence, [], false);
    assert cover.potential == [potential];
    OneGroup(GroupKey(potential, 0), potential.score);
    assert CoverageItems(cover.potential) == [Item(GroupKey(potential, 0), potential.score)];
    ProbeUnpunished(e, signals);
    assert !CanReachThreshold(r, cover.potential, PenaltiesSeen(rules, TableFor(rules, signals), r));
    ReachesSelf(Requirements(rules), PROBE);
    assert Refuted(Requirements(rules), ScanFacts(rules, signals, ch), PROBE);
  }

  lemma ProbeUnpunished(e: Evidence, signals: set<Signal>)
    ensures UniqueRules(ProbeSet(e).rules)
    ensures var rules, r := ProbeSet(e).rules, ProbeRule(e);
            r.id in TableFor(rules, signals) && PenaltiesSeen(rules, TableFor(rules, signals), r) == 0.0
  {
    var rules, r := ProbeSet(e).rules, ProbeRule(e);
    ProbeGraph(e);
    assert rules[0] == r;
    TableAt(rules, signals, r);
    assert MatchRule(r, signals).negative == [] && MatchRule(r, signals).ambiguous == [];
    assert ConflictsOf(r, TableFor(rules, signals)) == [];
  }

  /** A predicate that nothing matched and no incomplete channel could match refutes its rule. */
  lemma UnseenIsRefuted(e: Evidence, ch: Channels, signals: set<Signal>)
    requires !AnyMatch(ProbeOf(e), signals) && IncompleteSet(ch, ProbeOf(e)) == {}
    ensures ProbeIsRefuted(e, ch, signals)
  {
    var rules, r := ProbeSet(e).rules, ProbeRule(e);
    ProbeGraph(e);
    assert rules[0] == r;
    TableAt(rules, signals, r);
    assert Cover(r.condition, signals, ch).state == NotMatched;
    ReachesSelf(Requirements(rules), PROBE);
    assert !MatchRule(r, signals).Candidate();
    UniqueRule(rules, r);
    DetectedUnfold(rules, TableFor(rules, signals), PROBE);
    assert Refuted(Requirements(rules), ScanFacts(rules, signals, ch), PROBE);
  }

  // ----- Contradicted verdicts -----

  /** A valid rule set whose verdict on signals is contradicted by more. */
  ghost predicate Contradicted(s: RuleSet, ch: Channels, signals: set<Signal>, more: set<Signal>, id: string) {
    && ValidRuleSet(s) && Closed(Requirements(s.rules)) && id in RuleIds(s.rules)
    && ScanAnswers(s.rules, signals, ch)[id].status == NotDetected
    && Detected(s.rules, TableFor(s.rules, more), id)
  }

  /** What signals show does not keep the coverage of e open up to certainty. */
  ghost predicate ClosedTo(ch: Channels, signals: set<Signal>, e: Evidence) {
    if AnyMatch(e, signals) then forall t | t in signals && Matches(e, t) :: t.confidence != 1.0
    else IncompleteSet(ch, e) == {}
  }

  /** A certain match that the coverage of a predicate excludes gives a rule set of one rule that is contradicted. */
  lemma ExcludedMatchContradicts(e: Evidence, ch: Channels, signals: set<Signal>, more: set<Signal>, x: Signal)
    requires ValidEvidence(e) && ClosedTo(ch, signals, e) && signals <= more && Confident(more)
    requires x in more && Matches(e, x) && x.confidence == 1.0
    ensures Contradicted(ProbeSet(e), ch, signals, more, PROBE)
  {
    ProbeSetValid(e);
    ProbeGraph(e);
    ProbeMatches(e, ch, signals);
    ClosedIsRefuted(e, ch, signals);
    CertainIsDetected(e, more, x);
  }

  lemma ClosedIsRefuted(e: Evidence, ch: Channels, signals: set<Signal>)
    requires ClosedTo(ch, signals, e) && Confident(signals)
    ensures ProbeIsRefuted(e, ch, signals)
  {
    ProbeMatches(e, ch, signals);
    if AnyMatch(e, signals) {
      assert Matches(e, Strongest(ProbeOf(e), signals));
      UncertainIsRefuted(e, ch, signals);
    } else {
      UnseenIsRefuted(e, ch, signals);
    }
  }

  lemma CertainIsDetected(e: Evidence, signals: set<Signal>, x: Signal)
    requires Confident(signals) && x in signals && Matches(e, x) && x.confidence == 1.0
    ensures UniqueRules(ProbeSet(e).rules)
    ensures Detected(ProbeSet(e).rules, TableFor(ProbeSet(e).rules, signals), PROBE)
  {
    assert Matches(ProbeOf(e), x);
    StrongestAtLeast(ProbeOf(e), signals, x);
    ProbeDetected(e, signals);
  }

  /** Something new matches e although the coverage of e excludes it. */
  ghost predicate Excluded(ch: Channels, signals: set<Signal>, more: set<Signal>, e: Evidence, x: Signal) {
    x in more && x !in signals && Matches(e, x) && ClosedTo(ch, signals, e)
  }

  lemma NotExcludedIsForeseen(ch: Channels, signals: set<Signal>, more: set<Signal>, e: Evidence)
    requires Confident(more) && forall x :: !Excluded(ch, signals, more, e, x)
    ensures Foreseen(ch, signals, more, e)
  {
    if AnyMatch(e, more) {
      var best := Strongest(e, more);
      assert !Excluded(ch, signals, more, e, best);
      if best in signals {
        StrongestAtLeast(e, signals, best);
      } else if AnyMatch(e, signals) {
        var t :| t in signals && Matches(e, t) && t.confidence == 1.0;
        StrongestAtLeast(e, signals, t);
      }
    }
  }

  lemma NothingExcludedHolds(
      usable: TextPattern -> bool, s: RuleSet, ch: Channels, signals: set<Signal>, more: set<Signal>, id: string)
    requires signals <= more && Confident(more) && RulesWithin(usable, s.rules)
    requires forall e, x :: ValidEvidence(e) && Within(usable, e) ==> !Excluded(ch, signals, more, e, x)
    ensures !Contradicted(s, ch, signals, more, id)
  {
    if Contradicted(s, ch, signals, more, id) {
      forall i, j | 0 <= i < |s.rules| && 0 <= j < |Leaves(s.rules[i].condition)|
        ensures Foreseen(ch, signals, more, Leaves(s.rules[i].condition)[j])
      {
        LeafIsWithin(usable, s, i, j);
        NotExcludedIsForeseen(ch, signals, more, Leaves(s.rules[i].condition)[j]);
      }
      ForeseenIsConclusive(s, ch, signals, more, id);
      assert false;
    }
  }

  /**
   * Whatever the class of patterns, and whatever certain signals are added: over all valid rule sets with such patterns,
   * no not-detected verdict is contradicted if and only if no valid predicate with such patterns matches a new signal
   * although its coverage excludes that.
   */
  lemma VerdictsHoldIff(usable: TextPattern -> bool, ch: Channels, signals: set<Signal>, more: set<Signal>)
    requires signals <= more && Confident(more) && forall x | x in more && x !in signals :: x.confidence == 1.0
    ensures (forall s: RuleSet, id | RulesWithin(usable, s.rules) :: !Contradicted(s, ch, signals, more, id))
       <==> forall e, x :: ValidEvidence(e) && Within(usable, e) ==> !Excluded(ch, signals, more, e, x)
  {
    if e, x :| ValidEvidence(e) && Within(usable, e) && Excluded(ch, signals, more, e, x) {
      ExcludedMatchContradicts(e, ch, signals, more, x);
      ProbeSetWithin(usable, e);
      assert RulesWithin(usable, ProbeSet(e).rules) && Contradicted(ProbeSet(e), ch, signals, more, PROBE);
    } else {
      forall s: RuleSet, id | RulesWithin(usable, s.rules) ensures !Contradicted(s, ch, signals, more, id) {
        NothingExcludedHolds(usable, s, ch, signals, more, id);
      }
    }
  }

  // ----- Exactness over a class of patterns -----

  /** A valid rule set whose verdict on signals an admissible future overturns. */
  ghost predicate Overturned(s: RuleSet, ch: Channels, signals: set<Signal>, more: set<Signal>, id: string) {
    Admissible(ch, signals, more) && Contradicted(s, ch, signals, more, id)
  }

  /** No verdict of a valid rule set over the class is overturned by any admissible future. */
  ghost predicate ConclusiveWithin(usable: TextPattern -> bool, ch: Channels, signals: set<Signal>) {
    forall s: RuleSet, more, id :: RulesWithin(usable, s.rules) ==> !Overturned(s, ch, signals, more, id)
  }

  /** Every valid predicate over the class is settled. */
  ghost predicate SettledWithin(usable: TextPattern -> bool, ch: Channels, signals: set<Signal>) {
    forall e | ValidEvidence(e) && Within(usable, e) :: SettledFor(ch, signals, e)
  }

  /**
   * Whatever the class of patterns: over all valid rule sets with such patterns and all admissible futures, not-detected
   * verdicts on signals are conclusive if and only if every valid predicate with such patterns that an incomplete channel
   * could still match is unmatched or matched with certainty.
   */
  lemma ConclusiveIffSettledWithin(usable: TextPattern -> bool, ch: Channels, signals: set<Signal>)
    requires Confident(signals)
    ensures ConclusiveWithin(usable, ch, signals) <==> SettledWithin(usable, ch, signals)
  {
    if SettledWithin(usable, ch, signals) {
      forall s: RuleSet, more, id | RulesWithin(usable, s.rules) ensures !Overturned(s, ch, signals, more, id) {
        StandsIfSettled(usable, s, ch, signals, more, id);
      }
    } else {
      var e :| ValidEvidence(e) && Within(usable, e) && !SettledFor(ch, signals, e);
      UnsettledIsInconclusive(usable, ch, signals, e);
    }
  }

  lemma UnsettledIsInconclusive(usable: TextPattern -> bool, ch: Channels, signals: set<Signal>, e: Evidence)
    requires Confident(signals) && ValidEvidence(e) && Within(usable, e) && !SettledFor(ch, signals, e)
    ensures !ConclusiveWithin(usable, ch, signals)
  {
    var source :| source in IncompleteSet(ch, e);
    UnsettledIsOverturned(ch, signals, e, source);
    ProbeSetWithin(usable, e);
    OverturnedRefutes(usable, ProbeSet(e), ch, signals, signals + {Certain(Strongest(e, signals), source)}, PROBE);
  }

  lemma OverturnedRefutes(
      usable: TextPattern -> bool, s: RuleSet, ch: Channels, signals: set<Signal>, more: set<Signal>, id: string)
    requires RulesWithin(usable, s.rules) && Overturned(s, ch, signals, more, id)
    ensures !ConclusiveWithin(usable, ch, signals)
  {
  }

  lemma RulesAreForeseen(usable: TextPattern -> bool, s: RuleSet, ch: Channels, signals: set<Signal>, more: set<Signal>)
    requires ValidRuleSet(s) && RulesWithin(usable, s.rules)
    requires SettledWithin(usable, ch, signals) && Admissible(ch, signals, more)
    ensures RulesForeseen(ch, signals, more, s.rules)
  {
    forall i, j | 0 <= i < |s.rules| && 0 <= j < |Leaves(s.rules[i].condition)|
      ensures Foreseen(ch, signals, more, Leaves(s.rules[i].condition)[j])
    {
      var e := Leaves(s.rules[i].condition)[j];
      LeafIsWithin(usable, s, i, j);
      SettledIsForeseen(e, ch, signals, more);
    }
  }

  lemma LeafIsWithin(usable: TextPattern -> bool, s: RuleSet, i: nat, j: nat)
    requires ValidRuleSet(s) && RulesWithin(usable, s.rules)
    requires i < |s.rules| && j < |Leaves(s.rules[i].condition)|
    ensures ValidEvidence(Leaves(s.rules[i].condition)[j]) && Within(usable, Leaves(s.rules[i].condition)[j])
  {
    var r := s.rules[i];
    assert ValidRule(r, s.schemaVersion);
    WellFormedLeaves(r.condition, 1, s.schemaVersion);
    assert Leaves(r.condition)[j] in Leaves(r.condition) + r.negative + r.ambiguous;
  }

  lemma StandsIfSettled(
      usable: TextPattern -> bool, s: RuleSet, ch: Channels, signals: set<Signal>, more: set<Signal>, id: string)
    requires Confident(signals) && RulesWithin(usable, s.rules) && SettledWithin(usable, ch, signals)
    ensures !Overturned(s, ch, signals, more, id)
  {
    if Overturned(s, ch, signals, more, id) {
      AdmissibleConfident(ch, signals, more);
      RulesAreForeseen(usable, s, ch, signals, more);
      ForeseenIsConclusive(s, ch, signals, more, id);
      assert false;
    }
  }

  function Certain(s: Signal, source: string): Signal {
    s.(source := source, confidence := 1.0)
  }

  /**
   * The failing family: any valid predicate that is matched without certainty and that an incomplete channel could still
   * match gives a valid rule set, with no other patterns, whose verdict is overturned.
   */
  lemma UnsettledIsOverturned(ch: Channels, signals: set<Signal>, e: Evidence, source: string)
    requires Confident(signals) && ValidEvidence(e) && !SettledFor(ch, signals, e) && source in IncompleteSet(ch, e)
    ensures Overturned(ProbeSet(e), ch, signals, signals + {Certain(Strongest(e, signals), source)}, PROBE)
  {
    var x := Certain(Strongest(e, signals), source);
    assert Matches(e, Strongest(e, signals));
    assert Admissible(ch, signals, signals + {x});
    ExcludedMatchContradicts(e, ch, signals, signals + {x}, x);
  }

  /** The patterns that a given regular expression compiler yields are such a class. */
  lemma LoadableConclusiveIff(compile: (string, bool) -> Option<string -> bool>, ch: Channels, signals: set<Signal>)
    requires Confident(signals)
    ensures (forall s: RuleSet, more, id | RulesWithin(p => Loadable(compile, p), s.rules) :: !Overturned(s, ch, signals, more, id))
       <==> forall e | ValidEvidence(e) && Within(p => Loadable(compile, p), e) :: SettledFor(ch, signals, e)
  {
    ConclusiveIffSettledWithin(p => Loadable(compile, p), ch, signals);
  }

  // ----- Literals -----

  /** A literal pattern can hold it. */
  predicate Quotable(s: string) {
    s != "" && ByteLength(s) <= MAX_PATTERN_BYTES
  }

  function Quote(s: string): Option<TextPattern> {
    Some(Literal(Exact, s, false))
  }

  /** A predicate for exactly the content and source of s. */
  function Quoting(s: Signal): Evidence {
    Evidence(PROBE, "", s.kind, Quote(s.source), Quote(s.key), Quote(s.value), Quote(s.url), 100.0)
  }

  /** A literal for the source of a complete channel closes the coverage of whatever nothing matched. */
  lemma QuotedSourceCloses(ch: Channels, signals: set<Signal>, e: Evidence, source: string)
    requires e.source == Quote(source) && ch.complete(source, e.kind)
    requires forall t | t in signals :: !Matches(e, t)
    ensures ClosedTo(ch, signals, e)
  {
    forall other | other in CapableSet(ch.registry, e) ensures other == source { QuoteAccepts(source, other); }
  }

  lemma QuoteAccepts(s: string, t: string)
    ensures AcceptsField(Quote(s), t) <==> s == t
  {
  }

  /**
   * Literals alone do it: an uncertain observation of an incomplete channel, with fields that a literal pattern can hold,
   * overturns a verdict of a rule set of literals once the channel repeats it with certainty.
   */
  lemma UncertainIsOverturned(ch: Channels, signals: set<Signal>, s: Signal)
    requires Confident(signals) && s in signals && s.kind in SIGNAL_TYPES
    requires Quotable(s.source) && Quotable(s.key) && Quotable(s.value) && Quotable(s.url)
    requires ch.registry.Supports(s.source, s.kind) && !ch.complete(s.source, s.kind)
    requires Certain(s, s.source) !in signals
    ensures RulesWithin(IsLiteral, ProbeSet(Quoting(s)).rules)
    ensures Overturned(ProbeSet(Quoting(s)), ch, signals, signals + {Certain(s, s.source)}, PROBE)
  {
    var e, x := Quoting(s), Certain(s, s.source);
    ProbeSetWithin(IsLiteral, e);
    assert Matches(e, s) && Matches(e, x);
    forall t | t in signals && Matches(e, t) ensures t.confidence != 1.0 {
      assert t == Certain(s, s.source).(confidence := t.confidence);
    }
    assert IsIdentifier(PROBE);
    assert Admissible(ch, signals, signals + {x});
    ExcludedMatchContradicts(e, ch, signals, signals + {x}, x);
  }

  // ----- Patterns that may denote anything -----

  predicate Anything(p: TextPattern) { true }

  /** Expressions that accept exactly the content of s, from its own source or from source. */
  function Oracle(s: Signal, source: string): Evidence {
    Evidence(
      PROBE, "", s.kind,
      Some(Regex("source", false, Some(x => x == s.source || x == source))),
      Some(Regex("key", false, Some(x => x == s.key))),
      Some(Regex("value", false, Some(x => x == s.value))),
      Some(Regex("url", false, Some(x => x == s.url))),
      100.0)
  }

  lemma OracleMatches(s: Signal, source: string, t: Signal)
    ensures Matches(Oracle(s, source), t) <==> SameContent(s, t) && (t.source == s.source || t.source == source)
  {
  }

  lemma OracleValid(s: Signal, source: string)
    requires s.kind in SIGNAL_TYPES
    ensures ValidEvidence(Oracle(s, source))
  {
    assert ByteLength("source") <= 24 && ByteLength("key") <= 12 && ByteLength("value") <= 20 && ByteLength("url") <= 12 by {
      ByteBound("source");
      ByteBound("key");
      ByteBound("value");
      ByteBound("url");
    }
  }

  lemma {:induction false} ByteBound(s: string)
    ensures ByteLength(s) <= 4 * |s|
  {
    if s != [] { ByteBound(s[..|s| - 1]); }
  }

  /** Where expressions may denote any predicate, settled predicates and settled signals are the same. */
  lemma SettledWithinAnything(ch: Channels, signals: set<Signal>)
    requires forall s | s in signals :: s.kind in SIGNAL_TYPES
    ensures SettledWithin(Anything, ch, signals) <==> Settled(ch, signals)
  {
    if Settled(ch, signals) {
      forall e ensures SettledFor(ch, signals, e) { SettledSettles(ch, signals, e); }
    }
    if SettledWithin(Anything, ch, signals) {
      forall s, source | s in signals && ch.registry.Supports(source, s.kind) && !ch.complete(source, s.kind)
        ensures Settles(signals, s, source)
      {
        OracleSettles(ch, signals, s, source);
      }
    }
  }

  lemma OracleSettles(ch: Channels, signals: set<Signal>, s: Signal, source: string)
    requires SettledWithin(Anything, ch, signals) && s in signals && s.kind in SIGNAL_TYPES
    requires ch.registry.Supports(source, s.kind) && !ch.complete(source, s.kind)
    ensures Settles(signals, s, source)
  {
    var e := Oracle(s, source);
    OracleValid(s, source);
    OracleMatches(s, source, s);
    assert source in IncompleteSet(ch, e);
    assert SettledFor(ch, signals, e);
    var t :| t in signals && Matches(e, t) && t.confidence == 1.0;
    OracleMatches(s, source, t);
  }

  /**
   * Over all valid rule sets, whose expressions may denote any predicate, and all admissible futures, not-detected
   * verdicts on signals are conclusive if and only if no incomplete channel could make an observed content more certain.
   */
  lemma ConclusiveIffSettled(ch: Channels, signals: set<Signal>)
    requires Confident(signals) && forall s | s in signals :: s.kind in SIGNAL_TYPES
    ensures (forall s, more, id :: !Overturned(s, ch, signals, more, id)) <==> Settled(ch, signals)
  {
    ConclusiveIffSettledWithin(Anything, ch, signals);
    SettledWithinAnything(ch, signals);
    ConclusiveWithinAnything(ch, signals);
  }

  lemma ConclusiveWithinAnything(ch: Channels, signals: set<Signal>)
    ensures ConclusiveWithin(Anything, ch, signals) <==> forall s, more, id :: !Overturned(s, ch, signals, more, id)
  {
    forall s: RuleSet, more, id | ConclusiveWithin(Anything, ch, signals) ensures !Overturned(s, ch, signals, more, id) {
      AllWithinAnything(s.rules);
    }
  }

  lemma AllWithinAnything(rules: seq<Rule>)
    ensures RulesWithin(Anything, rules)
  {
  }
}
