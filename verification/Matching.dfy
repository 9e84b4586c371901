/** Two-valued matching of rules against signals, and the case-fold cache it shares between rules. */
module Matching {
  import opened Model
  import opened Ordering
  import opened Schema
  import opened SchemaValidation

  // ----- One predicate on one signal -----

  /** A pattern with its operand folded once, before any signal is seen. */
  datatype Prepared = Prepared(pattern: TextPattern, operand: string)

  function Prepare(p: TextPattern): Prepared {
    match p
    case Regex(_, _, _) => Prepared(p, "")
    case Literal(_, operand, fold) => Prepared(p, if fold then ToLower(operand) else operand)
  }

  predicate NeedsCaseFold(p: TextPattern) {
    p.Literal? && p.caseInsensitive
  }

  /** Compares an already folded value. */
  predicate PreparedMatches(p: Prepared, value: string) {
    match p.pattern
    case Regex(_, _, compiled) => compiled.Some? && compiled.value(value)
    case Literal(Exact, _, _) => value == p.operand
    case Literal(Contains, _, _) => Model.Contains(value, p.operand)
    case Literal(Prefix, _, _) => HasPrefix(value, p.operand)
    case Literal(Suffix, _, _) => HasSuffix(value, p.operand)
  }

  /** The meaning of a pattern, without any preparation or cache. */
  predicate Accepts(p: TextPattern, value: string) {
    PreparedMatches(Prepare(p), if NeedsCaseFold(p) then ToLower(value) else value)
  }

  predicate AcceptsField(field: Option<TextPattern>, value: string) {
    field.None? || Accepts(field.value, value)
  }

  predicate Matches(e: Evidence, s: Signal) {
    && e.kind == s.kind
    && AcceptsField(e.source, s.source)
    && AcceptsField(e.key, s.key)
    && AcceptsField(e.value, s.value)
    && AcceptsField(e.url, s.url)
  }

  // ----- The strongest of several signals -----

  /** Higher confidence first, then the smaller fields. */
  predicate StrongerSignal(candidate: Signal, current: Signal) {
    if candidate.confidence != current.confidence then candidate.confidence > current.confidence
    else if candidate.kind != current.kind then Before(candidate.kind, current.kind)
    else if candidate.source != current.source then Before(candidate.source, current.source)
    else if candidate.key != current.key then Before(candidate.key, current.key)
    else if candidate.value != current.value then Before(candidate.value, current.value)
    else candidate.url != current.url && Before(candidate.url, current.url)
  }

  lemma StrongerTotal(a: Signal, b: Signal)
    ensures a == b || StrongerSignal(a, b) || StrongerSignal(b, a)
    ensures !(StrongerSignal(a, b) && StrongerSignal(b, a))
    ensures !StrongerSignal(a, a)
  {
    StringsAsymmetric(a.kind, b.kind);
    StringsAsymmetric(a.source, b.source);
    StringsAsymmetric(a.key, b.key);
    StringsAsymmetric(a.value, b.value);
    StringsAsymmetric(a.url, b.url);
  }

  lemma StringsAsymmetric(a: string, b: string)
    ensures a == b || Before(a, b) || Before(b, a)
    ensures !(Before(a, b) && Before(b, a))
  {
    BeforeTotal(a, b);
    if Before(a, b) && Before(b, a) {
      BeforeTransitive(a, b, a);
      BeforeIrreflexive(a);
    }
  }

  lemma StrongerTransitive(a: Signal, b: Signal, c: Signal)
    requires StrongerSignal(a, b) && StrongerSignal(b, c)
    ensures StrongerSignal(a, c)
  {
    if a.confidence == b.confidence == c.confidence {
      StringsAsymmetric(a.kind, c.kind);
      if Before(a.kind, b.kind) && Before(b.kind, c.kind) { BeforeTransitive(a.kind, b.kind, c.kind); }
      if a.kind == b.kind == c.kind {
        StringsAsymmetric(a.source, c.source);
        if Before(a.source, b.source) && Before(b.source, c.source) { BeforeTransitive(a.source, b.source, c.source); }
        if a.source == b.source == c.source {
          StringsAsymmetric(a.key, c.key);
          if Before(a.key, b.key) && Before(b.key, c.key) { BeforeTransitive(a.key, b.key, c.key); }
          if a.key == b.key == c.key {
            StringsAsymmetric(a.value, c.value);
            if Before(a.value, b.value) && Before(b.value, c.value) { BeforeTransitive(a.value, b.value, c.value); }
            if a.value == b.value == c.value {
              BeforeTransitive(a.url, b.url, c.url);
              StringsAsymmetric(a.url, c.url);
              BeforeIrreflexive(a.url);
            }
          }
        }
      }
    }
  }

  ghost predicate AnyMatch(e: Evidence, signals: set<Signal>) {
    exists s :: s in signals && Matches(e, s)
  }

  ghost predicate IsStrongest(e: Evidence, signals: set<Signal>, best: Signal) {
    && best in signals
    && Matches(e, best)
    && forall s | s in signals && Matches(e, s) :: s == best || StrongerSignal(best, s)
  }

  lemma {:induction false} StrongestExists(e: Evidence, signals: set<Signal>)
    requires AnyMatch(e, signals)
    ensures exists best :: IsStrongest(e, signals, best)
    decreases |signals|
  {
    var x :| x in signals && Matches(e, x);
    var rest := signals - {x};
    if AnyMatch(e, rest) {
      StrongestExists(e, rest);
      var best :| IsStrongest(e, rest, best);
      StrongerTotal(x, best);
      if StrongerSignal(x, best) {
        forall s | s in signals && Matches(e, s) ensures s == x || StrongerSignal(x, s) {
          if s != x && s != best { StrongerTransitive(x, best, s); }
        }
        assert IsStrongest(e, signals, x);
      } else {
        assert IsStrongest(e, signals, best);
      }
    } else {
      assert IsStrongest(e, signals, x);
    }
  }

  lemma StrongestUnique(e: Evidence, signals: set<Signal>, a: Signal, b: Signal)
    requires IsStrongest(e, signals, a) && IsStrongest(e, signals, b)
    ensures a == b
  {
    StrongerTotal(a, b);
  }

  ghost function Strongest(e: Evidence, signals: set<Signal>): (best: Signal)
    requires AnyMatch(e, signals)
    ensures IsStrongest(e, signals, best)
  {
    StrongestExists(e, signals);
    var best :| IsStrongest(e, signals, best);
    best
  }

  datatype EvidenceMatch = EvidenceMatch(evidenceId: string, group: string, weight: real, signal: Signal)

  function MatchOf(e: Evidence, s: Signal): EvidenceMatch {
    EvidenceMatch(e.id, EvidenceGroup(e), e.weight, s)
  }

  // ----- Conditions -----

  datatype Outcome = Outcome(matched: bool, evidence: seq<EvidenceMatch>, missing: seq<string>)

  /** The outcome of a condition over a set of signals: neither their order nor repetition plays a part. */
  ghost function Evaluate(c: Condition, signals: set<Signal>): Outcome
    decreases c
  {
    match c
    case Leaf(e) =>
      if AnyMatch(e, signals) then Outcome(true, [MatchOf(e, Strongest(e, signals))], [])
      else Outcome(false, [], [e.id])
    case All(children) => EvaluateAll(children, signals)
    case Any(children) =>
      var sides := EvaluateAny(children, signals);
      if sides.0.matched then sides.0 else sides.1
  }

  ghost function EvaluateAll(cs: seq<Condition>, signals: set<Signal>): Outcome
    decreases cs
  {
    if cs == [] then Outcome(true, [], [])
    else
      var before := EvaluateAll(cs[..|cs| - 1], signals);
      var last := Evaluate(cs[|cs| - 1], signals);
      Outcome(before.matched && last.matched, before.evidence + last.evidence, before.missing + last.missing)
  }

  /** The matched children together, and the unmatched children together. */
  ghost function EvaluateAny(cs: seq<Condition>, signals: set<Signal>): (Outcome, Outcome)
    decreases cs
  {
    if cs == [] then (Outcome(false, [], []), Outcome(false, [], []))
    else
      var sides := EvaluateAny(cs[..|cs| - 1], signals);
      var last := Evaluate(cs[|cs| - 1], signals);
      if last.matched then (Outcome(true, sides.0.evidence + last.evidence, []), sides.1)
      else (sides.0, Outcome(false, sides.1.evidence + last.evidence, sides.1.missing + last.missing))
  }

  /** The penalty predicates that match, in document order, each with its strongest signal. */
  ghost function MatchList(es: seq<Evidence>, signals: set<Signal>): seq<EvidenceMatch> {
    if es == [] then []
    else
      var before := MatchList(es[..|es| - 1], signals);
      var e := es[|es| - 1];
      if AnyMatch(e, signals) then before + [MatchOf(e, Strongest(e, signals))] else before
  }

  ghost function GroupsOf(evidence: seq<EvidenceMatch>): set<string> {
    set i | 0 <= i < |evidence| :: evidence[i].group
  }

  datatype MatchResult = MatchResult(
    ruleId: string, conditionMatched: bool, minimumEvidenceMet: bool,
    positive: seq<EvidenceMatch>, negative: seq<EvidenceMatch>, ambiguous: seq<EvidenceMatch>, missing: seq<string>)
  {
    predicate Candidate() {
      conditionMatched && minimumEvidenceMet
    }
  }

  ghost function MatchRule(r: Rule, signals: set<Signal>): MatchResult {
    var outcome := Evaluate(r.condition, signals);
    MatchResult(
      r.id, outcome.matched, |GroupsOf(outcome.evidence)| >= r.minimumEvidence,
      outcome.evidence, MatchList(r.negative, signals), MatchList(r.ambiguous, signals), outcome.missing)
  }

  // ----- The shared cache -----

  const FIELD_COUNT := 4

  function RawField(s: Signal, field: nat): string
    requires field < FIELD_COUNT
  {
    if field == 0 then s.source else if field == 1 then s.key else if field == 2 then s.value else s.url
  }

  /** A signal whose fields are folded at most once, whichever rule asks first. */
  class CachedSignal {
    const signal: Signal
    var folded: seq<Option<string>>

    ghost predicate Valid()
      reads this
    {
      && |folded| == FIELD_COUNT
      && forall i | 0 <= i < FIELD_COUNT && folded[i].Some? :: folded[i].value == ToLower(RawField(signal, i))
    }

    constructor (signal: Signal)
      ensures Valid() && this.signal == signal
    {
      this.signal := signal;
      folded := [None, None, None, None];
    }

    method Field(field: nat, caseInsensitive: bool) returns (value: string)
      requires Valid() && field < FIELD_COUNT
      modifies this
      ensures Valid()
      ensures value == if caseInsensitive then ToLower(RawField(signal, field)) else RawField(signal, field)
    {
      value := RawField(signal, field);
      if !caseInsensitive {
        return;
      }
      if folded[field].None? {
        folded := folded[field := Some(ToLower(value))];
      }
      value := folded[field].value;
    }

    /** preparedEvidence.matches: stops at the first field that differs. */
    method MatchesEvidence(e: Evidence) returns (matched: bool)
      requires Valid()
      modifies this
      ensures Valid()
      ensures matched <==> Matches(e, signal)
    {
      if e.kind != signal.kind {
        return false;
      }
      var fields := [e.source, e.key, e.value, e.url];
      for i := 0 to FIELD_COUNT
        invariant Valid()
        invariant forall j | 0 <= j < i :: AcceptsField(fields[j], RawField(signal, j))
      {
        if fields[i].Some? {
          var value := Field(i, NeedsCaseFold(fields[i].value));
          if !PreparedMatches(Prepare(fields[i].value), value) {
            assert !AcceptsField(fields[i], RawField(signal, i));
            return false;
          }
        }
      }
      assert AcceptsField(fields[0], RawField(signal, 0)) && AcceptsField(fields[1], RawField(signal, 1));
      assert AcceptsField(fields[2], RawField(signal, 2)) && AcceptsField(fields[3], RawField(signal, 3));
      matched := true;
    }
  }

  ghost predicate AllValid(signals: seq<CachedSignal>)
    reads signals
  {
    forall i | 0 <= i < |signals| :: signals[i].Valid()
  }

  /** What the cached signals stand for. */
  ghost function Observed(signals: seq<CachedSignal>): set<Signal> {
    set i | 0 <= i < |signals| :: signals[i].signal
  }

  lemma ObservedAppend(signals: seq<CachedSignal>, i: nat)
    requires i < |signals|
    ensures Observed(signals[..i + 1]) == Observed(signals[..i]) + {signals[i].signal}
  {
    var more := signals[..i + 1];
    assert forall j | 0 <= j < i :: more[j] == signals[..i][j];
    assert more[i].signal in Observed(more);
  }

  lemma StrongestStep(e: Evidence, before: set<Signal>, x: Signal, best: Option<Signal>)
    requires best.None? ==> !AnyMatch(e, before)
    requires best.Some? ==> IsStrongest(e, before, best.value)
    ensures var next := if Matches(e, x) && (best.None? || StrongerSignal(x, best.value)) then Some(x) else best;
            && (next.None? ==> !AnyMatch(e, before + {x}))
            && (next.Some? ==> IsStrongest(e, before + {x}, next.value))
  {
    if Matches(e, x) && best.Some? {
      StrongerTotal(x, best.value);
      if StrongerSignal(x, best.value) {
        forall s | s in before && Matches(e, s) ensures s == x || StrongerSignal(x, s) {
          if s != best.value { StrongerTransitive(x, best.value, s); }
        }
      }
    }
  }

  method StrongestMatch(e: Evidence, signals: seq<CachedSignal>) returns (result: Option<EvidenceMatch>)
    requires AllValid(signals)
    modifies signals
    ensures AllValid(signals)
    ensures result == if AnyMatch(e, Observed(signals)) then Some(MatchOf(e, Strongest(e, Observed(signals)))) else None
  {
    var best: Option<Signal> := None;
    for i := 0 to |signals|
      invariant AllValid(signals)
      invariant best.None? ==> !AnyMatch(e, Observed(signals[..i]))
      invariant best.Some? ==> IsStrongest(e, Observed(signals[..i]), best.value)
    {
      ObservedAppend(signals, i);
      StrongestStep(e, Observed(signals[..i]), signals[i].signal, best);
      var matched := signals[i].MatchesEvidence(e);
      if matched && (best.None? || StrongerSignal(signals[i].signal, best.value)) {
        best := Some(signals[i].signal);
      }
    }
    assert signals[..|signals|] == signals;
    if best.None? {
      return None;
    }
    StrongestUnique(e, Observed(signals), best.value, Strongest(e, Observed(signals)));
    result := Some(MatchOf(e, best.value));
  }

  /** evaluateCondition: refines Evaluate whatever the caches already hold. */
  method EvaluateCondition(c: Condition, signals: seq<CachedSignal>) returns (outcome: Outcome)
    requires AllValid(signals)
    modifies signals
    ensures AllValid(signals)
    ensures outcome == Evaluate(c, Observed(signals))
    decreases c
  {
    if c.Leaf? {
      var m := StrongestMatch(c.evidence, signals);
      if m.None? {
        return Outcome(false, [], [c.evidence.id]);
      }
      return Outcome(true, [m.value], []);
    }
    var children := c.children;
    if c.All? {
      outcome := Outcome(true, [], []);
      for i := 0 to |children|
        invariant AllValid(signals)
        invariant outcome == EvaluateAll(children[..i], Observed(signals))
      {
        var child := EvaluateCondition(children[i], signals);
        assert children[..i + 1][..i] == children[..i];
        outcome := Outcome(outcome.matched && child.matched, outcome.evidence + child.evidence, outcome.missing + child.missing);
      }
      assert children[..|children|] == children;
      return;
    }
    var matched, partial := Outcome(false, [], []), Outcome(false, [], []);
    for i := 0 to |children|
      invariant AllValid(signals)
      invariant (matched, partial) == EvaluateAny(children[..i], Observed(signals))
    {
      var child := EvaluateCondition(children[i], signals);
      assert children[..i + 1][..i] == children[..i];
      if child.matched {
        matched := Outcome(true, matched.evidence + child.evidence, matched.missing);
        AnyMatchedMissing(children[..i], Observed(signals));
      } else {
        partial := Outcome(partial.matched, partial.evidence + child.evidence, partial.missing + child.missing);
        AnyMatchedMissing(children[..i], Observed(signals));
      }
    }
    assert children[..|children|] == children;
    outcome := if matched.matched then matched else partial;
  }

  lemma {:induction false} AnyMatchedMissing(cs: seq<Condition>, signals: set<Signal>)
    ensures EvaluateAny(cs, signals).0.missing == [] && !EvaluateAny(cs, signals).1.matched
  {
    if cs != [] { AnyMatchedMissing(cs[..|cs| - 1], signals); }
  }

  method MatchEvidenceList(es: seq<Evidence>, signals: seq<CachedSignal>) returns (matches: seq<EvidenceMatch>)
    requires AllValid(signals)
    modifies signals
    ensures AllValid(signals)
    ensures matches == MatchList(es, Observed(signals))
  {
    matches := [];
    for i := 0 to |es|
      invariant AllValid(signals)
      invariant matches == MatchList(es[..i], Observed(signals))
    {
      var m := StrongestMatch(es[i], signals);
      assert es[..i + 1][..i] == es[..i];
      if m.Some? {
        matches := matches + [m.value];
      }
    }
    assert es[..|es|] == es;
  }

  method CountEvidenceGroups(evidence: seq<EvidenceMatch>) returns (count: nat)
    ensures count == |GroupsOf(evidence)|
  {
    var groups: set<string> := {};
    for i := 0 to |evidence|
      invariant groups == GroupsOf(evidence[..i])
    {
      GroupsAppend(evidence, i);
      groups := groups + {evidence[i].group};
    }
    assert evidence[..|evidence|] == evidence;
    count := |groups|;
  }

  lemma GroupsAppend(evidence: seq<EvidenceMatch>, i: nat)
    requires i < |evidence|
    ensures GroupsOf(evidence[..i + 1]) == GroupsOf(evidence[..i]) + {evidence[i].group}
  {
    var more := evidence[..i + 1];
    assert forall j | 0 <= j < i :: more[j] == evidence[..i][j];
    assert more[i].group in GroupsOf(more);
  }

  ghost predicate AllSignalsValid(signals: seq<Signal>) {
    forall i | 0 <= i < |signals| :: ValidSignal(signals[i])
  }

  method ValidateSignals(signals: seq<Signal>) returns (ok: bool)
    ensures ok <==> AllSignalsValid(signals)
  {
    for i := 0 to |signals|
      invariant forall j | 0 <= j < i :: ValidSignal(signals[j])
    {
      if !ValidSignal(signals[i]) {
        return false;
      }
    }
    ok := true;
  }

  method MatchOne(r: Rule, cached: seq<CachedSignal>) returns (result: MatchResult)
    requires AllValid(cached)
    modifies cached
    ensures AllValid(cached)
    ensures result == MatchRule(r, Observed(cached))
  {
    var outcome := EvaluateCondition(r.condition, cached);
    var negative := MatchEvidenceList(r.negative, cached);
    var ambiguous := MatchEvidenceList(r.ambiguous, cached);
    var count := CountEvidenceGroups(outcome.evidence);
    result := MatchResult(
      r.id, outcome.matched, count >= r.minimumEvidence, outcome.evidence, negative, ambiguous, outcome.missing);
  }

  ghost predicate MatchesRules(results: seq<MatchResult>, rules: seq<Rule>, signals: set<Signal>) {
    && |results| == |rules|
    && forall i | 0 <= i < |results| :: results[i] == MatchRule(rules[i], signals)
  }

  /** Match: one result per rule in document order, over caches that all rules share. */
  method Match(ruleSet: RuleSet, signals: seq<Signal>) returns (ok: bool, results: seq<MatchResult>)
    ensures ok <==> ValidRuleSet(ruleSet) && AllSignalsValid(signals)
    ensures ok ==> MatchesRules(results, ruleSet.rules, Elements(signals))
  {
    results := [];
    ok := Validate(ruleSet);
    if !ok {
      return;
    }
    ok := ValidateSignals(signals);
    if !ok {
      return;
    }
    results := MatchValid(ruleSet.rules, signals);
  }

  method MatchValid(rules: seq<Rule>, signals: seq<Signal>) returns (results: seq<MatchResult>)
    ensures MatchesRules(results, rules, Elements(signals))
  {
    var cached := CacheSignals(signals);
    results := [];
    for i := 0 to |rules|
      invariant AllValid(cached) && fresh(cached)
      invariant MatchesRules(results, rules[..i], Elements(signals))
    {
      var result := MatchOne(rules[i], cached);
      results := results + [result];
    }
    assert rules[..|rules|] == rules;
  }

  method CacheSignals(signals: seq<Signal>) returns (cached: seq<CachedSignal>)
    ensures fresh(cached) && AllValid(cached) && Observed(cached) == Elements(signals)
  {
    cached := [];
    for i := 0 to |signals|
      invariant fresh(cached) && AllValid(cached) && |cached| == i
      invariant forall j | 0 <= j < i :: cached[j].signal == signals[j]
    {
      var c := new CachedSignal(signals[i]);
      cached := cached + [c];
    }
    forall s | s in Elements(signals) ensures s in Observed(cached) {
      var i :| 0 <= i < |signals| && signals[i] == s;
      assert cached[i].signal == s;
    }
  }
}
