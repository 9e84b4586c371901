/** From match results to detections: conflicts, memoised eligibility over dependencies, levels. */
module Detections {
  import opened DependencyGraph
  import opened Model
  import opened Ordering
  import opened Schema
  import opened SchemaValidation
  import opened Matching
  import opened Sums
  import opened Scoring

  // ----- Levels -----

  datatype Level = LevelNotDetected | LevelLow | LevelMedium | LevelHigh | LevelVeryHigh

  function LevelForScore(score: real): Level {
    var bounded := Clamp(score);
    if bounded >= 90.0 then LevelVeryHigh
    else if bounded >= 75.0 then LevelHigh
    else if bounded >= 50.0 then LevelMedium
    else if bounded >= 25.0 then LevelLow
    else LevelNotDetected
  }

  function Rank(level: Level): nat {
    match level
    case LevelNotDetected => 0
    case LevelLow => 1
    case LevelMedium => 2
    case LevelHigh => 3
    case LevelVeryHigh => 4
  }

  const LEVEL_THRESHOLDS: set<real> := {25.0, 50.0, 75.0, 90.0}

  /** The level counts how many of the four thresholds the score reaches. */
  lemma LevelCountsThresholds(score: real)
    ensures Rank(LevelForScore(score)) == |set threshold | threshold in LEVEL_THRESHOLDS && score >= threshold|
  {
    var reached := set threshold | threshold in LEVEL_THRESHOLDS && score >= threshold;
    assert reached == (if score >= 90.0 then {25.0, 50.0, 75.0, 90.0} else if score >= 75.0 then {25.0, 50.0, 75.0}
                       else if score >= 50.0 then {25.0, 50.0} else if score >= 25.0 then {25.0} else {});
  }

  // ----- What a detection reports -----

  datatype Detection = Detection(
    ruleId: string, conditionMatched: bool, minimumEvidenceMet: bool, detected: bool,
    evidenceScore: real, score: real, level: Level,
    positive: seq<ScoredEvidence>, groups: seq<GroupTally>,
    negative: seq<ScoredEvidence>, ambiguous: seq<ScoredEvidence>,
    missingEvidence: seq<string>, missingDependencies: seq<string>, appliedConflicts: seq<Conflict>)

  /** The conflicts that lower a candidate's score, in document order. */
  ghost function AppliedConflicts(conflicts: seq<Conflict>, table: MatchTable): seq<Conflict> {
    if conflicts == [] then []
    else
      var before := AppliedConflicts(conflicts[..|conflicts| - 1], table);
      var last := conflicts[|conflicts| - 1];
      if Applies(last, table) then before + [last] else before
  }

  ghost function ConflictsOf(r: Rule, table: MatchTable): seq<Conflict>
    requires r.id in table
  {
    if table[r.id].Candidate() then AppliedConflicts(r.conflicts, table) else []
  }

  /** The dependencies that are not detected themselves, in document order. */
  ghost function MissingDependencies(rules: seq<Rule>, table: MatchTable, dependencies: seq<string>): seq<string>
    requires UniqueRules(rules) && Covers(table, rules)
  {
    if dependencies == [] then []
    else
      var before := MissingDependencies(rules, table, dependencies[..|dependencies| - 1]);
      var last := dependencies[|dependencies| - 1];
      if Detected(rules, table, last) then before else before + [last]
  }

  ghost predicate ExplainedBy(d: Detection, m: MatchResult) {
    && Partitions(m.positive, d.groups) && Explains(m.positive, m.Candidate(), d.positive, d.groups)
    && ExplainsPenalties(m.negative, m.Candidate(), d.negative)
    && ExplainsPenalties(m.ambiguous, m.Candidate(), d.ambiguous)
  }

  ghost predicate Describes(d: Detection, rules: seq<Rule>, table: MatchTable, r: Rule)
    requires UniqueRules(rules) && Covers(table, rules) && r.id in table
  {
    var m := table[r.id];
    && d.ruleId == r.id
    && d.conditionMatched == m.conditionMatched
    && d.minimumEvidenceMet == m.minimumEvidenceMet
    && d.detected == Detected(rules, table, r.id)
    && d.evidenceScore == EvidenceScore(r, table)
    && d.missingDependencies == MissingDependencies(rules, table, r.dependencies)
    && d.score == (if d.missingDependencies == [] then d.evidenceScore else 0.0)
    && d.level == LevelForScore(d.score)
    && d.missingEvidence == m.missing
    && d.appliedConflicts == ConflictsOf(r, table)
    && ExplainedBy(d, m)
  }

  // ----- Memoised eligibility -----

  lemma RuleKnown(rules: seq<Rule>, i: nat)
    requires i < |rules| && UniqueRules(rules)
    ensures Known(rules, rules[i].id) && RuleById(rules, rules[i].id) == rules[i] && rules[i].id in RuleIds(rules)
  {
    assert rules[i] in rules;
    UniqueRule(rules, rules[i]);
  }

  lemma DetectedUnfold(rules: seq<Rule>, table: MatchTable, id: string)
    requires UniqueRules(rules) && Covers(table, rules) && id in RuleIds(rules)
    ensures Detected(rules, table, id) <==>
            && Standing(RuleById(rules, id), table)
            && forall dep | dep in RuleById(rules, id).dependencies :: Detected(rules, table, dep)
  {
    SupportedUnfold(Requirements(rules), StandingIds(rules, table), id);
  }

  ghost predicate Scores(scores: map<string, real>, rules: seq<Rule>, table: MatchTable)
    requires UniqueRules(rules) && Covers(table, rules)
  {
    && scores.Keys == RuleIds(rules)
    && forall id | id in scores :: scores[id] == EvidenceScore(RuleById(rules, id), table)
  }

  /**
   * The lookup tables of scoreMatches determine detected: a rule is in it when it meets its own thresholds and all
   * its dependencies are in it. rank falls along dependencies.
   */
  ghost predicate Backs(
    byId: map<string, Rule>, matches: MatchTable, scores: map<string, real>, detected: set<string>, rank: map<string, nat>)
  {
    && byId.Keys == scores.Keys == rank.Keys && byId.Keys <= matches.Keys
    && forall id | id in byId ::
         && Ranked(byId[id].dependencies, rank, rank[id])
         && (id in detected <==>
             matches[id].Candidate() && scores[id] >= byId[id].minimumScore && AllAmong(byId[id].dependencies, detected))
  }

  ghost predicate Ranked(ids: seq<string>, rank: map<string, nat>, bound: nat) {
    forall i | 0 <= i < |ids| :: ids[i] in rank && rank[ids[i]] < bound
  }

  ghost predicate AllAmong(ids: seq<string>, good: set<string>) {
    forall i | 0 <= i < |ids| :: ids[i] in good
  }

  ghost function DetectedIds(rules: seq<Rule>, table: MatchTable): set<string>
    requires UniqueRules(rules) && Covers(table, rules)
  {
    set id | id in RuleIds(rules) && Detected(rules, table, id)
  }

  lemma RuleRanked(g: Graph<string>, id: string)
    requires Closed(g) && Acyclic(g) && id in g
    ensures Ranked(g[id], Ranks(g), Ranks(g)[id])
  {
    forall i | 0 <= i < |g[id]| ensures g[id][i] in Ranks(g) && Ranks(g)[g[id][i]] < Ranks(g)[id] {
      assert IsEdge(g, id, g[id][i]);
      RankFalls(g, id, g[id][i]);
    }
  }

  lemma RuleDetected(rules: seq<Rule>, table: MatchTable, r: Rule)
    requires UniqueRules(rules) && Covers(table, rules) && r in rules && r.id in table
    requires Closed(Requirements(rules))
    ensures r.id in DetectedIds(rules, table) <==> Standing(r, table) && AllAmong(r.dependencies, DetectedIds(rules, table))
  {
    UniqueRule(rules, r);
    DetectedUnfold(rules, table, r.id);
    var g := Requirements(rules);
    assert g[r.id] == r.dependencies;
    forall i | 0 <= i < |g[r.id]| ensures g[r.id][i] in g { assert g[r.id][i] in g[r.id]; }
  }

  lemma RulesBack(rules: seq<Rule>, byId: map<string, Rule>, matches: MatchTable, scores: map<string, real>)
    requires UniqueRules(rules) && Indexes(byId, rules) && Covers(matches, rules) && Scores(scores, rules, matches)
    requires Closed(Requirements(rules)) && Acyclic(Requirements(rules))
    ensures Backs(byId, matches, scores, DetectedIds(rules, matches), Ranks(Requirements(rules)))
  {
    var detected, rank := DetectedIds(rules, matches), Ranks(Requirements(rules));
    forall id | id in byId
      ensures Ranked(byId[id].dependencies, rank, rank[id])
      ensures id in detected <==>
              matches[id].Candidate() && scores[id] >= byId[id].minimumScore && AllAmong(byId[id].dependencies, detected)
    {
      UniqueRule(rules, byId[id]);
      RuleRanked(Requirements(rules), id);
      RuleDetected(rules, matches, byId[id]);
    }
  }

  /** The closure over eligibleMemo that scoreMatches recurses through. */
  class Eligibility {
    const byId: map<string, Rule>
    const matches: MatchTable
    const scores: map<string, real>
    var memo: map<string, bool>
    ghost const detected: set<string>
    ghost const rank: map<string, nat>

    /** Whatever is remembered is right. */
    ghost predicate Valid()
      reads this
    {
      && Backs(byId, matches, scores, detected, rank)
      && forall id | id in memo :: id in byId && (memo[id] <==> id in detected)
    }

    constructor (byId: map<string, Rule>, matches: MatchTable, scores: map<string, real>,
                 ghost detected: set<string>, ghost rank: map<string, nat>)
      requires Backs(byId, matches, scores, detected, rank)
      ensures Valid() && this.byId == byId && this.detected == detected
    {
      this.byId, this.matches, this.scores, this.detected, this.rank := byId, matches, scores, detected, rank;
      memo := map[];
    }

    method Eligible(id: string) returns (result: bool)
      requires Valid() && id in byId
      modifies this
      ensures Valid()
      ensures result <==> id in detected
      decreases rank[id]
    {
      if id in memo {
        return memo[id];
      }
      var r := byId[id];
      if !matches[id].Candidate() || scores[id] < r.minimumScore {
        memo := memo[id := false];
        return false;
      }
      for i := 0 to |r.dependencies|
        invariant Valid() && AllAmong(r.dependencies[..i], detected)
      {
        var supported := Eligible(r.dependencies[i]);
        if !supported {
          memo := memo[id := false];
          return false;
        }
      }
      memo := memo[id := true];
      result := true;
    }
  }

  // ----- Indexing and scoring the match results -----

  ghost predicate UniqueResults(matches: seq<MatchResult>) {
    forall i, j | 0 <= i < j < |matches| :: matches[i].ruleId != matches[j].ruleId
  }

  ghost predicate IsTable(table: MatchTable, matches: seq<MatchResult>) {
    && (forall i | 0 <= i < |matches| :: matches[i].ruleId in table && table[matches[i].ruleId] == matches[i])
    && (forall id | id in table :: table[id] in matches && table[id].ruleId == id)
  }

  method IndexMatches(matches: seq<MatchResult>) returns (ok: bool, table: MatchTable)
    ensures ok <==> UniqueResults(matches)
    ensures ok ==> IsTable(table, matches)
  {
    table := map[];
    for i := 0 to |matches|
      invariant UniqueResults(matches[..i]) && IsTable(table, matches[..i])
    {
      IsTableStep(table, matches, i);
      if matches[i].ruleId in table {
        return false, table;
      }
      table := table[matches[i].ruleId := matches[i]];
    }
    assert matches[..|matches|] == matches;
    ok := true;
  }

  lemma RepeatedResult(table: MatchTable, matches: seq<MatchResult>, i: nat)
    requires i < |matches| && IsTable(table, matches[..i]) && matches[i].ruleId in table
    ensures !UniqueResults(matches)
  {
    var j :| 0 <= j < i && matches[..i][j] == table[matches[i].ruleId];
    assert matches[j].ruleId == matches[i].ruleId;
  }

  lemma NewResult(table: MatchTable, done: seq<MatchResult>, m: MatchResult)
    requires UniqueResults(done) && IsTable(table, done) && m.ruleId !in table
    ensures UniqueResults(done + [m]) && IsTable(table[m.ruleId := m], done + [m])
  {
    var more := done + [m];
    assert more[|done|] == m;
    forall id | id in table ensures table[id] in more && table[id].ruleId == id {
      var j :| 0 <= j < |done| && done[j] == table[id];
      assert more[j] == done[j];
    }
    forall j | 0 <= j < |done| ensures done[j].ruleId in table { }
  }

  lemma IsTableStep(table: MatchTable, matches: seq<MatchResult>, i: nat)
    requires i < |matches| && UniqueResults(matches[..i]) && IsTable(table, matches[..i])
    ensures matches[i].ruleId in table ==> !UniqueResults(matches)
    ensures matches[i].ruleId !in table ==>
            UniqueResults(matches[..i + 1]) && IsTable(table[matches[i].ruleId := matches[i]], matches[..i + 1])
  {
    if matches[i].ruleId in table {
      RepeatedResult(table, matches, i);
    } else {
      NewResult(table, matches[..i], matches[i]);
      assert matches[..i + 1] == matches[..i] + [matches[i]];
    }
  }

  /** What the first loop of scoreMatches keeps of one match result. */
  datatype Explanation = Explanation(
    positiveScore: real, baseScore: real, positive: seq<ScoredEvidence>, groups: seq<GroupTally>,
    negative: seq<ScoredEvidence>, ambiguous: seq<ScoredEvidence>)

  ghost predicate Accounts(x: Explanation, m: MatchResult) {
    && x.positiveScore == PositiveScore(m)
    && x.baseScore == (if m.Candidate()
                       then PositiveTotal(m.positive) - PenaltyTotal(m.negative) - PenaltyTotal(m.ambiguous) else 0.0)
    && Partitions(m.positive, x.groups) && Explains(m.positive, m.Candidate(), x.positive, x.groups)
    && ExplainsPenalties(m.negative, m.Candidate(), x.negative)
    && ExplainsPenalties(m.ambiguous, m.Candidate(), x.ambiguous)
  }

  method Explain(m: MatchResult) returns (x: Explanation)
    ensures Accounts(x, m)
  {
    var active := m.Candidate();
    var positiveScore, positive, groups := ScorePositive(m.positive, active);
    var negativeScore, negative := ScorePenalties(m.negative, active);
    var ambiguousScore, ambiguous := ScorePenalties(m.ambiguous, active);
    x := Explanation(positiveScore, positiveScore + negativeScore + ambiguousScore, positive, groups, negative, ambiguous);
  }

  ghost predicate AccountsAll(explanations: map<string, Explanation>, table: MatchTable) {
    forall id | id in explanations :: id in table && Accounts(explanations[id], table[id])
  }

  method ExplainAll(matches: seq<MatchResult>, table: MatchTable) returns (explanations: map<string, Explanation>)
    requires IsTable(table, matches)
    ensures explanations.Keys == table.Keys && AccountsAll(explanations, table)
  {
    explanations := map[];
    for i := 0 to |matches|
      invariant AccountsAll(explanations, table)
      invariant forall j | 0 <= j < i :: matches[j].ruleId in explanations
    {
      var x := Explain(matches[i]);
      explanations := explanations[matches[i].ruleId := x];
    }
    forall id | id in table ensures id in explanations {
      var j :| 0 <= j < |matches| && matches[j] == table[id];
    }
  }

  lemma {:induction false} AppliedTotal(conflicts: seq<Conflict>, table: MatchTable, i: nat)
    requires i < |conflicts|
    ensures Total(AppliedPenalties(conflicts[..i + 1], table))
         == Total(AppliedPenalties(conflicts[..i], table)) + if Applies(conflicts[i], table) then conflicts[i].penalty else 0.0
  {
    assert AppliedPenalties(conflicts[..i + 1], table)[..i] == AppliedPenalties(conflicts[..i], table);
  }

  /** The conflict loop for one candidate. */
  method ApplyConflicts(r: Rule, base: real, table: MatchTable, explanations: map<string, Explanation>)
    returns (score: real, applied: seq<Conflict>)
    requires explanations.Keys == table.Keys && AccountsAll(explanations, table)
    ensures score == base - Total(AppliedPenalties(r.conflicts, table))
    ensures applied == AppliedConflicts(r.conflicts, table)
  {
    score, applied := base, [];
    for i := 0 to |r.conflicts|
      invariant score == base - Total(AppliedPenalties(r.conflicts[..i], table))
      invariant applied == AppliedConflicts(r.conflicts[..i], table)
    {
      var conflict := r.conflicts[i];
      AppliedTotal(r.conflicts, table, i);
      assert r.conflicts[..i + 1][..i] == r.conflicts[..i];
      if conflict.ruleId in table && table[conflict.ruleId].Candidate() && explanations[conflict.ruleId].positiveScore > 0.0 {
        score := score - conflict.penalty;
        applied := applied + [conflict];
      }
    }
    assert r.conflicts[..|r.conflicts|] == r.conflicts;
  }

  method ScoreRule(r: Rule, table: MatchTable, explanations: map<string, Explanation>)
    returns (score: real, applied: seq<Conflict>)
    requires r.id in table && explanations.Keys == table.Keys && AccountsAll(explanations, table)
    ensures score == EvidenceScore(r, table)
    ensures applied == ConflictsOf(r, table)
  {
    if !table[r.id].Candidate() {
      return 0.0, [];
    }
    assert Accounts(explanations[r.id], table[r.id]);
    score, applied := ApplyConflicts(r, explanations[r.id].baseScore, table, explanations);
    score := Clamp(score);
  }

  ghost predicate ScoredRule(r: Rule, table: MatchTable, scores: map<string, real>, conflicts: map<string, seq<Conflict>>) {
    && r.id in table
    && r.id in scores && scores[r.id] == EvidenceScore(r, table)
    && r.id in conflicts && conflicts[r.id] == ConflictsOf(r, table)
  }

  ghost predicate ScoredRules(
      rules: seq<Rule>, count: nat, table: MatchTable, scores: map<string, real>, conflicts: map<string, seq<Conflict>>) {
    && scores.Keys <= RuleIds(rules)
    && forall j | 0 <= j < count && j < |rules| :: ScoredRule(rules[j], table, scores, conflicts)
  }

  lemma ScoredStep(rules: seq<Rule>, i: nat, table: MatchTable, scores: map<string, real>, conflicts: map<string, seq<Conflict>>)
    requires i < |rules| && UniqueRules(rules) && rules[i].id in table
    requires ScoredRules(rules, i, table, scores, conflicts)
    ensures ScoredRules(rules, i + 1, table, scores[rules[i].id := EvidenceScore(rules[i], table)],
                        conflicts[rules[i].id := ConflictsOf(rules[i], table)])
  {
    RuleKnown(rules, i);
    var s, c := scores[rules[i].id := EvidenceScore(rules[i], table)], conflicts[rules[i].id := ConflictsOf(rules[i], table)];
    forall j | 0 <= j < i + 1 ensures ScoredRule(rules[j], table, s, c) {
      assert j < i ==> ScoredRule(rules[j], table, scores, conflicts) && rules[j].id != rules[i].id;
    }
  }

  method ScoreRules(rules: seq<Rule>, table: MatchTable, explanations: map<string, Explanation>)
    returns (scores: map<string, real>, conflicts: map<string, seq<Conflict>>)
    requires UniqueRules(rules) && Covers(table, rules)
    requires explanations.Keys == table.Keys && AccountsAll(explanations, table)
    ensures ScoredRules(rules, |rules|, table, scores, conflicts)
  {
    scores, conflicts := map[], map[];
    for i := 0 to |rules|
      invariant ScoredRules(rules, i, table, scores, conflicts)
    {
      var r := rules[i];
      RuleKnown(rules, i);
      ScoredStep(rules, i, table, scores, conflicts);
      var score, applied := ScoreRule(r, table, explanations);
      scores, conflicts := scores[r.id := score], conflicts[r.id := applied];
    }
  }

  lemma ScoredAll(rules: seq<Rule>, table: MatchTable, scores: map<string, real>, conflicts: map<string, seq<Conflict>>)
    requires UniqueRules(rules) && Covers(table, rules) && ScoredRules(rules, |rules|, table, scores, conflicts)
    ensures Scores(scores, rules, table)
  {
    forall id | id in RuleIds(rules) ensures id in scores && scores[id] == EvidenceScore(RuleById(rules, id), table) {
      var i :| 0 <= i < |rules| && rules[i].id == id;
      RuleKnown(rules, i);
      assert ScoredRule(rules[i], table, scores, conflicts);
    }
  }

  // ----- Detections -----

  method MissingFor(dependencies: seq<string>, eligibility: Eligibility, ghost rules: seq<Rule>, ghost table: MatchTable)
    returns (missing: seq<string>)
    requires UniqueRules(rules) && Covers(table, rules)
    requires eligibility.Valid() && eligibility.detected == DetectedIds(rules, table) && eligibility.byId.Keys == RuleIds(rules)
    requires forall i | 0 <= i < |dependencies| :: dependencies[i] in eligibility.byId
    modifies eligibility
    ensures eligibility.Valid()
    ensures missing == MissingDependencies(rules, table, dependencies)
  {
    missing := [];
    for i := 0 to |dependencies|
      invariant eligibility.Valid()
      invariant missing == MissingDependencies(rules, table, dependencies[..i])
    {
      var supported := eligibility.Eligible(dependencies[i]);
      assert dependencies[..i + 1][..i] == dependencies[..i];
      if !supported {
        missing := missing + [dependencies[i]];
      }
    }
    assert dependencies[..|dependencies|] == dependencies;
  }

  method Detect(r: Rule, m: MatchResult, x: Explanation, evidenceScore: real, applied: seq<Conflict>,
                eligibility: Eligibility, ghost rules: seq<Rule>, ghost table: MatchTable)
    returns (d: Detection)
    requires UniqueRules(rules) && Covers(table, rules) && r in rules && r.id in table && table[r.id] == m && Accounts(x, m)
    requires evidenceScore == EvidenceScore(r, table) && applied == ConflictsOf(r, table)
    requires eligibility.Valid() && eligibility.detected == DetectedIds(rules, table) && eligibility.byId.Keys == RuleIds(rules)
    requires forall i | 0 <= i < |r.dependencies| :: r.dependencies[i] in eligibility.byId
    modifies eligibility
    ensures eligibility.Valid()
    ensures Describes(d, rules, table, r)
  {
    var missing := MissingFor(r.dependencies, eligibility, rules, table);
    var detected := eligibility.Eligible(r.id);
    var score := evidenceScore;
    if |missing| > 0 {
      score := 0.0;
    }
    d := Detection(r.id, m.conditionMatched, m.minimumEvidenceMet, detected, evidenceScore, score, LevelForScore(score),
                   x.positive, x.groups, x.negative, x.ambiguous, m.missing, missing, applied);
  }

  ghost predicate DescribesRules(detections: seq<Detection>, rules: seq<Rule>, table: MatchTable)
    requires UniqueRules(rules) && Covers(table, rules)
  {
    && |detections| <= |rules|
    && forall i | 0 <= i < |detections| :: rules[i].id in table && Describes(detections[i], rules, table, rules[i])
  }

  lemma DependenciesKnown(rules: seq<Rule>, i: nat)
    requires i < |rules| && ValidReferences(rules, rules[i])
    ensures forall j | 0 <= j < |rules[i].dependencies| :: rules[i].dependencies[j] in RuleIds(rules)
  {
    forall j | 0 <= j < |rules[i].dependencies| ensures rules[i].dependencies[j] in RuleIds(rules) {
      assert Known(rules, rules[i].dependencies[j]);
    }
  }

  method IndexById(rules: seq<Rule>) returns (byId: map<string, Rule>)
    requires UniqueRules(rules)
    ensures Indexes(byId, rules)
  {
    byId := map[];
    for i := 0 to |rules|
      invariant Indexes(byId, rules[..i])
    {
      UniquePrefix(rules, i);
      IndexNext(byId, rules, i);
      byId := byId[rules[i].id := rules[i]];
    }
    assert rules[..|rules|] == rules;
  }

  method DetectAt(rules: seq<Rule>, i: nat, table: MatchTable, explanations: map<string, Explanation>,
                  scores: map<string, real>, conflicts: map<string, seq<Conflict>>, eligibility: Eligibility)
    returns (d: Detection)
    requires UniqueRules(rules) && Covers(table, rules) && i < |rules| && ValidReferences(rules, rules[i])
    requires explanations.Keys == table.Keys && AccountsAll(explanations, table)
    requires ScoredRules(rules, |rules|, table, scores, conflicts)
    requires eligibility.Valid() && eligibility.detected == DetectedIds(rules, table) && eligibility.byId.Keys == RuleIds(rules)
    modifies eligibility
    ensures eligibility.Valid()
    ensures rules[i].id in table && Describes(d, rules, table, rules[i])
  {
    var r := rules[i];
    RuleKnown(rules, i);
    DependenciesKnown(rules, i);
    assert ScoredRule(r, table, scores, conflicts) && Accounts(explanations[r.id], table[r.id]);
    d := Detect(r, table[r.id], explanations[r.id], scores[r.id], conflicts[r.id], eligibility, rules, table);
  }

  lemma DescribesAppend(detections: seq<Detection>, d: Detection, rules: seq<Rule>, table: MatchTable)
    requires UniqueRules(rules) && Covers(table, rules) && DescribesRules(detections, rules, table)
    requires |detections| < |rules| && rules[|detections|].id in table && Describes(d, rules, table, rules[|detections|])
    ensures DescribesRules(detections + [d], rules, table)
  {
    var more := detections + [d];
    forall i | 0 <= i < |more| ensures rules[i].id in table && Describes(more[i], rules, table, rules[i]) {
      if i < |detections| { assert more[i] == detections[i]; }
    }
  }

  /** The last loop of scoreMatches. */
  method DetectRules(rules: seq<Rule>, table: MatchTable, explanations: map<string, Explanation>,
                     scores: map<string, real>, conflicts: map<string, seq<Conflict>>, eligibility: Eligibility)
    returns (detections: seq<Detection>)
    requires UniqueRules(rules) && Covers(table, rules)
    requires forall i | 0 <= i < |rules| :: ValidReferences(rules, rules[i])
    requires explanations.Keys == table.Keys && AccountsAll(explanations, table)
    requires ScoredRules(rules, |rules|, table, scores, conflicts)
    requires eligibility.Valid() && eligibility.detected == DetectedIds(rules, table) && eligibility.byId.Keys == RuleIds(rules)
    modifies eligibility
    ensures |detections| == |rules| && DescribesRules(detections, rules, table)
  {
    detections := [];
    for i := 0 to |rules|
      invariant eligibility.Valid()
      invariant |detections| == i && DescribesRules(detections, rules, table)
    {
      var d := DetectAt(rules, i, table, explanations, scores, conflicts, eligibility);
      DescribesAppend(detections, d, rules, table);
      detections := detections + [d];
    }
  }

  method DetectAll(rules: seq<Rule>, table: MatchTable, explanations: map<string, Explanation>)
    returns (detections: seq<Detection>)
    requires UniqueRules(rules) && Covers(table, rules)
    requires forall i | 0 <= i < |rules| :: ValidReferences(rules, rules[i])
    requires Acyclic(Requirements(rules))
    requires explanations.Keys == table.Keys && AccountsAll(explanations, table)
    ensures |detections| == |rules| && DescribesRules(detections, rules, table)
  {
    var scores, conflicts := ScoreRules(rules, table, explanations);
    var byId := IndexById(rules);
    ghost var rank := Ranks(Requirements(rules));
    assert Backs(byId, table, scores, DetectedIds(rules, table), rank) by {
      ScoredAll(rules, table, scores, conflicts);
      ReferencesClose(rules);
      RulesBack(rules, byId, table, scores);
    }
    var eligibility := new Eligibility(byId, table, scores, DetectedIds(rules, table), rank);
    detections := DetectRules(rules, table, explanations, scores, conflicts, eligibility);
  }

  ghost predicate HasResult(matches: seq<MatchResult>, id: string) {
    exists j :: 0 <= j < |matches| && matches[j].ruleId == id
  }

  lemma HasResultIffIndexed(matches: seq<MatchResult>, table: MatchTable, id: string)
    requires IsTable(table, matches)
    ensures HasResult(matches, id) <==> id in table
  {
    if id in table {
      var m := table[id];
      var j :| 0 <= j < |matches| && matches[j] == m;
      assert matches[j].ruleId == m.ruleId;
    }
  }

  method AllIndexed(rules: seq<Rule>, ghost matches: seq<MatchResult>, table: MatchTable) returns (ok: bool)
    requires IsTable(table, matches)
    ensures ok <==> forall i | 0 <= i < |rules| :: HasResult(matches, rules[i].id)
    ensures ok ==> Covers(table, rules)
  {
    for i := 0 to |rules|
      invariant forall k | 0 <= k < i :: HasResult(matches, rules[k].id) && rules[k].id in table
    {
      HasResultIffIndexed(matches, table, rules[i].id);
      if rules[i].id !in table {
        return false;
      }
    }
    ok := true;
  }

  /** scoreMatches on a validated rule set: fails exactly when the results are not one per rule. */
  method ScoreMatches(ruleSet: RuleSet, matches: seq<MatchResult>)
    returns (ok: bool, detections: seq<Detection>, ghost table: MatchTable)
    requires ValidRuleSet(ruleSet)
    ensures ok <==> |matches| == |ruleSet.rules| && UniqueResults(matches)
                    && forall i | 0 <= i < |ruleSet.rules| :: HasResult(matches, ruleSet.rules[i].id)
    ensures ok ==> IsTable(table, matches) && Covers(table, ruleSet.rules)
    ensures ok ==> |detections| == |ruleSet.rules| && DescribesRules(detections, ruleSet.rules, table)
  {
    detections, table := [], map[];
    if |matches| != |ruleSet.rules| {
      return false, [], map[];
    }
    var matchById;
    ok, matchById := IndexMatches(matches);
    if !ok {
      return;
    }
    table := matchById;
    var explanations := ExplainAll(matches, matchById);
    ok := AllIndexed(ruleSet.rules, matches, matchById);
    if !ok {
      return;
    }
    detections := DetectAll(ruleSet.rules, matchById, explanations);
  }

  // ----- Evaluate: from signals to detections -----

  /** The match results of a rule set on a set of signals. */
  ghost function TableFor(rules: seq<Rule>, signals: set<Signal>): (table: MatchTable)
    requires UniqueRules(rules)
    ensures Covers(table, rules)
  {
    map id | id in RuleIds(rules) :: MatchRule(RuleById(rules, id), signals)
  }

  lemma MatchesGiveTable(rules: seq<Rule>, matches: seq<MatchResult>, table: MatchTable, signals: set<Signal>)
    requires UniqueRules(rules) && MatchesRules(matches, rules, signals) && IsTable(table, matches)
    ensures table == TableFor(rules, signals)
  {
    forall id | id in table ensures id in TableFor(rules, signals) && table[id] == TableFor(rules, signals)[id] {
      var m := table[id];
      var j :| 0 <= j < |matches| && matches[j] == m;
      assert matches[j] == MatchRule(rules[j], signals) && m.ruleId == id;
      RuleKnown(rules, j);
    }
    forall id | id in RuleIds(rules) ensures id in table {
      var i :| 0 <= i < |rules| && rules[i].id == id;
      assert matches[i] == MatchRule(rules[i], signals);
    }
  }

  lemma MatchesUnique(rules: seq<Rule>, matches: seq<MatchResult>, signals: set<Signal>)
    requires UniqueRules(rules) && MatchesRules(matches, rules, signals)
    ensures UniqueResults(matches) && forall i | 0 <= i < |rules| :: HasResult(matches, rules[i].id)
  {
    forall i | 0 <= i < |rules| ensures matches[i].ruleId == rules[i].id {
      assert matches[i] == MatchRule(rules[i], signals);
    }
  }

  /**
   * Evaluate: rejects an invalid rule set or signal, and otherwise describes every rule by its matches on the set of
   * signals. Order and repetition of signals leave no trace.
   */
  method EvaluateSignals(ruleSet: RuleSet, signals: seq<Signal>) returns (ok: bool, detections: seq<Detection>)
    ensures ok <==> ValidRuleSet(ruleSet) && AllSignalsValid(signals)
    ensures ok ==> |detections| == |ruleSet.rules|
    ensures ok ==> DescribesRules(detections, ruleSet.rules, TableFor(ruleSet.rules, Elements(signals)))
  {
    detections := [];
    var matches;
    ok, matches := Match(ruleSet, signals);
    if !ok {
      return;
    }
    MatchesUnique(ruleSet.rules, matches, Elements(signals));
    ghost var table;
    ok, detections, table := ScoreMatches(ruleSet, matches);
    MatchesGiveTable(ruleSet.rules, matches, table, Elements(signals));
  }

  // ----- What a detection means -----

  lemma {:induction false} MissingIffUndetected(rules: seq<Rule>, table: MatchTable, dependencies: seq<string>)
    requires UniqueRules(rules) && Covers(table, rules)
    ensures MissingDependencies(rules, table, dependencies) == [] <==>
            forall i | 0 <= i < |dependencies| :: Detected(rules, table, dependencies[i])
  {
    if dependencies != [] {
      var init := dependencies[..|dependencies| - 1];
      MissingIffUndetected(rules, table, init);
      assert forall i | 0 <= i < |init| :: init[i] == dependencies[i];
    }
  }

  /**
   * For a validated rule, detected means that no dependency is missing and that the reported score reaches the
   * rule's minimum; such a score never carries the level of an undetected rule.
   */
  lemma DetectedMeans(d: Detection, rules: seq<Rule>, table: MatchTable, r: Rule)
    requires UniqueRules(rules) && Covers(table, rules) && r in rules && r.id in table && r.minimumScore >= 25.0
    requires Describes(d, rules, table, r)
    ensures d.detected <==>
            d.conditionMatched && d.minimumEvidenceMet && d.missingDependencies == [] && d.score >= r.minimumScore
    ensures d.detected ==> d.level != LevelNotDetected && d.score == d.evidenceScore
  {
    UniqueRule(rules, r);
    DetectedUnfold(rules, table, r.id);
    MissingIffUndetected(rules, table, r.dependencies);
  }
}
