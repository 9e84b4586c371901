/** Scores of matched rules: grouped positive evidence, penalties, conflicts and dependencies. */
module Scoring {
  import opened DependencyGraph
  import opened Schema
  import opened Matching
  import opened Sums

  // ----- What a score is -----

  function Contribution(m: EvidenceMatch): real {
    m.weight * m.signal.confidence
  }

  function Items(evidence: seq<EvidenceMatch>): (items: seq<Item<string>>)
    ensures |items| == |evidence|
  {
    seq(|evidence|, i requires 0 <= i < |evidence| => Item(evidence[i].group, Contribution(evidence[i])))
  }

  /** Correlated evidence counts once, at its maximum. */
  ghost function PositiveTotal(evidence: seq<EvidenceMatch>): real {
    Sum(GroupMaxima(Items(evidence)))
  }

  function Contributions(evidence: seq<EvidenceMatch>): (r: seq<real>)
    ensures |r| == |evidence|
  {
    seq(|evidence|, i requires 0 <= i < |evidence| => Contribution(evidence[i]))
  }

  /** Penalties all count. */
  ghost function PenaltyTotal(evidence: seq<EvidenceMatch>): real {
    Total(Contributions(evidence))
  }

  function Clamp(score: real): (r: real)
    ensures 0.0 <= r <= 100.0
  {
    if score < 0.0 then 0.0 else if score > 100.0 then 100.0 else score
  }

  /** Match results by rule ID. */
  type MatchTable = map<string, MatchResult>

  ghost function PositiveScore(m: MatchResult): real {
    if m.Candidate() then PositiveTotal(m.positive) else 0.0
  }

  /** Another candidate with a positive score. */
  ghost predicate Applies(c: Conflict, table: MatchTable) {
    c.ruleId in table && table[c.ruleId].Candidate() && PositiveScore(table[c.ruleId]) > 0.0
  }

  ghost function AppliedPenalties(conflicts: seq<Conflict>, table: MatchTable): (r: seq<real>)
    ensures |r| == |conflicts|
  {
    seq(|conflicts|, i requires 0 <= i < |conflicts| => if Applies(conflicts[i], table) then conflicts[i].penalty else 0.0)
  }

  ghost function EvidenceScore(r: Rule, table: MatchTable): real
    requires r.id in table
  {
    var m := table[r.id];
    if m.Candidate() then
      Clamp(PositiveTotal(m.positive) - PenaltyTotal(m.negative) - PenaltyTotal(m.ambiguous)
            - Total(AppliedPenalties(r.conflicts, table)))
    else 0.0
  }

  /** The rule meets its own thresholds. */
  ghost predicate Standing(r: Rule, table: MatchTable)
    requires r.id in table
  {
    table[r.id].Candidate() && EvidenceScore(r, table) >= r.minimumScore
  }

  ghost predicate Covers(table: MatchTable, rules: seq<Rule>) {
    RuleIds(rules) <= table.Keys
  }

  ghost function StandingIds(rules: seq<Rule>, table: MatchTable): set<string>
    requires UniqueRules(rules) && Covers(table, rules)
  {
    set id | id in RuleIds(rules) && Standing(RuleById(rules, id), table)
  }

  /** A rule is detected when it and every rule in the closure of its requirements meets its own thresholds. */
  ghost predicate Detected(rules: seq<Rule>, table: MatchTable, id: string)
    requires UniqueRules(rules) && Covers(table, rules)
  {
    Supported(Requirements(rules), StandingIds(rules, table), id)
  }

  // ----- Positive evidence -----

  datatype ScoredEvidence = ScoredEvidence(evidence: EvidenceMatch, rawContribution: real, contribution: real)

  /** One correlation group. selected is the position of its first maximal member, maximum that member's contribution. */
  datatype GroupTally = GroupTally(
    id: string, evidenceIds: seq<string>, selected: nat, rawContribution: real, maximum: real, contribution: real)

  function IdsIn(evidence: seq<EvidenceMatch>, group: string): seq<string> {
    if evidence == [] then []
    else
      var before := IdsIn(evidence[..|evidence| - 1], group);
      var last := evidence[|evidence| - 1];
      if last.group == group then before + [last.evidenceId] else before
  }

  function RawIn(evidence: seq<EvidenceMatch>, group: string): real {
    if evidence == [] then 0.0
    else
      var before := RawIn(evidence[..|evidence| - 1], group);
      var last := evidence[|evidence| - 1];
      if last.group == group then before + Contribution(last) else before
  }

  /** The group is told apart, listed, summed and represented by its first maximal member. */
  ghost predicate Tallies(evidence: seq<EvidenceMatch>, t: GroupTally) {
    && t.selected < |evidence|
    && evidence[t.selected].group == t.id
    && t.maximum == Contribution(evidence[t.selected])
    && (forall i | 0 <= i < |evidence| && evidence[i].group == t.id ::
          Contribution(evidence[i]) <= t.maximum && (i < t.selected ==> Contribution(evidence[i]) < t.maximum))
    && t.evidenceIds == IdsIn(evidence, t.id)
    && t.rawContribution == RawIn(evidence, t.id)
  }

  ghost predicate DistinctGroups(groups: seq<GroupTally>) {
    forall j, k | 0 <= j < k < |groups| :: groups[j].id != groups[k].id
  }

  ghost function GroupIds(groups: seq<GroupTally>): set<string> {
    set k | 0 <= k < |groups| :: groups[k].id
  }

  /** groups partitions evidence. */
  ghost predicate Partitions(evidence: seq<EvidenceMatch>, groups: seq<GroupTally>) {
    && DistinctGroups(groups)
    && GroupIds(groups) == GroupsOf(evidence)
    && forall k | 0 <= k < |groups| :: Tallies(evidence, groups[k])
  }

  function Maxima(groups: seq<GroupTally>): (r: seq<real>)
    ensures |r| == |groups|
  {
    seq(|groups|, k requires 0 <= k < |groups| => groups[k].maximum)
  }

  ghost predicate IndexesGroups(indexes: map<string, nat>, groups: seq<GroupTally>) {
    && indexes.Keys == GroupIds(groups)
    && forall id | id in indexes :: indexes[id] < |groups| && groups[indexes[id]].id == id
  }

  function NewTally(evidence: seq<EvidenceMatch>, i: nat): GroupTally
    requires i < |evidence|
  {
    var raw := Contribution(evidence[i]);
    GroupTally(evidence[i].group, [evidence[i].evidenceId], i, raw, raw, 0.0)
  }

  function AddTally(t: GroupTally, evidence: seq<EvidenceMatch>, i: nat): GroupTally
    requires i < |evidence|
  {
    var raw := Contribution(evidence[i]);
    var grown := t.(evidenceIds := t.evidenceIds + [evidence[i].evidenceId], rawContribution := t.rawContribution + raw);
    if raw > t.maximum then grown.(selected := i, maximum := raw) else grown
  }

  lemma {:induction false} AbsentGroup(evidence: seq<EvidenceMatch>, group: string)
    requires group !in GroupsOf(evidence)
    ensures IdsIn(evidence, group) == [] && RawIn(evidence, group) == 0.0
  {
    if evidence != [] {
      var init := evidence[..|evidence| - 1];
      assert forall i | 0 <= i < |init| :: init[i].group == evidence[i].group;
      assert evidence[|evidence| - 1].group in GroupsOf(evidence);
      AbsentGroup(init, group);
    }
  }

  /** What one more match does to the tally of a group. */
  lemma TalliesStep(evidence: seq<EvidenceMatch>, i: nat, t: GroupTally)
    requires i < |evidence| && Tallies(evidence[..i], t)
    ensures Tallies(evidence[..i + 1], if evidence[i].group == t.id then AddTally(t, evidence, i) else t)
  {
    var done, more := evidence[..i], evidence[..i + 1];
    assert more[..i] == done;
    assert forall j | 0 <= j < i :: more[j] == done[j];
  }

  lemma TalliesFirst(evidence: seq<EvidenceMatch>, i: nat)
    requires i < |evidence| && evidence[i].group !in GroupsOf(evidence[..i])
    ensures Tallies(evidence[..i + 1], NewTally(evidence, i))
  {
    var done, more := evidence[..i], evidence[..i + 1];
    assert more[..i] == done;
    AbsentGroup(done, evidence[i].group);
    forall j | 0 <= j < i ensures more[j].group != evidence[i].group { assert done[j].group in GroupsOf(done); }
  }

  lemma PartitionStepNew(evidence: seq<EvidenceMatch>, i: nat, groups: seq<GroupTally>)
    requires i < |evidence| && Partitions(evidence[..i], groups) && evidence[i].group !in GroupIds(groups)
    ensures Partitions(evidence[..i + 1], groups + [NewTally(evidence, i)])
    ensures GroupIds(groups + [NewTally(evidence, i)]) == GroupIds(groups) + {evidence[i].group}
  {
    var more := groups + [NewTally(evidence, i)];
    GroupIdsAppend(groups, NewTally(evidence, i));
    GroupsAppend(evidence, i);
    TalliesFirst(evidence, i);
    forall k | 0 <= k < |more| ensures Tallies(evidence[..i + 1], more[k]) {
      if k < |groups| {
        assert groups[k].id in GroupIds(groups);
        TalliesStep(evidence, i, groups[k]);
      }
    }
    forall j, k | 0 <= j < k < |more| ensures more[j].id != more[k].id {
      if k == |groups| { assert groups[j].id in GroupIds(groups); }
    }
  }

  lemma GroupIdsAppend(groups: seq<GroupTally>, t: GroupTally)
    ensures GroupIds(groups + [t]) == GroupIds(groups) + {t.id}
  {
    var more := groups + [t];
    assert more[|groups|] == t && forall k | 0 <= k < |groups| :: more[k] == groups[k];
    assert more[|groups|].id in GroupIds(more);
    forall id | id in GroupIds(groups) ensures id in GroupIds(more) {
      var k :| 0 <= k < |groups| && groups[k].id == id;
      assert more[k].id == id;
    }
  }

  lemma PartitionStepOld(evidence: seq<EvidenceMatch>, i: nat, groups: seq<GroupTally>, at: nat)
    requires i < |evidence| && Partitions(evidence[..i], groups)
    requires at < |groups| && groups[at].id == evidence[i].group
    ensures Partitions(evidence[..i + 1], groups[at := AddTally(groups[at], evidence, i)])
    ensures GroupIds(groups[at := AddTally(groups[at], evidence, i)]) == GroupIds(groups)
  {
    var more := groups[at := AddTally(groups[at], evidence, i)];
    GroupsAppend(evidence, i);
    assert forall k | 0 <= k < |groups| :: more[k].id == groups[k].id;
    forall id ensures id in GroupIds(more) <==> id in GroupIds(groups) {
      if id in GroupIds(groups) {
        var k :| 0 <= k < |groups| && groups[k].id == id;
        assert more[k].id == id;
      }
    }
    assert groups[at].id in GroupIds(groups);
    forall k | 0 <= k < |more| ensures Tallies(evidence[..i + 1], more[k]) {
      TalliesStep(evidence, i, groups[k]);
      assert k != at ==> groups[k].id != groups[at].id;
    }
  }

  /** The maxima of a partition sum to the positive total. */
  lemma PartitionTotal(evidence: seq<EvidenceMatch>, groups: seq<GroupTally>)
    requires Partitions(evidence, groups)
    ensures Total(Maxima(groups)) == PositiveTotal(evidence)
  {
    GroupMaximaMeaning(Items(evidence));
    var table := GroupMaxima(Items(evidence));
    forall k | 0 <= k < |groups| ensures groups[k].id in table && table[groups[k].id] == groups[k].maximum {
      var t := groups[k];
      assert Tallies(evidence, t);
      assert Items(evidence)[t.selected].key == t.id;
      var i := Selected(Items(evidence), t.id);
    }
    forall id | id in table ensures id in GroupIds(groups) {
      var i := Selected(Items(evidence), id);
      assert evidence[i].group == id;
    }
    forall id | id in GroupIds(groups) ensures id in table {
      var k :| 0 <= k < |groups| && groups[k].id == id;
    }
    MaximaSum(groups, table);
  }

  lemma RestOfTable(init: seq<GroupTally>, last: GroupTally, table: map<string, real>, rest: map<string, real>)
    requires rest == table - {last.id} && last.id !in GroupIds(init) && table.Keys == GroupIds(init) + {last.id}
    requires forall k | 0 <= k < |init| :: init[k].id in table && table[init[k].id] == init[k].maximum && init[k].id != last.id
    ensures rest.Keys == GroupIds(init)
    ensures forall k | 0 <= k < |init| :: init[k].id in rest && rest[init[k].id] == init[k].maximum
  {
  }

  lemma {:induction false} MaximaSum(groups: seq<GroupTally>, table: map<string, real>)
    requires DistinctGroups(groups) && table.Keys == GroupIds(groups)
    requires forall k | 0 <= k < |groups| :: groups[k].id in table && table[groups[k].id] == groups[k].maximum
    ensures Total(Maxima(groups)) == Sum(table)
  {
    if groups == [] {
      assert table == map[];
    } else {
      var init, last := groups[..|groups| - 1], groups[|groups| - 1];
      var rest := table - {last.id};
      LastGroup(init, last, groups);
      SumRemove(table, last.id);
      RestOfTable(init, last, table, rest);
      MaximaSum(init, rest);
      assert Maxima(groups)[..|groups| - 1] == Maxima(init);
    }
  }

  lemma LastGroup(init: seq<GroupTally>, last: GroupTally, groups: seq<GroupTally>)
    requires groups == init + [last] && DistinctGroups(groups)
    ensures DistinctGroups(init) && last.id !in GroupIds(init) && GroupIds(groups) == GroupIds(init) + {last.id}
    ensures forall k | 0 <= k < |init| :: groups[k] == init[k] && init[k].id != last.id
  {
    GroupIdsAppend(init, last);
    assert forall k | 0 <= k < |init| :: groups[k] == init[k] && groups[k].id != groups[|init|].id;
  }

  function EffectiveContributions(scored: seq<ScoredEvidence>): (r: seq<real>)
    ensures |r| == |scored|
  {
    seq(|scored|, i requires 0 <= i < |scored| => scored[i].contribution)
  }

  function GroupContributions(groups: seq<GroupTally>): (r: seq<real>)
    ensures |r| == |groups|
  {
    seq(|groups|, i requires 0 <= i < |groups| => groups[i].contribution)
  }

  ghost predicate IsSelected(groups: seq<GroupTally>, count: nat, i: nat) {
    exists k :: 0 <= k < count && k < |groups| && groups[k].selected == i
  }

  /** Raw contributions are reported for every match; only the selected member of a group contributes, and only to a candidate. */
  ghost predicate Explains(evidence: seq<EvidenceMatch>, active: bool, scored: seq<ScoredEvidence>, groups: seq<GroupTally>) {
    && |scored| == |evidence|
    && (forall i | 0 <= i < |evidence| ::
          && scored[i].evidence == evidence[i]
          && scored[i].rawContribution == Contribution(evidence[i])
          && scored[i].contribution == (if active && IsSelected(groups, |groups|, i) then Contribution(evidence[i]) else 0.0))
    && (forall k | 0 <= k < |groups| :: groups[k].contribution == if active then groups[k].maximum else 0.0)
  }

  lemma {:induction false} TotalUpdate(values: seq<real>, i: nat, v: real)
    requires i < |values|
    ensures Total(values[i := v]) == Total(values) - values[i] + v
  {
    var last := |values| - 1;
    if i == last {
      assert values[i := v][..last] == values[..last];
    } else {
      TotalUpdate(values[..last], i, v);
      assert values[i := v][..last] == values[..last][i := v];
    }
  }

  lemma {:induction false} TotalZero(values: seq<real>)
    requires forall i | 0 <= i < |values| :: values[i] == 0.0
    ensures Total(values) == 0.0
  {
    if values != [] { TotalZero(values[..|values| - 1]); }
  }

  /** The loop state of the first loop of scorePositive. */
  ghost predicate Grouped(evidence: seq<EvidenceMatch>, groups: seq<GroupTally>, indexes: map<string, nat>) {
    && Partitions(evidence, groups)
    && IndexesGroups(indexes, groups)
    && forall k | 0 <= k < |groups| :: groups[k].contribution == 0.0
  }

  lemma GroupedNew(evidence: seq<EvidenceMatch>, i: nat, groups: seq<GroupTally>, indexes: map<string, nat>)
    requires i < |evidence| && Grouped(evidence[..i], groups, indexes) && evidence[i].group !in indexes
    ensures Grouped(evidence[..i + 1], groups + [NewTally(evidence, i)], indexes[evidence[i].group := |groups|])
  {
    PartitionStepNew(evidence, i, groups);
  }

  lemma KeepsIndexes(groups: seq<GroupTally>, indexes: map<string, nat>, at: nat, t: GroupTally)
    requires at < |groups| && t.id == groups[at].id && t.contribution == groups[at].contribution
    requires IndexesGroups(indexes, groups) && GroupIds(groups[at := t]) == GroupIds(groups)
    ensures IndexesGroups(indexes, groups[at := t])
    ensures forall k | 0 <= k < |groups| :: groups[at := t][k].contribution == groups[k].contribution
  {
  }

  lemma GroupedOld(evidence: seq<EvidenceMatch>, i: nat, groups: seq<GroupTally>, indexes: map<string, nat>)
    requires i < |evidence| && Grouped(evidence[..i], groups, indexes) && evidence[i].group in indexes
    ensures var at := indexes[evidence[i].group];
            Grouped(evidence[..i + 1], groups[at := AddTally(groups[at], evidence, i)], indexes)
  {
    var at := indexes[evidence[i].group];
    PartitionStepOld(evidence, i, groups, at);
    KeepsIndexes(groups, indexes, at, AddTally(groups[at], evidence, i));
  }

  /** First loop of scorePositive. */
  method TallyGroups(evidence: seq<EvidenceMatch>) returns (groups: seq<GroupTally>)
    ensures Partitions(evidence, groups)
    ensures forall k | 0 <= k < |groups| :: groups[k].contribution == 0.0
  {
    groups := [];
    var indexes: map<string, nat> := map[];
    for i := 0 to |evidence|
      invariant Grouped(evidence[..i], groups, indexes)
    {
      var group := evidence[i].group;
      if group !in indexes {
        GroupedNew(evidence, i, groups, indexes);
        indexes := indexes[group := |groups|];
        groups := groups + [NewTally(evidence, i)];
      } else {
        GroupedOld(evidence, i, groups, indexes);
        var at := indexes[group];
        groups := groups[at := AddTally(groups[at], evidence, i)];
      }
    }
    assert evidence[..|evidence|] == evidence;
  }

  /** State of the second loop after the first done groups were credited. */
  ghost predicate Credited(evidence: seq<EvidenceMatch>, groups: seq<GroupTally>, scored: seq<ScoredEvidence>, done: nat, total: real) {
    && |scored| == |evidence| && done <= |groups|
    && (forall i | 0 <= i < |evidence| ::
          && scored[i].evidence == evidence[i]
          && scored[i].rawContribution == Contribution(evidence[i])
          && scored[i].contribution == (if IsSelected(groups, done, i) then Contribution(evidence[i]) else 0.0))
    && total == Total(Maxima(groups)[..done])
    && total == Total(EffectiveContributions(scored))
  }

  lemma CreditStep(evidence: seq<EvidenceMatch>, groups: seq<GroupTally>, scored: seq<ScoredEvidence>, done: nat, total: real)
    requires Partitions(evidence, groups) && Credited(evidence, groups, scored, done, total) && done < |groups|
    ensures var at := groups[done].selected;
            at < |scored|
            && Credited(evidence, groups, scored[at := scored[at].(contribution := groups[done].maximum)], done + 1, total + groups[done].maximum)
  {
    var t := groups[done];
    var at := t.selected;
    assert Tallies(evidence, t);
    forall k | 0 <= k < done ensures groups[k].selected != at {
      assert Tallies(evidence, groups[k]);
      assert groups[k].id != t.id;
    }
    assert scored[at].contribution == 0.0;
    var next := scored[at := scored[at].(contribution := t.maximum)];
    assert EffectiveContributions(next) == EffectiveContributions(scored)[at := t.maximum];
    TotalUpdate(EffectiveContributions(scored), at, t.maximum);
    assert Maxima(groups)[..done + 1][..done] == Maxima(groups)[..done];
    forall i | 0 <= i < |evidence|
      ensures next[i].contribution == if IsSelected(groups, done + 1, i) then Contribution(evidence[i]) else 0.0
    {
      assert IsSelected(groups, done + 1, i) <==> IsSelected(groups, done, i) || i == at;
    }
  }

  lemma CreditStart(evidence: seq<EvidenceMatch>, groups: seq<GroupTally>, scored: seq<ScoredEvidence>)
    requires |scored| == |evidence|
    requires forall i | 0 <= i < |evidence| :: scored[i] == ScoredEvidence(evidence[i], Contribution(evidence[i]), 0.0)
    ensures Credited(evidence, groups, scored, 0, 0.0)
  {
    TotalZero(EffectiveContributions(scored));
  }

  /**
   * scorePositive: every score can be read off its explanation. The groups partition the evidence, and for a
   * candidate the positive total is the sum over groups and also the sum over matches.
   */
  method ScorePositive(evidence: seq<EvidenceMatch>, active: bool)
    returns (total: real, scored: seq<ScoredEvidence>, groups: seq<GroupTally>)
    ensures total == if active then PositiveTotal(evidence) else 0.0
    ensures Partitions(evidence, groups) && Explains(evidence, active, scored, groups)
    ensures total == Total(EffectiveContributions(scored)) == Total(GroupContributions(groups))
  {
    ghost var tallied;
    groups := TallyGroups(evidence);
    tallied := groups;
    scored := seq(|evidence|, i requires 0 <= i < |evidence| => ScoredEvidence(evidence[i], Contribution(evidence[i]), 0.0));
    CreditStart(evidence, groups, scored);
    total := 0.0;
    if active {
      for i := 0 to |groups|
        invariant Credited(evidence, tallied, scored, i, total)
        invariant groups == CreditedGroups(tallied, i)
      {
        CreditStep(evidence, tallied, scored, i, total);
        var at := groups[i].selected;
        scored := scored[at := scored[at].(contribution := groups[i].maximum)];
        total := total + groups[i].maximum;
        groups := groups[i := groups[i].(contribution := groups[i].maximum)];
      }
      CreditEnd(evidence, tallied, scored, total);
    } else {
      TotalZero(GroupContributions(groups));
    }
  }

  function CreditedGroups(groups: seq<GroupTally>, done: nat): (r: seq<GroupTally>)
    ensures |r| == |groups|
  {
    seq(|groups|, k requires 0 <= k < |groups| => if k < done then groups[k].(contribution := groups[k].maximum) else groups[k])
  }

  lemma SameGroupIds(groups: seq<GroupTally>, tallied: seq<GroupTally>)
    requires |groups| == |tallied| && forall k | 0 <= k < |groups| :: groups[k].id == tallied[k].id
    ensures GroupIds(groups) == GroupIds(tallied)
  {
    forall id | id in GroupIds(tallied) ensures id in GroupIds(groups) {
      var k :| 0 <= k < |tallied| && tallied[k].id == id;
      assert groups[k].id == id;
    }
    forall id | id in GroupIds(groups) ensures id in GroupIds(tallied) {
      var k :| 0 <= k < |groups| && groups[k].id == id;
      assert tallied[k].id == id;
    }
  }

  lemma CreditedPartitions(evidence: seq<EvidenceMatch>, tallied: seq<GroupTally>)
    requires Partitions(evidence, tallied)
    ensures Partitions(evidence, CreditedGroups(tallied, |tallied|))
  {
    var groups := CreditedGroups(tallied, |tallied|);
    SameGroupIds(groups, tallied);
    forall k | 0 <= k < |groups| ensures Tallies(evidence, groups[k]) { assert Tallies(evidence, tallied[k]); }
  }

  lemma CreditedSelects(tallied: seq<GroupTally>, i: nat)
    ensures IsSelected(CreditedGroups(tallied, |tallied|), |tallied|, i) <==> IsSelected(tallied, |tallied|, i)
  {
    var groups := CreditedGroups(tallied, |tallied|);
    if IsSelected(tallied, |tallied|, i) {
      var k :| 0 <= k < |tallied| && tallied[k].selected == i;
      assert groups[k].selected == i;
    }
  }

  lemma CreditedExplains(evidence: seq<EvidenceMatch>, tallied: seq<GroupTally>, scored: seq<ScoredEvidence>, total: real)
    requires Credited(evidence, tallied, scored, |tallied|, total)
    ensures Explains(evidence, true, scored, CreditedGroups(tallied, |tallied|))
  {
    forall i | 0 <= i < |evidence|
      ensures IsSelected(CreditedGroups(tallied, |tallied|), |tallied|, i) <==> IsSelected(tallied, |tallied|, i)
    {
      CreditedSelects(tallied, i);
    }
  }

  lemma CreditEnd(evidence: seq<EvidenceMatch>, tallied: seq<GroupTally>, scored: seq<ScoredEvidence>, total: real)
    requires Partitions(evidence, tallied) && Credited(evidence, tallied, scored, |tallied|, total)
    ensures var groups := CreditedGroups(tallied, |tallied|);
            && Partitions(evidence, groups) && Explains(evidence, true, scored, groups)
            && total == PositiveTotal(evidence) == Total(EffectiveContributions(scored)) == Total(GroupContributions(groups))
  {
    CreditedPartitions(evidence, tallied);
    CreditedExplains(evidence, tallied, scored, total);
    assert Maxima(tallied)[..|tallied|] == Maxima(tallied);
    PartitionTotal(evidence, tallied);
    assert GroupContributions(CreditedGroups(tallied, |tallied|)) == Maxima(tallied);
  }

  // ----- Penalties -----

  ghost predicate ExplainsPenalties(evidence: seq<EvidenceMatch>, active: bool, scored: seq<ScoredEvidence>) {
    && |scored| == |evidence|
    && forall i | 0 <= i < |evidence| ::
         scored[i] == ScoredEvidence(evidence[i], -Contribution(evidence[i]), if active then -Contribution(evidence[i]) else 0.0)
  }

  method ScorePenalties(evidence: seq<EvidenceMatch>, active: bool) returns (total: real, scored: seq<ScoredEvidence>)
    ensures total == if active then -PenaltyTotal(evidence) else 0.0
    ensures ExplainsPenalties(evidence, active, scored)
  {
    total, scored := 0.0, [];
    for i := 0 to |evidence|
      invariant ExplainsPenalties(evidence[..i], active, scored)
      invariant total == if active then -Total(Contributions(evidence)[..i]) else 0.0
    {
      var raw := -Contribution(evidence[i]);
      var contribution := 0.0;
      assert Contributions(evidence)[..i + 1][..i] == Contributions(evidence)[..i];
      if active {
        contribution := raw;
        total := total + contribution;
      }
      scored := scored + [ScoredEvidence(evidence[i], raw, contribution)];
    }
    assert evidence[..|evidence|] == evidence;
    assert Contributions(evidence)[..|evidence|] == Contributions(evidence);
  }
}
