/** A detection explains itself: its score is what its parts add up to, and its lists name exactly what they should. */
module Explanations {
  import opened Schema
  import opened Matching
  import opened Sums
  import opened Scoring
  import opened Detections
  import opened Scanner
  import opened Conclusive

  // ----- The score -----

  lemma {:induction false} TotalNegated(a: seq<real>, b: seq<real>)
    requires |a| == |b| && forall i | 0 <= i < |a| :: a[i] == -b[i]
    ensures Total(a) == -Total(b)
  {
    if a != [] { TotalNegated(a[..|a| - 1], b[..|b| - 1]); }
  }

  lemma PenaltiesAddUp(evidence: seq<EvidenceMatch>, scored: seq<ScoredEvidence>)
    requires ExplainsPenalties(evidence, true, scored)
    ensures Total(EffectiveContributions(scored)) == -PenaltyTotal(evidence)
  {
    TotalNegated(EffectiveContributions(scored), Contributions(evidence));
  }

  lemma GroupsAddUp(evidence: seq<EvidenceMatch>, scored: seq<ScoredEvidence>, groups: seq<GroupTally>)
    requires Partitions(evidence, groups) && Explains(evidence, true, scored, groups)
    ensures Total(GroupContributions(groups)) == PositiveTotal(evidence)
  {
    assert GroupContributions(groups) == Maxima(groups);
    PartitionTotal(evidence, groups);
  }

  /** What the parts of a detection add up to. */
  ghost function Balance(d: Detection): real {
    Total(GroupContributions(d.groups)) + Total(EffectiveContributions(d.negative))
    + Total(EffectiveContributions(d.ambiguous)) - Total(PenaltiesOf(d.appliedConflicts))
  }

  /**
   * The evidence score of a candidate is the sum of what its groups contribute, less the contributions of its negative and
   * ambiguous evidence and the penalties of the conflicts it lists, kept within 0 and 100. Other rules score nothing, and a
   * missing dependency takes the score away.
   */
  lemma ScoreAddsUp(d: Detection, rules: seq<Rule>, table: MatchTable, r: Rule)
    requires UniqueRules(rules) && Covers(table, rules) && r.id in table && Describes(d, rules, table, r)
    ensures d.conditionMatched && d.minimumEvidenceMet ==>
              && (Balance(d) < 0.0 ==> d.evidenceScore == 0.0)
              && (0.0 <= Balance(d) <= 100.0 ==> d.evidenceScore == Balance(d))
              && (Balance(d) > 100.0 ==> d.evidenceScore == 100.0)
    ensures !(d.conditionMatched && d.minimumEvidenceMet) ==> d.evidenceScore == 0.0
    ensures d.score == if d.missingDependencies == [] then d.evidenceScore else 0.0
  {
    var m := table[r.id];
    if m.Candidate() {
      GroupsAddUp(m.positive, d.positive, d.groups);
      PenaltiesAddUp(m.negative, d.negative);
      PenaltiesAddUp(m.ambiguous, d.ambiguous);
      AppliedListTotal(r.conflicts, table);
    }
  }

  // ----- The lists -----

  /** kept holds the elements of all that satisfy chosen, in the same order. */
  ghost predicate Selects<T(!new)>(all: seq<T>, chosen: T -> bool, kept: seq<T>, at: seq<nat>) {
    && |at| == |kept|
    && (forall i | 0 <= i < |at| :: at[i] < |all| && chosen(all[at[i]]) && kept[i] == all[at[i]])
    && (forall i, j | 0 <= i < j < |at| :: at[i] < at[j])
    && (forall n | 0 <= n < |all| && chosen(all[n]) :: n in at)
  }

  lemma SelectsNext<T(!new)>(all: seq<T>, x: T, chosen: T -> bool, kept: seq<T>, at: seq<nat>)
    requires Selects(all, chosen, kept, at)
    ensures chosen(x) ==> Selects(all + [x], chosen, kept + [x], at + [|all|])
    ensures !chosen(x) ==> Selects(all + [x], chosen, kept, at)
  {
    var more, longer := all + [x], at + [|all|];
    assert more[|all|] == x && forall n | 0 <= n < |all| :: more[n] == all[n];
    assert longer[|at|] == |all| && forall i | 0 <= i < |at| :: longer[i] == at[i];
    forall n | 0 <= n < |more| && chosen(more[n]) ensures n in longer {
      if n < |all| {
        var i :| 0 <= i < |at| && at[i] == n;
        assert longer[i] == n;
      }
    }
  }

  /** The missing dependencies are exactly those that are not detected, in document order. */
  lemma {:induction false} MissingAreUndetected(rules: seq<Rule>, table: MatchTable, dependencies: seq<string>) returns (at: seq<nat>)
    requires UniqueRules(rules) && Covers(table, rules)
    ensures Selects(dependencies, (id: string) => !Detected(rules, table, id), MissingDependencies(rules, table, dependencies), at)
  {
    if dependencies == [] {
      at := [];
    } else {
      var init, last := dependencies[..|dependencies| - 1], dependencies[|dependencies| - 1];
      at := MissingAreUndetected(rules, table, init);
      SelectsNext(init, last, (id: string) => !Detected(rules, table, id), MissingDependencies(rules, table, init), at);
      assert dependencies == init + [last];
      if !Detected(rules, table, last) { at := at + [|init|]; }
    }
  }

  /** The applied conflicts are exactly those with another candidate of a positive score, in document order. */
  lemma {:induction false} AppliedAreActive(conflicts: seq<Conflict>, table: MatchTable) returns (at: seq<nat>)
    ensures Selects(
              conflicts,
              (c: Conflict) => c.ruleId in table && table[c.ruleId].conditionMatched && table[c.ruleId].minimumEvidenceMet
                               && PositiveTotal(table[c.ruleId].positive) > 0.0,
              AppliedConflicts(conflicts, table), at)
  {
    if conflicts == [] {
      at := [];
    } else {
      var init, last := conflicts[..|conflicts| - 1], conflicts[|conflicts| - 1];
      at := AppliedAreActive(init, table);
      SelectsNext(init, last,
                  (c: Conflict) => c.ruleId in table && table[c.ruleId].conditionMatched && table[c.ruleId].minimumEvidenceMet
                                   && PositiveTotal(table[c.ruleId].positive) > 0.0,
                  AppliedConflicts(init, table), at);
      assert conflicts == init + [last];
      if Applies(last, table) { at := at + [|init|]; }
    }
  }
}
