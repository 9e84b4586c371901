/** What matching promises across signal sets: monotone candidacy and sufficient lists of missing evidence. */
module MatchingLaws {
  import opened Model
  import opened Schema
  import opened Matching

  // ----- Monotonicity -----

  /** Every match of a has a counterpart in b for the same predicate, at least as confident. */
  ghost predicate CoveredBy(a: seq<EvidenceMatch>, b: seq<EvidenceMatch>, at: seq<nat>) {
    && |at| == |a|
    && forall i | 0 <= i < |at| ::
         && at[i] < |b|
         && a[i].evidenceId == b[at[i]].evidenceId
         && a[i].group == b[at[i]].group
         && a[i].weight == b[at[i]].weight
         && a[i].signal.confidence <= b[at[i]].signal.confidence
  }

  function Shifted(at: seq<nat>, offset: nat): (r: seq<nat>)
    ensures |r| == |at| && forall i | 0 <= i < |at| :: r[i] == at[i] + offset
  {
    seq(|at|, i requires 0 <= i < |at| => at[i] + offset)
  }

  lemma CoveredConcat(a: seq<EvidenceMatch>, b: seq<EvidenceMatch>, at: seq<nat>,
                      a': seq<EvidenceMatch>, b': seq<EvidenceMatch>, at': seq<nat>)
    requires CoveredBy(a, b, at) && CoveredBy(a', b', at')
    ensures CoveredBy(a + a', b + b', at + Shifted(at', |b|))
  {
    var whole := at + Shifted(at', |b|);
    forall i | 0 <= i < |whole|
      ensures whole[i] < |b + b'|
      ensures i < |a| ==> (a + a')[i] == a[i] && (b + b')[whole[i]] == b[at[i]]
      ensures i >= |a| ==> (a + a')[i] == a'[i - |a|] && (b + b')[whole[i]] == b'[at'[i - |a|]]
    {
    }
  }

  lemma CoveredWider(a: seq<EvidenceMatch>, b: seq<EvidenceMatch>, at: seq<nat>, more: seq<EvidenceMatch>)
    requires CoveredBy(a, b, at)
    ensures CoveredBy(a, b + more, at)
  {
  }

  lemma StrongestGrows(e: Evidence, signals: set<Signal>, more: set<Signal>)
    requires signals <= more && AnyMatch(e, signals)
    ensures AnyMatch(e, more)
    ensures Strongest(e, signals).confidence <= Strongest(e, more).confidence
  {
    var best := Strongest(e, signals);
    assert best in more && Matches(e, best);
    assert best == Strongest(e, more) || StrongerSignal(Strongest(e, more), best);
  }

  /** Adding signals keeps a matched condition matched, with all its evidence at least as strong. */
  lemma {:induction false} EvaluateGrows(c: Condition, signals: set<Signal>, more: set<Signal>) returns (at: seq<nat>)
    requires signals <= more && Evaluate(c, signals).matched
    ensures Evaluate(c, more).matched
    ensures CoveredBy(Evaluate(c, signals).evidence, Evaluate(c, more).evidence, at)
    decreases c
  {
    match c
    case Leaf(e) =>
      StrongestGrows(e, signals, more);
      at := [0];
    case All(children) =>
      at := EvaluateAllGrows(children, signals, more);
    case Any(children) =>
      at := EvaluateAnyGrows(children, signals, more);
  }

  lemma {:induction false} EvaluateAllGrows(cs: seq<Condition>, signals: set<Signal>, more: set<Signal>) returns (at: seq<nat>)
    requires signals <= more && EvaluateAll(cs, signals).matched
    ensures EvaluateAll(cs, more).matched
    ensures CoveredBy(EvaluateAll(cs, signals).evidence, EvaluateAll(cs, more).evidence, at)
    decreases cs
  {
    if cs == [] {
      at := [];
    } else {
      var init, last := cs[..|cs| - 1], cs[|cs| - 1];
      var front := EvaluateAllGrows(init, signals, more);
      var back := EvaluateGrows(last, signals, more);
      CoveredConcat(EvaluateAll(init, signals).evidence, EvaluateAll(init, more).evidence, front,
                    Evaluate(last, signals).evidence, Evaluate(last, more).evidence, back);
      at := front + Shifted(back, |EvaluateAll(init, more).evidence|);
    }
  }

  lemma {:induction false} EvaluateAnyGrows(cs: seq<Condition>, signals: set<Signal>, more: set<Signal>) returns (at: seq<nat>)
    requires signals <= more
    ensures EvaluateAny(cs, signals).0.matched ==> EvaluateAny(cs, more).0.matched
    ensures CoveredBy(EvaluateAny(cs, signals).0.evidence, EvaluateAny(cs, more).0.evidence, at)
    decreases cs
  {
    if cs == [] {
      at := [];
    } else {
      var init, last := cs[..|cs| - 1], cs[|cs| - 1];
      at := EvaluateAnyGrows(init, signals, more);
      var b := EvaluateAny(init, more).0.evidence;
      if Evaluate(last, signals).matched {
        var back := EvaluateGrows(last, signals, more);
        CoveredConcat(EvaluateAny(init, signals).0.evidence, b, at,
                      Evaluate(last, signals).evidence, Evaluate(last, more).evidence, back);
        at := at + Shifted(back, |b|);
      } else if Evaluate(last, more).matched {
        CoveredWider(EvaluateAny(init, signals).0.evidence, b, at, Evaluate(last, more).evidence);
      }
    }
  }

  lemma CoveredGroups(a: seq<EvidenceMatch>, b: seq<EvidenceMatch>, at: seq<nat>)
    requires CoveredBy(a, b, at)
    ensures GroupsOf(a) <= GroupsOf(b)
    ensures |GroupsOf(a)| <= |GroupsOf(b)|
  {
    forall g | g in GroupsOf(a) ensures g in GroupsOf(b) {
      var i :| 0 <= i < |a| && a[i].group == g;
      assert b[at[i]].group == g;
    }
    DependencyGraph.SubsetCardinality(GroupsOf(a), GroupsOf(b));
  }

  /** A candidate stays a candidate, with its evidence covered, as signals are added. */
  lemma CandidateGrows(r: Rule, signals: set<Signal>, more: set<Signal>) returns (at: seq<nat>)
    requires signals <= more && MatchRule(r, signals).Candidate()
    ensures MatchRule(r, more).Candidate()
    ensures CoveredBy(MatchRule(r, signals).positive, MatchRule(r, more).positive, at)
  {
    at := EvaluateGrows(r.condition, signals, more);
    CoveredGroups(MatchRule(r, signals).positive, MatchRule(r, more).positive, at);
  }

  // ----- Missing evidence -----

  /** For a valid tree, nothing is missing exactly when it matches. */
  lemma {:induction false} MatchedIffNothingMissing(c: Condition, depth: nat, version: int, signals: set<Signal>)
    requires WellFormed(c, depth, version)
    ensures Evaluate(c, signals).matched <==> Evaluate(c, signals).missing == []
    decreases c
  {
    match c
    case Leaf(_) =>
    case All(children) =>
      AllMissing(children, depth, version, signals);
    case Any(children) =>
      AnyMissing(children, depth, version, signals);
      AnyMatchedMissing(children, signals);
  }

  lemma {:induction false} AllMissing(cs: seq<Condition>, depth: nat, version: int, signals: set<Signal>)
    requires forall i | 0 <= i < |cs| :: WellFormed(cs[i], depth + 1, version)
    ensures EvaluateAll(cs, signals).matched <==> EvaluateAll(cs, signals).missing == []
    decreases cs
  {
    if cs != [] {
      AllMissing(cs[..|cs| - 1], depth, version, signals);
      MatchedIffNothingMissing(cs[|cs| - 1], depth + 1, version, signals);
    }
  }

  lemma {:induction false} AnyMissing(cs: seq<Condition>, depth: nat, version: int, signals: set<Signal>)
    requires forall i | 0 <= i < |cs| :: WellFormed(cs[i], depth + 1, version)
    ensures cs != [] && !EvaluateAny(cs, signals).0.matched ==> EvaluateAny(cs, signals).1.missing != []
    decreases cs
  {
    if cs != [] {
      AnyMissing(cs[..|cs| - 1], depth, version, signals);
      MatchedIffNothingMissing(cs[|cs| - 1], depth + 1, version, signals);
    }
  }

  /** more satisfies every predicate of es that missing lists. */
  ghost predicate Supplies(more: set<Signal>, es: seq<Evidence>, missing: seq<string>) {
    forall i | 0 <= i < |es| && es[i].id in missing :: AnyMatch(es[i], more)
  }

  /** Supplying every listed predicate, and keeping what was seen, makes a valid tree match. */
  lemma {:induction false} MissingIsSufficient(
    c: Condition, depth: nat, version: int, signals: set<Signal>, more: set<Signal>, listed: seq<string>)
    requires WellFormed(c, depth, version) && signals <= more
    requires forall id | id in Evaluate(c, signals).missing :: id in listed
    requires Supplies(more, Leaves(c), listed)
    ensures Evaluate(c, more).matched
    decreases c
  {
    if Evaluate(c, signals).matched {
      var at := EvaluateGrows(c, signals, more);
    } else {
      match c
      case Leaf(e) =>
        assert Leaves(c)[0] == e && e.id in Evaluate(c, signals).missing;
      case All(children) =>
        AllMissingIsSufficient(children, depth, version, signals, more, listed);
      case Any(children) =>
        AnyMissingIsSufficient(children, depth, version, signals, more, listed);
    }
  }

  lemma SuppliesParts(more: set<Signal>, a: seq<Evidence>, b: seq<Evidence>, missing: seq<string>)
    requires Supplies(more, a + b, missing)
    ensures Supplies(more, a, missing) && Supplies(more, b, missing)
  {
    forall i | 0 <= i < |a| && a[i].id in missing ensures AnyMatch(a[i], more) { assert (a + b)[i] == a[i]; }
    forall i | 0 <= i < |b| && b[i].id in missing ensures AnyMatch(b[i], more) { assert (a + b)[|a| + i] == b[i]; }
  }

  lemma {:induction false} AllMissingIsSufficient(
    cs: seq<Condition>, depth: nat, version: int, signals: set<Signal>, more: set<Signal>, listed: seq<string>)
    requires forall i | 0 <= i < |cs| :: WellFormed(cs[i], depth + 1, version)
    requires signals <= more
    requires forall id | id in EvaluateAll(cs, signals).missing :: id in listed
    requires Supplies(more, LeavesOfAll(cs), listed)
    ensures EvaluateAll(cs, more).matched
    decreases cs
  {
    if cs != [] {
      var init, last := cs[..|cs| - 1], cs[|cs| - 1];
      SuppliesParts(more, LeavesOfAll(init), Leaves(last), listed);
      AllMissingIsSufficient(init, depth, version, signals, more, listed);
      MissingIsSufficient(last, depth + 1, version, signals, more, listed);
    }
  }

  lemma {:induction false} AnyMissingIsSufficient(
    cs: seq<Condition>, depth: nat, version: int, signals: set<Signal>, more: set<Signal>, listed: seq<string>)
    requires forall i | 0 <= i < |cs| :: WellFormed(cs[i], depth + 1, version)
    requires cs != [] && signals <= more
    requires !EvaluateAny(cs, signals).0.matched
    requires forall id | id in EvaluateAny(cs, signals).1.missing :: id in listed
    requires Supplies(more, LeavesOfAll(cs), listed)
    ensures EvaluateAny(cs, more).0.matched
    decreases cs
  {
    var init, last := cs[..|cs| - 1], cs[|cs| - 1];
    SuppliesParts(more, LeavesOfAll(init), Leaves(last), listed);
    MissingIsSufficient(last, depth + 1, version, signals, more, listed);
  }
}
