/** What a condition reports when it does not match, or matches in part: exactly which predicates, in which order. */
module PartialOutcomes {
  import opened Model
  import opened Schema
  import opened Matching

  // ----- Truth -----

  /** All means every child, any means some child. */
  ghost predicate Holds(c: Condition, signals: set<Signal>)
    decreases c
  {
    match c
    case Leaf(e) => AnyMatch(e, signals)
    case All(children) => forall i | 0 <= i < |children| :: Holds(children[i], signals)
    case Any(children) => exists i | 0 <= i < |children| :: Holds(children[i], signals)
  }

  lemma {:induction false} MatchedIffHolds(c: Condition, signals: set<Signal>)
    ensures Evaluate(c, signals).matched <==> Holds(c, signals)
    decreases c
  {
    match c
    case Leaf(_) =>
    case All(children) => AllMatchedIffHold(children, signals);
    case Any(children) => AnyMatchedIffHolds(children, signals);
  }

  lemma {:induction false} AllMatchedIffHold(cs: seq<Condition>, signals: set<Signal>)
    ensures EvaluateAll(cs, signals).matched <==> forall i | 0 <= i < |cs| :: Holds(cs[i], signals)
    decreases cs
  {
    if cs != [] {
      AllMatchedIffHold(cs[..|cs| - 1], signals);
      MatchedIffHolds(cs[|cs| - 1], signals);
      assert forall i | 0 <= i < |cs| - 1 :: cs[..|cs| - 1][i] == cs[i];
    }
  }

  lemma {:induction false} AnyMatchedIffHolds(cs: seq<Condition>, signals: set<Signal>)
    ensures EvaluateAny(cs, signals).0.matched <==> exists i | 0 <= i < |cs| :: Holds(cs[i], signals)
    decreases cs
  {
    if cs != [] {
      AnyMatchedIffHolds(cs[..|cs| - 1], signals);
      MatchedIffHolds(cs[|cs| - 1], signals);
      assert forall i | 0 <= i < |cs| - 1 :: cs[..|cs| - 1][i] == cs[i];
    }
  }

  // ----- Which predicates are listed -----

  /** The unmatched predicates that no any-condition has made superfluous, left to right. */
  ghost function Lacking(c: Condition, signals: set<Signal>): seq<Evidence>
    decreases c
  {
    match c
    case Leaf(e) => if AnyMatch(e, signals) then [] else [e]
    case All(children) => LackingIn(children, signals)
    case Any(children) => if Holds(c, signals) then [] else LackingIn(children, signals)
  }

  ghost function LackingIn(cs: seq<Condition>, signals: set<Signal>): seq<Evidence>
    decreases cs
  {
    if cs == [] then [] else LackingIn(cs[..|cs| - 1], signals) + Lacking(cs[|cs| - 1], signals)
  }

  /** The matched predicates, left to right, without those of the alternatives that an any-condition did not need. */
  ghost function Showing(c: Condition, signals: set<Signal>): seq<Evidence>
    decreases c, 0
  {
    match c
    case Leaf(e) => if AnyMatch(e, signals) then [e] else []
    case All(children) => ShowingIn(children, signals, false)
    case Any(children) => ShowingIn(children, signals, Holds(c, signals))
  }

  ghost function ShowingIn(cs: seq<Condition>, signals: set<Signal>, selective: bool): seq<Evidence>
    decreases cs
  {
    if cs == [] then []
    else
      ShowingIn(cs[..|cs| - 1], signals, selective)
      + if selective && !Holds(cs[|cs| - 1], signals) then [] else Showing(cs[|cs| - 1], signals)
  }

  function IdsOf(es: seq<Evidence>): (ids: seq<string>)
    ensures |ids| == |es|
  {
    seq(|es|, i requires 0 <= i < |es| => es[i].id)
  }

  ghost predicate AllSeen(es: seq<Evidence>, signals: set<Signal>) {
    forall i | 0 <= i < |es| :: AnyMatch(es[i], signals)
  }

  ghost function MatchesOf(es: seq<Evidence>, signals: set<Signal>): (ms: seq<EvidenceMatch>)
    requires AllSeen(es, signals)
    ensures |ms| == |es|
  {
    seq(|es|, i requires 0 <= i < |es| => MatchOf(es[i], Strongest(es[i], signals)))
  }

  lemma {:induction false} NothingLacksWhereHolds(c: Condition, signals: set<Signal>)
    requires Holds(c, signals)
    ensures Lacking(c, signals) == []
    decreases c
  {
    if c.All? { NothingLacksInAll(c.children, signals); }
  }

  lemma {:induction false} NothingLacksInAll(cs: seq<Condition>, signals: set<Signal>)
    requires forall i | 0 <= i < |cs| :: Holds(cs[i], signals)
    ensures LackingIn(cs, signals) == []
    decreases cs
  {
    if cs != [] {
      NothingLacksInAll(cs[..|cs| - 1], signals);
      NothingLacksWhereHolds(cs[|cs| - 1], signals);
    }
  }

  /** The missing list names exactly the lacking predicates, in document order. */
  lemma {:induction false} MissingIsLacking(c: Condition, signals: set<Signal>)
    ensures Evaluate(c, signals).missing == IdsOf(Lacking(c, signals))
    decreases c
  {
    MatchedIffHolds(c, signals);
    match c
    case Leaf(_) =>
    case All(children) => AllMissing(children, signals);
    case Any(children) =>
      AnyMissing(children, signals);
      AnySides(children, signals);
  }

  lemma {:induction false} AllMissing(cs: seq<Condition>, signals: set<Signal>)
    ensures EvaluateAll(cs, signals).missing == IdsOf(LackingIn(cs, signals))
    decreases cs
  {
    if cs != [] {
      AllMissing(cs[..|cs| - 1], signals);
      MissingIsLacking(cs[|cs| - 1], signals);
    }
  }

  lemma {:induction false} AnyMissing(cs: seq<Condition>, signals: set<Signal>)
    ensures EvaluateAny(cs, signals).1.missing == IdsOf(LackingIn(cs, signals))
    decreases cs
  {
    if cs != [] {
      var last := cs[|cs| - 1];
      AnyMissing(cs[..|cs| - 1], signals);
      MissingIsLacking(last, signals);
      MatchedIffHolds(last, signals);
      if Holds(last, signals) { NothingLacksWhereHolds(last, signals); }
    }
  }

  lemma {:induction false} AnySides(cs: seq<Condition>, signals: set<Signal>)
    ensures EvaluateAny(cs, signals).0.missing == [] && !EvaluateAny(cs, signals).1.matched
    decreases cs
  {
    if cs != [] { AnySides(cs[..|cs| - 1], signals); }
  }

  lemma AllSeenConcat(a: seq<Evidence>, b: seq<Evidence>, signals: set<Signal>)
    requires AllSeen(a, signals) && AllSeen(b, signals)
    ensures AllSeen(a + b, signals) && MatchesOf(a + b, signals) == MatchesOf(a, signals) + MatchesOf(b, signals)
  {
  }

  /** The evidence is one match for each predicate shown, in document order, with its strongest signal. */
  lemma {:induction false} EvidenceIsShowing(c: Condition, signals: set<Signal>)
    ensures AllSeen(Showing(c, signals), signals)
    ensures Evaluate(c, signals).evidence == MatchesOf(Showing(c, signals), signals)
    decreases c
  {
    MatchedIffHolds(c, signals);
    match c
    case Leaf(_) =>
    case All(children) => AllEvidence(children, signals);
    case Any(children) =>
      if Holds(c, signals) { MatchedEvidence(children, signals); } else { UnmatchedEvidence(children, signals); }
  }

  lemma {:induction false} AllEvidence(cs: seq<Condition>, signals: set<Signal>)
    ensures AllSeen(ShowingIn(cs, signals, false), signals)
    ensures EvaluateAll(cs, signals).evidence == MatchesOf(ShowingIn(cs, signals, false), signals)
    decreases cs
  {
    if cs != [] {
      AllEvidence(cs[..|cs| - 1], signals);
      EvidenceIsShowing(cs[|cs| - 1], signals);
      AllSeenConcat(ShowingIn(cs[..|cs| - 1], signals, false), Showing(cs[|cs| - 1], signals), signals);
    }
  }

  lemma {:induction false} MatchedEvidence(cs: seq<Condition>, signals: set<Signal>)
    ensures AllSeen(ShowingIn(cs, signals, true), signals)
    ensures EvaluateAny(cs, signals).0.evidence == MatchesOf(ShowingIn(cs, signals, true), signals)
    decreases cs
  {
    if cs != [] {
      var last := cs[|cs| - 1];
      MatchedEvidence(cs[..|cs| - 1], signals);
      MatchedIffHolds(last, signals);
      if Holds(last, signals) {
        EvidenceIsShowing(last, signals);
        AllSeenConcat(ShowingIn(cs[..|cs| - 1], signals, true), Showing(last, signals), signals);
      }
    }
  }

  lemma {:induction false} UnmatchedEvidence(cs: seq<Condition>, signals: set<Signal>)
    requires forall i | 0 <= i < |cs| :: !Holds(cs[i], signals)
    ensures AllSeen(ShowingIn(cs, signals, false), signals)
    ensures EvaluateAny(cs, signals).1.evidence == MatchesOf(ShowingIn(cs, signals, false), signals)
    decreases cs
  {
    if cs != [] {
      var last := cs[|cs| - 1];
      UnmatchedEvidence(cs[..|cs| - 1], signals);
      MatchedIffHolds(last, signals);
      EvidenceIsShowing(last, signals);
      AllSeenConcat(ShowingIn(cs[..|cs| - 1], signals, false), Showing(last, signals), signals);
    }
  }

  // ----- The same by position in the tree -----

  function ChildrenOf(c: Condition): seq<Condition> {
    if c.Leaf? then [] else c.children
  }

  /** The node that is reached by descending along path. */
  function NodeAt(c: Condition, path: seq<nat>): Option<Condition>
    decreases |path|
  {
    if path == [] then Some(c)
    else if path[0] < |ChildrenOf(c)| then NodeAt(ChildrenOf(c)[path[0]], path[1..])
    else None
  }

  /** The leaf at path is unmatched, and no any-condition above it is matched. */
  ghost predicate LacksAt(c: Condition, signals: set<Signal>, path: seq<nat>, e: Evidence) {
    && NodeAt(c, path) == Some(Leaf(e)) && !AnyMatch(e, signals)
    && forall k | 0 <= k < |path| :: NodeAt(c, path[..k]).Some? && NodeAt(c, path[..k]).value.Any? ==>
         !Holds(NodeAt(c, path[..k]).value, signals)
  }

  /** The leaf at path is matched, and does not lie below an unmatched child of a matched any-condition. */
  ghost predicate ShowsAt(c: Condition, signals: set<Signal>, path: seq<nat>, e: Evidence) {
    && NodeAt(c, path) == Some(Leaf(e)) && AnyMatch(e, signals)
    && forall k | 0 <= k < |path| ::
         NodeAt(c, path[..k]).Some? && NodeAt(c, path[..k]).value.Any? && Holds(NodeAt(c, path[..k]).value, signals) ==>
           NodeAt(c, path[..k + 1]).Some? && Holds(NodeAt(c, path[..k + 1]).value, signals)
  }

  /** One step down. */
  lemma Descend(c: Condition, i: nat, path: seq<nat>, k: nat)
    requires i < |ChildrenOf(c)| && k <= |path|
    ensures NodeAt(c, [i] + path) == NodeAt(ChildrenOf(c)[i], path)
    ensures NodeAt(c, ([i] + path)[..k + 1]) == NodeAt(ChildrenOf(c)[i], path[..k])
    ensures NodeAt(c, ([i] + path)[..0]) == Some(c)
  {
    assert ([i] + path)[1..] == path && ([i] + path)[..k + 1] == [i] + path[..k] && ([i] + path[..k])[1..] == path[..k];
  }

  lemma LacksBelow(c: Condition, signals: set<Signal>, i: nat, path: seq<nat>, e: Evidence)
    requires i < |ChildrenOf(c)|
    ensures LacksAt(c, signals, [i] + path, e)
       <==> LacksAt(ChildrenOf(c)[i], signals, path, e) && (c.Any? ==> !Holds(c, signals))
  {
    var whole, child := [i] + path, ChildrenOf(c)[i];
    forall k | 0 <= k <= |path| ensures NodeAt(c, whole[..k + 1]) == NodeAt(child, path[..k]) { Descend(c, i, path, k); }
    Descend(c, i, path, 0);
    if LacksAt(c, signals, whole, e) {
      assert NodeAt(c, whole[..0]) == Some(c);
      forall k | 0 <= k < |path|
        ensures NodeAt(child, path[..k]).Some? && NodeAt(child, path[..k]).value.Any? ==>
                  !Holds(NodeAt(child, path[..k]).value, signals)
      {
        assert NodeAt(c, whole[..k + 1]) == NodeAt(child, path[..k]);
      }
    }
    if LacksAt(child, signals, path, e) && (c.Any? ==> !Holds(c, signals)) {
      forall k | 0 <= k < |whole|
        ensures NodeAt(c, whole[..k]).Some? && NodeAt(c, whole[..k]).value.Any? ==>
                  !Holds(NodeAt(c, whole[..k]).value, signals)
      {
        if k > 0 { assert NodeAt(c, whole[..(k - 1) + 1]) == NodeAt(child, path[..k - 1]); }
      }
    }
  }

  lemma ShowsBelow(c: Condition, signals: set<Signal>, i: nat, path: seq<nat>, e: Evidence)
    requires i < |ChildrenOf(c)|
    ensures ShowsAt(c, signals, [i] + path, e)
       <==> ShowsAt(ChildrenOf(c)[i], signals, path, e)
            && (c.Any? && Holds(c, signals) ==> Holds(ChildrenOf(c)[i], signals))
  {
    var whole, child := [i] + path, ChildrenOf(c)[i];
    forall k | 0 <= k <= |path| ensures NodeAt(c, whole[..k + 1]) == NodeAt(child, path[..k]) { Descend(c, i, path, k); }
    Descend(c, i, path, 0);
    assert path[..0] == [];
    if ShowsAt(c, signals, whole, e) {
      assert NodeAt(c, whole[..0]) == Some(c) && NodeAt(c, whole[..0 + 1]) == Some(child);
      forall k | 0 <= k < |path|
        ensures NodeAt(child, path[..k]).Some? && NodeAt(child, path[..k]).value.Any? && Holds(NodeAt(child, path[..k]).value, signals) ==>
                  NodeAt(child, path[..k + 1]).Some? && Holds(NodeAt(child, path[..k + 1]).value, signals)
      {
        assert NodeAt(c, whole[..k + 1]) == NodeAt(child, path[..k]);
        assert NodeAt(c, whole[..(k + 1) + 1]) == NodeAt(child, path[..k + 1]);
      }
    }
    if ShowsAt(child, signals, path, e) && (c.Any? && Holds(c, signals) ==> Holds(child, signals)) {
      forall k | 0 <= k < |whole|
        ensures NodeAt(c, whole[..k]).Some? && NodeAt(c, whole[..k]).value.Any? && Holds(NodeAt(c, whole[..k]).value, signals) ==>
                  NodeAt(c, whole[..k + 1]).Some? && Holds(NodeAt(c, whole[..k + 1]).value, signals)
      {
        if k > 0 {
          assert NodeAt(c, whole[..(k - 1) + 1]) == NodeAt(child, path[..k - 1]);
          assert NodeAt(c, whole[..k + 1]) == NodeAt(child, path[..k]);
        }
      }
    }
  }

  lemma {:induction false} LackingInHas(cs: seq<Condition>, signals: set<Signal>, e: Evidence)
    ensures e in LackingIn(cs, signals) <==> exists i | 0 <= i < |cs| :: e in Lacking(cs[i], signals)
    decreases |cs|
  {
    if cs != [] {
      LackingInHas(cs[..|cs| - 1], signals, e);
      assert forall i | 0 <= i < |cs| - 1 :: cs[..|cs| - 1][i] == cs[i];
    }
  }

  lemma {:induction false} ShowingInHas(cs: seq<Condition>, signals: set<Signal>, selective: bool, e: Evidence)
    ensures e in ShowingIn(cs, signals, selective)
       <==> exists i | 0 <= i < |cs| :: e in Showing(cs[i], signals) && (selective ==> Holds(cs[i], signals))
    decreases |cs|
  {
    if cs != [] {
      ShowingInHas(cs[..|cs| - 1], signals, selective, e);
      assert forall i | 0 <= i < |cs| - 1 :: cs[..|cs| - 1][i] == cs[i];
    }
  }

  lemma {:induction false} LackingByPath(c: Condition, signals: set<Signal>, e: Evidence)
    ensures e in Lacking(c, signals) <==> exists path :: LacksAt(c, signals, path, e)
    decreases c
  {
    if c.Leaf? {
      assert LacksAt(c, signals, [], e) <==> c == Leaf(e) && !AnyMatch(e, signals);
      forall path | LacksAt(c, signals, path, e) ensures path == [] { }
    } else {
      LackingInHas(c.children, signals, e);
      if e in Lacking(c, signals) {
        var i :| 0 <= i < |c.children| && e in Lacking(c.children[i], signals);
        LackingByPath(c.children[i], signals, e);
        var path :| LacksAt(c.children[i], signals, path, e);
        LacksBelow(c, signals, i, path, e);
      }
      if path :| LacksAt(c, signals, path, e) {
        assert path == [path[0]] + path[1..];
        LacksBelow(c, signals, path[0], path[1..], e);
        LackingByPath(c.children[path[0]], signals, e);
      }
    }
  }

  lemma {:induction false} ShowingByPath(c: Condition, signals: set<Signal>, e: Evidence)
    ensures e in Showing(c, signals) <==> exists path :: ShowsAt(c, signals, path, e)
    decreases c
  {
    if c.Leaf? {
      assert ShowsAt(c, signals, [], e) <==> c == Leaf(e) && AnyMatch(e, signals);
      forall path | ShowsAt(c, signals, path, e) ensures path == [] { }
    } else {
      ShowingInHas(c.children, signals, c.Any? && Holds(c, signals), e);
      if e in Showing(c, signals) {
        var i :| 0 <= i < |c.children| && e in Showing(c.children[i], signals)
                 && (c.Any? && Holds(c, signals) ==> Holds(c.children[i], signals));
        ShowingByPath(c.children[i], signals, e);
        var path :| ShowsAt(c.children[i], signals, path, e);
        ShowsBelow(c, signals, i, path, e);
      }
      if path :| ShowsAt(c, signals, path, e) {
        assert path == [path[0]] + path[1..];
        ShowsBelow(c, signals, path[0], path[1..], e);
        ShowingByPath(c.children[path[0]], signals, e);
      }
    }
  }

  /** An id is listed as missing exactly if it belongs to an unmatched leaf with no matched any-condition above it. */
  lemma MissingExactly(c: Condition, signals: set<Signal>, id: string)
    ensures id in Evaluate(c, signals).missing <==> exists path, e :: LacksAt(c, signals, path, e) && e.id == id
  {
    var es := Lacking(c, signals);
    MissingIsLacking(c, signals);
    if id in IdsOf(es) {
      var i :| 0 <= i < |es| && IdsOf(es)[i] == id;
      assert es[i] in es;
      LackingByPath(c, signals, es[i]);
    }
    if path, e :| LacksAt(c, signals, path, e) && e.id == id {
      LackingByPath(c, signals, e);
      var i :| 0 <= i < |es| && es[i] == e;
      assert IdsOf(es)[i] == id;
    }
  }

  /** The evidence holds a match for exactly the matched leaves that no matched any-condition has passed over. */
  lemma EvidenceExactly(c: Condition, signals: set<Signal>, m: EvidenceMatch)
    ensures m in Evaluate(c, signals).evidence <==>
            exists path, e :: ShowsAt(c, signals, path, e) && m == MatchOf(e, Strongest(e, signals))
  {
    var es := Showing(c, signals);
    EvidenceIsShowing(c, signals);
    var ms := MatchesOf(es, signals);
    if m in ms {
      var i :| 0 <= i < |ms| && ms[i] == m;
      assert es[i] in es;
      ShowingByPath(c, signals, es[i]);
    }
    if path, e :| ShowsAt(c, signals, path, e) && m == MatchOf(e, Strongest(e, signals)) {
      ShowingByPath(c, signals, e);
      var i :| 0 <= i < |es| && es[i] == e;
      assert ms[i] == m;
    }
  }

  // ----- The missing predicates are necessary -----

  lemma {:induction false} LackingIsNeeded(c: Condition, signals: set<Signal>, more: set<Signal>) returns (e: Evidence)
    requires !Holds(c, signals) && Holds(c, more)
    ensures e in Lacking(c, signals) && e in Leaves(c) && AnyMatch(e, more)
    decreases c
  {
    match c
    case Leaf(own) => e := own;
    case All(children) =>
      var i :| 0 <= i < |children| && !Holds(children[i], signals);
      e := LackingIsNeeded(children[i], signals, more);
      LackingInHas(children, signals, e);
      LeafOfChild(children, i, e);
    case Any(children) =>
      var i :| 0 <= i < |children| && Holds(children[i], more);
      e := LackingIsNeeded(children[i], signals, more);
      LackingInHas(children, signals, e);
      LeafOfChild(children, i, e);
  }

  lemma {:induction false} LeafOfChild(cs: seq<Condition>, i: nat, e: Evidence)
    requires i < |cs| && e in Leaves(cs[i])
    ensures e in LeavesOfAll(cs)
    decreases |cs|
  {
    if i < |cs| - 1 {
      assert cs[..|cs| - 1][i] == cs[i];
      LeafOfChild(cs[..|cs| - 1], i, e);
    }
  }

  /** A condition that comes to match has had one of its listed predicates supplied. */
  lemma MissingIsNecessary(c: Condition, signals: set<Signal>, more: set<Signal>) returns (e: Evidence)
    requires !Evaluate(c, signals).matched && Evaluate(c, more).matched
    ensures e in Leaves(c) && e.id in Evaluate(c, signals).missing && !AnyMatch(e, signals) && AnyMatch(e, more)
  {
    MatchedIffHolds(c, signals);
    MatchedIffHolds(c, more);
    e := LackingIsNeeded(c, signals, more);
    LackingByPath(c, signals, e);
    MissingExactly(c, signals, e.id);
  }

  // ----- Lists of penalties -----

  /** The positions of the matched predicates, in order, and nothing else. */
  ghost predicate ListsMatched(es: seq<Evidence>, signals: set<Signal>, ms: seq<EvidenceMatch>, at: seq<nat>) {
    && |at| == |ms|
    && (forall i | 0 <= i < |at| ::
          at[i] < |es| && AnyMatch(es[at[i]], signals) && ms[i] == MatchOf(es[at[i]], Strongest(es[at[i]], signals)))
    && (forall i, j | 0 <= i < j < |at| :: at[i] < at[j])
    && (forall n | 0 <= n < |es| && AnyMatch(es[n], signals) :: n in at)
  }

  lemma ListsMatchedNext(es: seq<Evidence>, e: Evidence, signals: set<Signal>, ms: seq<EvidenceMatch>, at: seq<nat>)
    requires ListsMatched(es, signals, ms, at)
    ensures AnyMatch(e, signals) ==> ListsMatched(es + [e], signals, ms + [MatchOf(e, Strongest(e, signals))], at + [|es|])
    ensures !AnyMatch(e, signals) ==> ListsMatched(es + [e], signals, ms, at)
  {
    var all := es + [e];
    assert all[|es|] == e && forall n | 0 <= n < |es| :: all[n] == es[n];
    if AnyMatch(e, signals) {
      var more := at + [|es|];
      assert more[|at|] == |es| && forall i | 0 <= i < |at| :: more[i] == at[i];
      forall n | 0 <= n < |all| && AnyMatch(all[n], signals) ensures n in more {
        if n < |es| {
          assert AnyMatch(es[n], signals);
          var i :| 0 <= i < |at| && at[i] == n;
          assert more[i] == n;
        }
      }
    }
  }

  /** Each penalty predicate that matches is listed once, in document order, with its strongest signal. */
  lemma {:induction false} MatchListExactly(es: seq<Evidence>, signals: set<Signal>) returns (at: seq<nat>)
    ensures ListsMatched(es, signals, MatchList(es, signals), at)
    decreases |es|
  {
    if es == [] {
      at := [];
    } else {
      var init, last := es[..|es| - 1], es[|es| - 1];
      at := MatchListExactly(init, signals);
      ListsMatchedNext(init, last, signals, MatchList(init, signals), at);
      assert es == init + [last];
      if AnyMatch(last, signals) { at := at + [|init|]; }
    }
  }
}
