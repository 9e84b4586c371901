/**
 * What an acquire that reports success may be trusted for, over whole runs of the tracker: the instant at which its
 * request was active, and exactly when it still is at the return.
 */
module RequestHistory {
  import opened RequestTracker

  // ----- Runs, moment by moment -----

  ghost predicate ValidMoves<Id>(n: nat, moves: seq<Move<Id>>) {
    forall i | 0 <= i < |moves| :: moves[i].thread < n
  }

  /** The state after the first k moves. */
  ghost function After<Id>(limit: nat, n: nat, moves: seq<Move<Id>>, k: nat): (s: State<Id>)
    requires ValidMoves(n, moves) && k <= |moves|
    ensures |s.threads| == n
  {
    RunsAreSafe(limit, n, moves[..k]);
    Run(Start(limit, n), moves[..k]).state
  }

  /** The section that move k executes. */
  ghost function SectionAt<Id>(limit: nat, n: nat, moves: seq<Move<Id>>, k: nat): Local<Id>
    requires ValidMoves(n, moves) && k < |moves|
  {
    After(limit, n, moves, k).threads[moves[k].thread]
  }

  lemma AfterNext<Id>(limit: nat, n: nat, moves: seq<Move<Id>>, k: nat)
    requires ValidMoves(n, moves) && k < |moves|
    ensures var step := Step(After(limit, n, moves, k), moves[k].thread, moves[k].input);
            step.Moved? && After(limit, n, moves, k + 1) == step.state
  {
    RunsAreSafe(limit, n, moves[..k]);
    RunsAreSafe(limit, n, moves[..k + 1]);
    assert moves[..k + 1][..k] == moves[..k];
  }

  /** What the last move of a run reports. */
  lemma LastOutcome<Id>(limit: nat, n: nat, moves: seq<Move<Id>>)
    requires ValidMoves(n, moves) && moves != []
    ensures var m := |moves| - 1;
            Run(Start(limit, n), moves)
            == Step(After(limit, n, moves, m), moves[m].thread, moves[m].input)
  {
    RunsAreSafe(limit, n, moves[..|moves| - 1]);
  }

  // ----- What happens to one request -----

  ghost predicate TakesOut<Id>(section: Local<Id>, id: Id) {
    section == ReleaseLookup(id) || section.ReleaseAllClear?
  }

  ghost predicate PutsIn<Id>(section: Local<Id>, id: Id) {
    section == AcquireInsert(id)
  }

  /** Between the moments k and m the request was taken out and not put back since. */
  ghost predicate LostBetween<Id>(limit: nat, n: nat, moves: seq<Move<Id>>, k: nat, m: nat, id: Id)
    requires ValidMoves(n, moves) && m <= |moves|
  {
    exists j | k <= j < m ::
      && TakesOut(SectionAt(limit, n, moves, j), id)
      && forall i | j < i < m :: !PutsIn(SectionAt(limit, n, moves, i), id)
  }

  /** One more move is either the one that loses the request, or one that keeps what was so. */
  lemma LostNext<Id>(limit: nat, n: nat, moves: seq<Move<Id>>, k: nat, m: nat, id: Id)
    requires ValidMoves(n, moves) && k <= m < |moves|
    ensures var section := SectionAt(limit, n, moves, m);
            LostBetween(limit, n, moves, k, m + 1, id) <==>
              TakesOut(section, id) || (LostBetween(limit, n, moves, k, m, id) && !PutsIn(section, id))
  {
    var section := SectionAt(limit, n, moves, m);
    if LostBetween(limit, n, moves, k, m, id) && !PutsIn(section, id) {
      var j :| k <= j < m && TakesOut(SectionAt(limit, n, moves, j), id)
               && forall i | j < i < m :: !PutsIn(SectionAt(limit, n, moves, i), id);
      assert forall i | j < i < m + 1 :: !PutsIn(SectionAt(limit, n, moves, i), id);
    }
  }

  lemma ActiveNext<Id>(limit: nat, n: nat, moves: seq<Move<Id>>, m: nat, id: Id)
    requires ValidMoves(n, moves) && m < |moves|
    ensures var section := SectionAt(limit, n, moves, m);
            id in After(limit, n, moves, m + 1).active
            <==> PutsIn(section, id) || (id in After(limit, n, moves, m).active && !TakesOut(section, id))
  {
    AfterNext(limit, n, moves, m);
    ActiveChangesAtomically(After(limit, n, moves, m), moves[m].thread, moves[m].input);
  }

  /** A request that was active at the moment k is active at the moment m unless it was lost in between. */
  lemma {:induction false} ActiveUnlessLost<Id>(limit: nat, n: nat, moves: seq<Move<Id>>, k: nat, m: nat, id: Id)
    requires ValidMoves(n, moves) && k <= m <= |moves|
    requires id in After(limit, n, moves, k).active
    ensures id in After(limit, n, moves, m).active <==> !LostBetween(limit, n, moves, k, m, id)
    decreases m
  {
    if k < m {
      ActiveUnlessLost(limit, n, moves, k, m - 1, id);
      LostNext(limit, n, moves, k, m - 1, id);
      ActiveNext(limit, n, moves, m - 1, id);
    }
  }

  // ----- The instant of a grant -----

  /** Section k of thread t found the request active, or made it so. */
  ghost predicate ActiveAt<Id>(limit: nat, n: nat, moves: seq<Move<Id>>, k: nat, t: nat, id: Id)
    requires ValidMoves(n, moves)
  {
    && k < |moves| && moves[k].thread == t
    && SectionAt(limit, n, moves, k) in {AcquireLookup(id), AcquireInsert(id)}
    && id in After(limit, n, moves, k + 1).active
  }

  ghost predicate NoMoveOf<Id>(moves: seq<Move<Id>>, t: nat, from: nat, to: nat)
    requires to <= |moves|
  {
    forall j | from <= j < to :: moves[j].thread != t
  }

  lemma StartsIdle<Id>(limit: nat, n: nat, moves: seq<Move<Id>>, t: nat)
    requires ValidMoves(n, moves) && t < n
    ensures After(limit, n, moves, 0).threads[t].Idle?
  {
    assert moves[..0] == [];
  }

  /** A thread that is about to undo has found its request active in its last section. */
  lemma {:induction false} UndoFollowsFind<Id>(limit: nat, n: nat, moves: seq<Move<Id>>, m: nat, t: nat, id: Id)
    returns (k: nat)
    requires ValidMoves(n, moves) && m <= |moves| && t < n
    requires After(limit, n, moves, m).threads[t] == AcquireUndo(id)
    ensures k < m && ActiveAt(limit, n, moves, k, t, id) && NoMoveOf(moves, t, k + 1, m)
    decreases m
  {
    StartsIdle(limit, n, moves, t);
    AfterNext(limit, n, moves, m - 1);
    var s := After(limit, n, moves, m - 1);
    if moves[m - 1].thread == t {
      FoundBeforeUndo(s, t, moves[m - 1].input, id);
      k := m - 1;
    } else {
      OthersStay(s, moves[m - 1].thread, t, moves[m - 1].input);
      k := UndoFollowsFind(limit, n, moves, m - 1, t, id);
    }
  }

  lemma FoundBeforeUndo<Id>(s: State<Id>, t: nat, input: Input<Id>, id: Id)
    requires t < |s.threads| && Step(s, t, input).Moved? && Step(s, t, input).state.threads[t] == AcquireUndo(id)
    ensures s.threads[t] == AcquireInsert(id) && id in s.active && id in Step(s, t, input).state.active
  {
  }

  lemma OthersStay<Id>(s: State<Id>, t: nat, u: nat, input: Input<Id>)
    requires t < |s.threads| && u < |s.threads| && u != t && Step(s, t, input).Moved?
    ensures u < |Step(s, t, input).state.threads| && Step(s, t, input).state.threads[u] == s.threads[u]
  {
  }

  /** The request of an acquire. */
  function RequestedBy<Id>(l: Local<Id>): Id
    requires l.AcquireLookup? || l.AcquireInsert? || l.AcquireUndo?
  {
    l.id
  }

  lemma GrantingSections<Id>(s: State<Id>, t: nat, input: Input<Id>)
    requires t < |s.threads| && Step(s, t, input).Moved? && Step(s, t, input).outcome == Granted
    ensures var l := s.threads[t];
            && (l.AcquireLookup? || l.AcquireInsert? || l.AcquireUndo?)
            && (!l.AcquireUndo? ==> RequestedBy(l) in Step(s, t, input).state.active)
  {
  }

  /**
   * Every acquire that reports success had its request active at one of its own sections: the lookup, the insertion, or
   * the check that makes it hand its token back. When it returns, the request is still active if and only if no release
   * or clear has taken it out since that section without it being put back. Only an undo can be overtaken like this.
   */
  lemma GrantsWereActive<Id>(limit: nat, n: nat, moves: seq<Move<Id>>) returns (k: nat, id: Id)
    requires ValidMoves(n, moves) && moves != []
    requires Run(Start(limit, n), moves).Moved? && Run(Start(limit, n), moves).outcome == Granted
    ensures var m := |moves| - 1;
            var t := moves[m].thread;
            && k <= m && ActiveAt(limit, n, moves, k, t, id) && NoMoveOf(moves, t, k + 1, m)
            && (id in After(limit, n, moves, |moves|).active <==> !LostBetween(limit, n, moves, k + 1, |moves|, id))
            && (k < m <==> SectionAt(limit, n, moves, m) == AcquireUndo(id))
            && (k == m ==> id in After(limit, n, moves, |moves|).active)
  {
    var m := |moves| - 1;
    var t := moves[m].thread;
    LastOutcome(limit, n, moves);
    AfterNext(limit, n, moves, m);
    var s := After(limit, n, moves, m);
    GrantingSections(s, t, moves[m].input);
    id := RequestedBy(s.threads[t]);
    if s.threads[t].AcquireUndo? {
      k := UndoFollowsFind(limit, n, moves, m, t, id);
    } else {
      k := m;
    }
    ActiveUnlessLost(limit, n, moves, k + 1, |moves|, id);
  }

  /** Every acquire that is refused was stopped, or found all tokens taken by active requests and by threads in between. */
  lemma RefusalsWereFull<Id>(limit: nat, n: nat, moves: seq<Move<Id>>)
    requires ValidMoves(n, moves) && moves != []
    requires Run(Start(limit, n), moves).Moved? && Run(Start(limit, n), moves).outcome == Refused
    ensures var m := |moves| - 1;
            var s, section := After(limit, n, moves, m), SectionAt(limit, n, moves, m);
            || (section.AcquireGate? && moves[m].input.stopped)
            || (section.AcquireToken? && |s.active| + HeldByAll(s.threads) == limit)
  {
    var m := |moves| - 1;
    LastOutcome(limit, n, moves);
    RunsAreSafe(limit, n, moves[..m]);
    OutcomesAreHonest(After(limit, n, moves, m), moves[m].thread, moves[m].input);
  }

  // ----- An overtaken undo -----

  /** The two inputs of the example. */
  function Asking<Id>(id: Id): Input<Id> { Input(Acquire(id), false, false) }

  function Releasing<Id>(id: Id): Input<Id> { Input(Release(id), false, false) }

  function Overtaking<Id>(id: Id): seq<Move<Id>> {
    var a, b, r := Move(0, Asking(id)), Move(1, Asking(id)), Move(1, Releasing(id));
    [a, a, a, b, b, b, b, b, a, a, r, r, a]
  }

  function Two<Id>(limit: nat, tokens: nat, active: set<Id>, l0: Local<Id>, l1: Local<Id>, pushed: nat, drained: nat): State<Id> {
    State(limit, tokens, active, [l0, l1], pushed, drained)
  }

  lemma RunNext<Id>(s: State<Id>, moves: seq<Move<Id>>, k: nat, now: State<Id>, next: StepResult<Id>)
    requires k < |moves| && Run(s, moves[..k]).Moved? && Run(s, moves[..k]).state == now
    requires moves[k].thread < |now.threads| && next == Step(now, moves[k].thread, moves[k].input)
    ensures Run(s, moves[..k + 1]) == next
  {
    assert moves[..k + 1][..k] == moves[..k];
  }

  ghost predicate PlaysTo<Id>(limit: nat, id: Id, k: nat, s: State<Id>) {
    k <= 13 && Run(Start(limit, 2), Overtaking(id)[..k]).Moved? && Run(Start(limit, 2), Overtaking(id)[..k]).state == s
  }

  lemma Play<Id>(limit: nat, id: Id, k: nat, now: State<Id>, next: State<Id>)
    requires k < 13 && PlaysTo(limit, id, k, now) && |now.threads| == 2
    requires Step(now, Overtaking(id)[k].thread, Overtaking(id)[k].input).Moved?
    requires next == Step(now, Overtaking(id)[k].thread, Overtaking(id)[k].input).state
    ensures PlaysTo(limit, id, k + 1, next)
  {
    RunNext(Start(limit, 2), Overtaking(id), k, now, Step(now, Overtaking(id)[k].thread, Overtaking(id)[k].input));
  }

  lemma FirstSteps<Id>(limit: nat, id: Id)
    ensures PlaysTo(limit, id, 3, Two(limit, 0, {}, AcquireToken(id), Idle, 0, 0))
  {
    assert Overtaking(id)[..0] == [];
    assert Start<Id>(limit, 2) == Two(limit, 0, {}, Idle, Idle, 0, 0);
    Play(limit, id, 0, Two(limit, 0, {}, Idle, Idle, 0, 0), Two(limit, 0, {}, AcquireLookup(id), Idle, 0, 0));
    Play(limit, id, 1, Two(limit, 0, {}, AcquireLookup(id), Idle, 0, 0), Two(limit, 0, {}, AcquireGate(id), Idle, 0, 0));
    Play(limit, id, 2, Two(limit, 0, {}, AcquireGate(id), Idle, 0, 0), Two(limit, 0, {}, AcquireToken(id), Idle, 0, 0));
  }

  lemma MiddleSteps<Id>(limit: nat, id: Id)
    requires limit >= 2
    ensures PlaysTo(limit, id, 6, Two(limit, 0, {}, AcquireToken(id), AcquireToken(id), 0, 0))
  {
    FirstSteps(limit, id);
    var l := AcquireToken(id);
    Play(limit, id, 3, Two(limit, 0, {}, l, Idle, 0, 0), Two(limit, 0, {}, l, AcquireLookup(id), 0, 0));
    Play(limit, id, 4, Two(limit, 0, {}, l, AcquireLookup(id), 0, 0), Two(limit, 0, {}, l, AcquireGate(id), 0, 0));
    Play(limit, id, 5, Two(limit, 0, {}, l, AcquireGate(id), 0, 0), Two(limit, 0, {}, l, AcquireToken(id), 0, 0));
  }

  /** The first thread comes as far as the token, the second acquires the request. */
  lemma FirstHalf<Id>(limit: nat, id: Id)
    requires limit >= 2
    ensures PlaysTo(limit, id, 8, Two(limit, 1, {id}, AcquireToken(id), Idle, 1, 0))
  {
    MiddleSteps(limit, id);
    var l := AcquireToken(id);
    Play(limit, id, 6, Two(limit, 0, {}, l, AcquireToken(id), 0, 0), Two(limit, 1, {}, l, AcquireInsert(id), 1, 0));
    Play(limit, id, 7, Two(limit, 1, {}, l, AcquireInsert(id), 1, 0), Two(limit, 1, {id}, l, Idle, 1, 0));
  }

  /** The first thread finds the request active, the second releases it. */
  lemma SecondHalf<Id>(limit: nat, id: Id)
    requires limit >= 2
    ensures PlaysTo(limit, id, 12, Two(limit, 2, {}, AcquireUndo(id), ReleaseDrain(id), 2, 0))
  {
    FirstHalf(limit, id);
    Play(limit, id, 8, Two(limit, 1, {id}, AcquireToken(id), Idle, 1, 0), Two(limit, 2, {id}, AcquireInsert(id), Idle, 2, 0));
    Play(limit, id, 9, Two(limit, 2, {id}, AcquireInsert(id), Idle, 2, 0), Two(limit, 2, {id}, AcquireUndo(id), Idle, 2, 0));
    var l := AcquireUndo(id);
    Play(limit, id, 10, Two(limit, 2, {id}, l, Idle, 2, 0), Two(limit, 2, {id}, l, ReleaseLookup(id), 2, 0));
    Play(limit, id, 11, Two(limit, 2, {id}, l, ReleaseLookup(id), 2, 0), Two(limit, 2, {}, l, ReleaseDrain(id), 2, 0));
  }

  /** For any limit above 1 and any request: a run that ends in a grant of a request that is not active. */
  lemma GrantedButReleased<Id>(limit: nat, id: Id)
    requires limit >= 2
    ensures var r := Run(Start(limit, 2), Overtaking(id));
            r.Moved? && r.outcome == Granted && id !in r.state.active
  {
    var now := Two(limit, 2, {}, AcquireUndo(id), ReleaseDrain(id), 2, 0);
    SecondHalf(limit, id);
    assert Overtaking(id)[..13] == Overtaking(id);
    RunNext(Start(limit, 2), Overtaking(id), 12, now, Step(now, 0, Asking(id)));
  }
}
