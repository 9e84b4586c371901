/**
 * The browser request tracker as a step system. A channel of capacity limit counts tokens, a mutex guards the set of
 * active requests, and acquire, release and releaseAll touch the two in separate critical sections. Any number of
 * threads may interleave between any two of these sections.
 */
module RequestTracker {

  // ----- States and steps -----

  datatype Operation<Id> = Acquire(id: Id) | Release(id: Id) | ReleaseAll

  /** Where a thread stands, named after the section that it executes next. */
  datatype Local<Id> =
    | Idle
    | AcquireLookup(id: Id)
    | AcquireGate(id: Id)
    | AcquireToken(id: Id)
    | AcquireInsert(id: Id)
    | AcquireUndo(id: Id)
    | ReleaseLookup(id: Id)
    | ReleaseDrain(id: Id)
    | ReleaseAllClear
    | ReleaseAllDrain(count: nat)

  /** What an operation reports when it ends. */
  datatype Outcome = Pending | Granted | Refused | Cancelled | Released

  /** pushed and drained record every token put into and taken out of the channel. */
  datatype State<Id> = State(
    limit: nat, tokens: nat, active: set<Id>, threads: seq<Local<Id>>, pushed: nat, drained: nat)

  /** The environment: the operation that an idle thread starts, and what the select on stopped and the context yields. */
  datatype Input<Id> = Input(start: Operation<Id>, stopped: bool, cancelled: bool)

  datatype StepResult<Id> = Blocked | Moved(state: State<Id>, outcome: Outcome)

  function Begin<Id>(op: Operation<Id>): Local<Id> {
    match op
    case Acquire(id) => AcquireLookup(id)
    case Release(id) => ReleaseLookup(id)
    case ReleaseAll => ReleaseAllClear
  }

  function Goto<Id>(s: State<Id>, t: nat, l: Local<Id>): State<Id>
    requires t < |s.threads|
  {
    s.(threads := s.threads[t := l])
  }

  /** A blocking receive: it moves only if there is a token. */
  function Drain<Id>(s: State<Id>, t: nat, l: Local<Id>, outcome: Outcome): StepResult<Id>
    requires t < |s.threads|
  {
    if s.tokens == 0 then Blocked
    else Moved(Goto(s, t, l).(tokens := s.tokens - 1, drained := s.drained + 1), outcome)
  }

  /** One section of thread t. When both channels of the gate are ready, either may be chosen. */
  function Step<Id>(s: State<Id>, t: nat, input: Input<Id>): StepResult<Id>
    requires t < |s.threads|
  {
    match s.threads[t]
    case Idle => Moved(Goto(s, t, Begin(input.start)), Pending)
    case AcquireLookup(id) =>
      if id in s.active then Moved(Goto(s, t, Idle), Granted) else Moved(Goto(s, t, AcquireGate(id)), Pending)
    case AcquireGate(id) =>
      if input.stopped then Moved(Goto(s, t, Idle), Refused)
      else if input.cancelled then Moved(Goto(s, t, Idle), Cancelled)
      else Moved(Goto(s, t, AcquireToken(id)), Pending)
    case AcquireToken(id) =>
      if s.tokens < s.limit then
        Moved(Goto(s, t, AcquireInsert(id)).(tokens := s.tokens + 1, pushed := s.pushed + 1), Pending)
      else Moved(Goto(s, t, Idle), Refused)
    case AcquireInsert(id) =>
      if id in s.active then Moved(Goto(s, t, AcquireUndo(id)), Pending)
      else Moved(Goto(s, t, Idle).(active := s.active + {id}), Granted)
    case AcquireUndo(_) => Drain(s, t, Idle, Granted)
    case ReleaseLookup(id) =>
      if id !in s.active then Moved(Goto(s, t, Idle), Released)
      else Moved(Goto(s, t, ReleaseDrain(id)).(active := s.active - {id}), Pending)
    case ReleaseDrain(_) => Drain(s, t, Idle, Released)
    case ReleaseAllClear => Moved(Goto(s, t, ReleaseAllDrain(|s.active|)).(active := {}), Pending)
    case ReleaseAllDrain(count) =>
      if count == 0 then Moved(Goto(s, t, Idle), Released)
      else Drain(s, t, ReleaseAllDrain(count - 1), Pending)
  }

  function Start<Id>(limit: nat, n: nat): State<Id> {
    State(limit, 0, {}, seq(n, _ => Idle), 0, 0)
  }

  // ----- The invariant -----

  /** Tokens that a thread has to hand on: to the active set, or back to the channel. */
  function Held<Id>(l: Local<Id>): nat {
    match l
    case AcquireInsert(_) => 1
    case AcquireUndo(_) => 1
    case ReleaseDrain(_) => 1
    case ReleaseAllDrain(count) => count
    case _ => 0
  }

  function HeldByAll<Id>(threads: seq<Local<Id>>): nat {
    if threads == [] then 0 else HeldByAll(threads[..|threads| - 1]) + Held(threads[|threads| - 1])
  }

  lemma {:induction false} HeldUpdate<Id>(threads: seq<Local<Id>>, t: nat, l: Local<Id>)
    requires t < |threads|
    ensures HeldByAll(threads[t := l]) == HeldByAll(threads) - Held(threads[t]) + Held(l)
    ensures Held(threads[t]) <= HeldByAll(threads)
  {
    var last := |threads| - 1;
    if t == last {
      assert threads[t := l][..last] == threads[..last];
    } else {
      HeldUpdate(threads[..last], t, l);
      assert threads[t := l][..last] == threads[..last][t := l];
    }
  }

  lemma {:induction false} IdleHoldsNothing<Id>(threads: seq<Local<Id>>)
    requires forall t | 0 <= t < |threads| :: threads[t].Idle?
    ensures HeldByAll(threads) == 0
  {
    if threads != [] { IdleHoldsNothing(threads[..|threads| - 1]); }
  }

  /** Every token in the channel belongs to one active request or to one thread in mid-operation. */
  ghost predicate Inv<Id>(s: State<Id>) {
    && s.tokens == |s.active| + HeldByAll(s.threads)
    && s.tokens <= s.limit
    && s.pushed == s.drained + s.tokens
  }

  lemma StartInv<Id>(limit: nat, n: nat)
    ensures Inv<Id>(Start(limit, n))
  {
    IdleHoldsNothing<Id>(Start(limit, n).threads);
  }

  /** Changing the active set by one request changes its size by one. */
  lemma OneMore<Id>(active: set<Id>, id: Id)
    ensures id !in active ==> |active + {id}| == |active| + 1
    ensures id in active ==> |active - {id}| == |active| - 1
  {
  }

  /** Tokens in the channel change with the active set and with what the moving thread holds. */
  ghost predicate InStep<Id>(s: State<Id>, t: nat, next: State<Id>)
    requires t < |s.threads| && t < |next.threads|
  {
    next.tokens - s.tokens == |next.active| - |s.active| + Held(next.threads[t]) - Held(s.threads[t])
  }

  /** A section keeps the invariant if tokens, active requests and held tokens change in step. */
  lemma Balanced<Id>(s: State<Id>, t: nat, next: State<Id>)
    requires Inv(s) && t < |s.threads| && |next.threads| == |s.threads|
    requires next.threads == s.threads[t := next.threads[t]] && next.limit == s.limit && next.tokens <= next.limit
    requires InStep(s, t, next)
    requires next.pushed - s.pushed == next.tokens - s.tokens + next.drained - s.drained
    ensures Inv(next)
  {
    HeldUpdate(s.threads, t, next.threads[t]);
  }

  lemma InsertBalances<Id>(s: State<Id>, t: nat, input: Input<Id>)
    requires t < |s.threads| && s.threads[t].AcquireInsert? && Step(s, t, input).Moved?
    ensures InStep(s, t, Step(s, t, input).state)
  {
    OneMore(s.active, s.threads[t].id);
  }

  lemma LookupBalances<Id>(s: State<Id>, t: nat, input: Input<Id>)
    requires t < |s.threads| && s.threads[t].ReleaseLookup? && Step(s, t, input).Moved?
    ensures InStep(s, t, Step(s, t, input).state)
  {
    OneMore(s.active, s.threads[t].id);
  }

  lemma ClearBalances<Id>(s: State<Id>, t: nat, input: Input<Id>)
    requires t < |s.threads| && s.threads[t].ReleaseAllClear? && Step(s, t, input).Moved?
    ensures InStep(s, t, Step(s, t, input).state)
  {
  }

  lemma StepBalances<Id>(s: State<Id>, t: nat, input: Input<Id>)
    requires t < |s.threads| && Step(s, t, input).Moved?
    ensures InStep(s, t, Step(s, t, input).state)
  {
    match s.threads[t]
    case AcquireInsert(_) => InsertBalances(s, t, input);
    case ReleaseLookup(_) => LookupBalances(s, t, input);
    case ReleaseAllClear => ClearBalances(s, t, input);
    case _ =>
  }

  lemma StepFrames<Id>(s: State<Id>, t: nat, input: Input<Id>)
    requires t < |s.threads| && Step(s, t, input).Moved? && s.tokens <= s.limit
    ensures var next := Step(s, t, input).state;
            && |next.threads| == |s.threads| && next.threads == s.threads[t := next.threads[t]]
            && next.limit == s.limit && next.tokens <= next.limit
            && next.pushed - s.pushed == next.tokens - s.tokens + next.drained - s.drained
  {
  }

  lemma StepKeepsInv<Id>(s: State<Id>, t: nat, input: Input<Id>)
    requires Inv(s) && t < |s.threads| && Step(s, t, input).Moved?
    ensures Inv(Step(s, t, input).state)
    ensures Step(s, t, input).state.limit == s.limit && |Step(s, t, input).state.threads| == |s.threads|
  {
    StepBalances(s, t, input);
    StepFrames(s, t, input);
    Balanced(s, t, Step(s, t, input).state);
  }

  /** No thread ever waits: a drain is only reached with a token of one's own in the channel. */
  lemma NeverBlocked<Id>(s: State<Id>, t: nat, input: Input<Id>)
    requires Inv(s) && t < |s.threads|
    ensures Step(s, t, input).Moved?
  {
    HeldUpdate(s.threads, t, s.threads[t]);
  }

  // ----- Runs -----

  datatype Move<Id> = Move(thread: nat, input: Input<Id>)

  /** Any interleaving. A run is stuck if some move is blocked or names no thread. */
  ghost function Run<Id>(s: State<Id>, moves: seq<Move<Id>>): StepResult<Id> {
    if moves == [] then Moved(s, Pending)
    else
      var before := Run(s, moves[..|moves| - 1]);
      var last := moves[|moves| - 1];
      if before.Blocked? || last.thread >= |before.state.threads| then Blocked
      else Step(before.state, last.thread, last.input)
  }

  /** Over every interleaving of any number of threads: no run gets stuck, and never more than limit requests are active. */
  lemma {:induction false} RunsAreSafe<Id>(limit: nat, n: nat, moves: seq<Move<Id>>)
    requires forall i | 0 <= i < |moves| :: moves[i].thread < n
    ensures Run(Start(limit, n), moves).Moved?
    ensures var s := Run(Start(limit, n), moves).state;
            && Inv(s) && s.limit == limit && |s.threads| == n
            && |s.active| <= limit
  {
    if moves == [] {
      StartInv<Id>(limit, n);
    } else {
      var init, last := moves[..|moves| - 1], moves[|moves| - 1];
      RunsAreSafe(limit, n, init);
      var s := Run(Start(limit, n), init).state;
      NeverBlocked(s, last.thread, last.input);
      StepKeepsInv(s, last.thread, last.input);
    }
  }

  ghost predicate Quiet<Id>(s: State<Id>) {
    forall t | 0 <= t < |s.threads| :: s.threads[t].Idle?
  }

  /** Between operations every token stands for an active request, so with none active every token was returned once. */
  lemma QuietRunsBalance<Id>(limit: nat, n: nat, moves: seq<Move<Id>>)
    requires forall i | 0 <= i < |moves| :: moves[i].thread < n
    requires Run(Start(limit, n), moves).Moved? && Quiet(Run(Start(limit, n), moves).state)
    ensures var s := Run(Start(limit, n), moves).state;
            && s.tokens == |s.active|
            && s.pushed - s.drained == |s.active|
  {
    RunsAreSafe(limit, n, moves);
    IdleHoldsNothing(Run(Start(limit, n), moves).state.threads);
  }

  // ----- Progress -----

  /** Sections that an operation still has to execute, at most. */
  function Remaining<Id>(l: Local<Id>, limit: nat): nat {
    match l
    case Idle => 0
    case AcquireLookup(_) => 5
    case AcquireGate(_) => 4
    case AcquireToken(_) => 3
    case AcquireInsert(_) => 2
    case AcquireUndo(_) => 1
    case ReleaseLookup(_) => 2
    case ReleaseDrain(_) => 1
    case ReleaseAllClear => limit + 2
    case ReleaseAllDrain(count) => count + 1
  }

  /** However the threads interleave, an operation ends after at most max(5, limit + 2) sections of its own. */
  lemma EveryStepProgresses<Id>(s: State<Id>, t: nat, u: nat, input: Input<Id>)
    requires Inv(s) && t < |s.threads| && u < |s.threads| && !s.threads[t].Idle?
    ensures var next := Step(s, t, input);
            && next.Moved?
            && Remaining(next.state.threads[t], s.limit) < Remaining(s.threads[t], s.limit)
            && (next.outcome != Pending <==> next.state.threads[t].Idle?)
            && (u != t ==> next.state.threads[u] == s.threads[u])
  {
    NeverBlocked(s, t, input);
  }

  /** Only three sections change the active set: one adds, one removes, one clears. */
  lemma ActiveChangesAtomically<Id>(s: State<Id>, t: nat, input: Input<Id>)
    requires t < |s.threads| && Step(s, t, input).Moved?
    ensures var next := Step(s, t, input).state.active;
            match s.threads[t]
            case AcquireInsert(id) => next == s.active + {id}
            case ReleaseLookup(id) => next == s.active - {id}
            case ReleaseAllClear => next == {}
            case _ => next == s.active
  {
  }

  /** An acquire is granted only where its request is active, and refused for capacity only where the channel is full. */
  lemma OutcomesAreHonest<Id>(s: State<Id>, t: nat, input: Input<Id>)
    requires Inv(s) && t < |s.threads| && Step(s, t, input).Moved?
    ensures var next := Step(s, t, input);
            && (next.outcome == Granted && !s.threads[t].AcquireUndo? ==>
                  (s.threads[t].AcquireLookup? || s.threads[t].AcquireInsert?) && s.threads[t].id in next.state.active)
            && (next.outcome == Refused ==>
                  || (s.threads[t].AcquireGate? && input.stopped)
                  || (s.threads[t].AcquireToken? && |s.active| + HeldByAll(s.threads) == s.limit))
  {
  }

  // ----- One operation alone -----

  /** Runs thread t to the end of its operation with no other thread in between. */
  ghost function Finish<Id>(s: State<Id>, t: nat, input: Input<Id>): StepResult<Id>
    requires Inv(s) && t < |s.threads| && !s.threads[t].Idle?
    decreases Remaining(s.threads[t], s.limit)
  {
    EveryStepProgresses(s, t, t, input);
    StepKeepsInv(s, t, input);
    var next := Step(s, t, input);
    if next.state.threads[t].Idle? then next else Finish(next.state, t, input)
  }

  ghost function Perform<Id>(s: State<Id>, t: nat, input: Input<Id>): StepResult<Id>
    requires Inv(s) && t < |s.threads| && s.threads[t].Idle?
  {
    StepKeepsInv(s, t, input);
    Finish(Step(s, t, input).state, t, input)
  }

  /** Thread t ends with this outcome, leaving these requests active and every other thread where it was. */
  ghost predicate Ends<Id>(s: State<Id>, t: nat, input: Input<Id>, outcome: Outcome, active: set<Id>)
    requires Inv(s) && t < |s.threads| && !s.threads[t].Idle?
  {
    var r := Finish(s, t, input);
    r.Moved? && r.outcome == outcome && r.state.active == active && r.state.threads == s.threads[t := Idle] && Inv(r.state)
  }

  /** The first section of a thread's rest run, then what follows it. */
  lemma EndsLater<Id>(s: State<Id>, t: nat, input: Input<Id>, outcome: Outcome, active: set<Id>)
    requires Inv(s) && t < |s.threads| && !s.threads[t].Idle?
    requires Step(s, t, input).Moved?
    requires var next := Step(s, t, input);
             if next.state.threads[t].Idle? then next.outcome == outcome && next.state.active == active
             else Inv(next.state) && |next.state.threads| == |s.threads| && Ends(next.state, t, input, outcome, active)
    ensures Ends(s, t, input, outcome, active)
  {
    StepKeepsInv(s, t, input);
    var next := Step(s, t, input).state;
    assert next.threads == s.threads[t := next.threads[t]];
    assert next.threads[t := Idle] == s.threads[t := Idle];
  }

  lemma InsertEnds<Id>(s: State<Id>, t: nat, id: Id, input: Input<Id>)
    requires Inv(s) && t < |s.threads| && s.threads[t] == AcquireInsert(id) && id !in s.active
    ensures Ends(s, t, input, Granted, s.active + {id})
  {
    EndsLater(s, t, input, Granted, s.active + {id});
  }

  lemma TokenEnds<Id>(s: State<Id>, t: nat, id: Id, input: Input<Id>)
    requires Inv(s) && t < |s.threads| && s.threads[t] == AcquireToken(id) && id !in s.active
    ensures Ends(s, t, input, if s.tokens < s.limit then Granted else Refused, if s.tokens < s.limit then s.active + {id} else s.active)
  {
    if s.tokens < s.limit {
      StepKeepsInv(s, t, input);
      InsertEnds(Step(s, t, input).state, t, id, input);
      EndsLater(s, t, input, Granted, s.active + {id});
    } else {
      EndsLater(s, t, input, Refused, s.active);
    }
  }

  lemma GateEnds<Id>(s: State<Id>, t: nat, id: Id, input: Input<Id>)
    requires Inv(s) && t < |s.threads| && s.threads[t] == AcquireGate(id) && id !in s.active
    requires !input.stopped && !input.cancelled
    ensures Ends(s, t, input, if s.tokens < s.limit then Granted else Refused, if s.tokens < s.limit then s.active + {id} else s.active)
  {
    StepKeepsInv(s, t, input);
    TokenEnds(Step(s, t, input).state, t, id, input);
    EndsLater(s, t, input, if s.tokens < s.limit then Granted else Refused, if s.tokens < s.limit then s.active + {id} else s.active);
  }

  lemma LookupEnds<Id>(s: State<Id>, t: nat, id: Id, input: Input<Id>)
    requires Inv(s) && t < |s.threads| && s.threads[t] == AcquireLookup(id)
    requires !input.stopped && !input.cancelled
    ensures id in s.active ==> Ends(s, t, input, Granted, s.active)
    ensures id !in s.active ==>
            Ends(s, t, input, if s.tokens < s.limit then Granted else Refused, if s.tokens < s.limit then s.active + {id} else s.active)
  {
    if id in s.active {
      EndsLater(s, t, input, Granted, s.active);
    } else {
      StepKeepsInv(s, t, input);
      GateEnds(Step(s, t, input).state, t, id, input);
      EndsLater(s, t, input, if s.tokens < s.limit then Granted else Refused, if s.tokens < s.limit then s.active + {id} else s.active);
    }
  }

  lemma {:induction false} DrainAllEnds<Id>(s: State<Id>, t: nat, input: Input<Id>)
    requires Inv(s) && t < |s.threads| && s.threads[t].ReleaseAllDrain?
    ensures Ends(s, t, input, Released, s.active)
    decreases s.threads[t].count
  {
    NeverBlocked(s, t, input);
    StepKeepsInv(s, t, input);
    if s.threads[t].count > 0 { DrainAllEnds(Step(s, t, input).state, t, input); }
    EndsLater(s, t, input, Released, s.active);
  }

  /** An operation that starts and ends on a quiet tracker leaves it quiet. */
  lemma QuietAgain<Id>(s: State<Id>, t: nat, input: Input<Id>, outcome: Outcome, active: set<Id>)
    requires Inv(s) && Quiet(s) && t < |s.threads|
    requires Inv(Step(s, t, input).state) && Ends(Step(s, t, input).state, t, input, outcome, active)
    ensures var r := Perform(s, t, input);
            && r.Moved? && r.outcome == outcome && r.state.active == active
            && Quiet(r.state) && r.state.tokens == |active|
  {
    IdleHoldsNothing(Perform(s, t, input).state.threads);
  }

  /**
   * Alone, acquire is the sequential operation: it grants a request that is active or fits, adding it once, and
   * otherwise refuses it and changes nothing.
   */
  lemma SoloAcquire<Id>(s: State<Id>, t: nat, id: Id, input: Input<Id>)
    requires Inv(s) && Quiet(s) && t < |s.threads|
    requires input.start == Acquire(id) && !input.stopped && !input.cancelled
    ensures var r := Perform(s, t, input);
            && r.Moved? && Quiet(r.state) && r.state.tokens == |r.state.active|
            && (id in s.active || |s.active| < s.limit ==> r.outcome == Granted && r.state.active == s.active + {id})
            && (id !in s.active && |s.active| == s.limit ==> r.outcome == Refused && r.state.active == s.active)
  {
    IdleHoldsNothing(s.threads);
    StepKeepsInv(s, t, input);
    var a := Step(s, t, input).state;
    LookupEnds(a, t, id, input);
    if id in s.active {
      QuietAgain(s, t, input, Granted, s.active);
      assert s.active + {id} == s.active;
    } else {
      QuietAgain(s, t, input, if a.tokens < a.limit then Granted else Refused, if a.tokens < a.limit then s.active + {id} else s.active);
    }
  }

  /** Alone, release undoes an acquire, and is without effect on a request that is not active. */
  lemma SoloRelease<Id>(s: State<Id>, t: nat, id: Id, input: Input<Id>)
    requires Inv(s) && Quiet(s) && t < |s.threads| && input.start == Release(id)
    ensures var r := Perform(s, t, input);
            && r.Moved? && Quiet(r.state) && r.state.tokens == |r.state.active| && r.outcome == Released
            && r.state.active == s.active - {id}
  {
    StepKeepsInv(s, t, input);
    var a := Step(s, t, input).state;
    if id in s.active {
      StepKeepsInv(a, t, input);
      var b := Step(a, t, input).state;
      NeverBlocked(b, t, input);
      EndsLater(b, t, input, Released, s.active - {id});
    } else {
      assert s.active - {id} == s.active;
    }
    EndsLater(a, t, input, Released, s.active - {id});
    QuietAgain(s, t, input, Released, s.active - {id});
  }

  /** Alone, releaseAll empties the tracker and its channel. */
  lemma SoloReleaseAll<Id>(s: State<Id>, t: nat, input: Input<Id>)
    requires Inv(s) && Quiet(s) && t < |s.threads| && input.start == ReleaseAll
    ensures var r := Perform(s, t, input);
            && r.Moved? && Quiet(r.state) && r.outcome == Released
            && r.state.active == {} && r.state.tokens == 0
  {
    StepKeepsInv(s, t, input);
    var a := Step(s, t, input).state;
    StepKeepsInv(a, t, input);
    DrainAllEnds(Step(a, t, input).state, t, input);
    EndsLater(a, t, input, Released, {});
    QuietAgain(s, t, input, Released, {});
  }
}
