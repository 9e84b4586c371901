/** Relaying bytes under a shared budget: one copy loop, and any number of them at once. */
module BudgetedCopy {
  import opened Model
  import opened NavigationBudget

  type Byte = b: int | 0 <= b < 256

  const BUFFER_SIZE := 32768

  datatype ReadEnd = More | EndOfFile | ReadFailed(cause: Failure)

  datatype CopyError = BudgetError(cause: Failure) | WriteError(cause: Failure) | ShortWrite | ReadError(cause: Failure)

  // ----- One copy loop -----

  datatype ReadResult = ReadResult(bytes: seq<Byte>, end: ReadEnd)

  datatype WriteResult = WriteResult(written: nat, err: Option<Failure>)

  /** All bytes that a reader yields. */
  function Content(chunks: seq<ReadResult>): seq<Byte> {
    if chunks == [] then [] else Content(chunks[..|chunks| - 1]) + chunks[|chunks| - 1].bytes
  }

  /** A reader yields at most a buffer at a time, until it reports its end. */
  ghost predicate IsReader(chunks: seq<ReadResult>) {
    && chunks != []
    && (forall i :: 0 <= i < |chunks| ==> |chunks[i].bytes| <= BUFFER_SIZE)
    && (forall i :: 0 <= i < |chunks| ==> (chunks[i].end.More? <==> i < |chunks| - 1))
  }

  /** A writer answers each chunk, and never takes more than it is given. */
  ghost predicate IsWriterFor(chunks: seq<ReadResult>, writes: seq<WriteResult>) {
    && |writes| == |chunks|
    && forall i :: 0 <= i < |chunks| ==> writes[i].written <= |chunks[i].bytes|
  }

  ghost predicate TakesAll(chunks: seq<ReadResult>, writes: seq<WriteResult>)
    requires |writes| == |chunks|
  {
    forall i :: 0 <= i < |chunks| ==> chunks[i].bytes == [] || writes[i] == WriteResult(|chunks[i].bytes|, None)
  }

  lemma {:induction false} ContentPrefix(chunks: seq<ReadResult>, n: nat)
    requires n <= |chunks|
    ensures Content(chunks[..n]) <= Content(chunks)
    decreases |chunks|
  {
    if n < |chunks| {
      var init := chunks[..|chunks| - 1];
      ContentPrefix(init, n);
      assert init[..n] == chunks[..n];
    } else {
      assert chunks[..n] == chunks;
    }
  }

  /** The state of the loop before chunk i, as long as nothing has failed. */
  ghost predicate SoFar(chunks: seq<ReadResult>, writes: seq<WriteResult>, i: nat, delivered: seq<Byte>)
    requires |writes| == |chunks| && i <= |chunks|
  {
    delivered == Content(chunks[..i]) && TakesAll(chunks[..i], writes[..i])
  }

  /** Taking one more chunk whole keeps the state; a part of it still leaves a prefix. */
  lemma NextChunk(chunks: seq<ReadResult>, writes: seq<WriteResult>, i: nat, delivered: seq<Byte>)
    requires |writes| == |chunks| && i < |chunks|
    requires SoFar(chunks, writes, i, delivered)
    ensures delivered + chunks[i].bytes <= Content(chunks)
    ensures (chunks[i].bytes == [] || writes[i] == WriteResult(|chunks[i].bytes|, None))
              ==> SoFar(chunks, writes, i + 1, delivered + chunks[i].bytes)
  {
    assert chunks[..i + 1][..i] == chunks[..i];
    ContentPrefix(chunks, i + 1);
  }

  /** A grant for a size is possible, given that a zero size is never charged. */
  ghost predicate Fits(b: Budget, size: int) {
    size == 0 || (b.policyErr.None? && size <= b.config.maxTransferBytes - b.transferBytes)
  }

  /** Every byte that a copy delivers has been charged; nothing but the transfer count moves. */
  ghost predicate Charged(before: Budget, after: Budget, size: nat) {
    after == before.(transferBytes := before.transferBytes + size)
  }

  /** Charging one more chunk succeeds exactly when the whole so far fits. */
  lemma ChargeOne(before: Budget, now: Budget, sent: nat, size: nat)
    requires Charged(before, now, sent) && Fits(before, sent) && size > 0
    ensures Apply(now, Consume(size)).1.None? <==> Fits(before, sent + size)
    ensures Apply(now, Consume(size)).1.None? ==> Charged(before, Apply(now, Consume(size)).0, sent + size)
    ensures Apply(now, Consume(size)).1.Some? ==> Apply(now, Consume(size)).0 == now
  {
  }

  /** One round of the loop up to the read error check. */
  method CopyChunk(chunk: ReadResult, answer: WriteResult, budget: SharedBudget)
    returns (sent: seq<Byte>, err: Option<CopyError>)
    requires answer.written <= |chunk.bytes|
    modifies budget
    ensures sent <= chunk.bytes
    ensures budget.State() ==
      if chunk.bytes == [] then old(budget.State()) else Apply(old(budget.State()), Consume(|chunk.bytes|)).0
    ensures err.None? <==>
      chunk.bytes == []
      || (Apply(old(budget.State()), Consume(|chunk.bytes|)).1.None? && answer == WriteResult(|chunk.bytes|, None))
    ensures err.None? ==> sent == chunk.bytes
    ensures sent != [] ==> Apply(old(budget.State()), Consume(|chunk.bytes|)).1.None?
  {
    if |chunk.bytes| == 0 {
      return [], None;
    }
    var refused := budget.Consume(|chunk.bytes|);
    if refused.Some? {
      return [], Some(BudgetError(refused.value));
    }
    sent := chunk.bytes[..answer.written];
    if answer.err.Some? {
      return sent, Some(WriteError(answer.err.value));
    }
    if answer.written != |chunk.bytes| {
      return sent, Some(ShortWrite);
    }
    return sent, None;
  }

  /** The destination gets a prefix of the source, paid for in full; all of it exactly when nothing fails. */
  method CopyWithBudget(chunks: seq<ReadResult>, writes: seq<WriteResult>, budget: SharedBudget)
    returns (delivered: seq<Byte>, err: Option<CopyError>)
    requires IsReader(chunks) && IsWriterFor(chunks, writes)
    modifies budget
    ensures delivered <= Content(chunks)
    ensures exists paid: nat :: paid >= |delivered| && Charged(old(budget.State()), budget.State(), paid)
    ensures err.None? ==> delivered == Content(chunks) && Charged(old(budget.State()), budget.State(), |delivered|)
    ensures err.None? <==>
      (&& chunks[|chunks| - 1].end.EndOfFile?
       && TakesAll(chunks, writes)
       && Fits(old(budget.State()), |Content(chunks)|))
  {
    delivered := [];
    var i := 0;
    while true
      invariant 0 <= i < |chunks|
      invariant SoFar(chunks, writes, i, delivered)
      invariant Charged(old(budget.State()), budget.State(), |delivered|)
      invariant Fits(old(budget.State()), |delivered|)
      decreases |chunks| - i
    {
      NextChunk(chunks, writes, i, delivered);
      if chunks[i].bytes != [] {
        ChargeOne(old(budget.State()), budget.State(), |delivered|, |chunks[i].bytes|);
      }
      var sent;
      sent, err := CopyChunk(chunks[i], writes[i], budget);
      delivered := delivered + sent;
      if err.Some? {
        return;
      }
      if !chunks[i].end.More? {
        assert chunks[..i + 1] == chunks && writes[..i + 1] == writes;
        if chunks[i].end.EndOfFile? {
          return;
        }
        return delivered, Some(ReadError(chunks[i].end.cause));
      }
      i := i + 1;
    }
  }

  // ----- Any number of copies sharing one budget -----

  /** Where a copy stands between two interactions with the outside. */
  datatype Phase =
    | Reading
    | Charging(chunk: seq<Byte>, end: ReadEnd)
    | Writing(chunk: seq<Byte>, end: ReadEnd)
    | Finished(err: Option<CopyError>)

  /** taken counts the bytes read so far, paid those that the budget has granted to this copy. */
  datatype Copy = Copy(source: seq<Byte>, taken: nat, paid: nat, delivered: seq<Byte>, phase: Phase)

  datatype World = World(budget: Budget, copies: seq<Copy>)

  /** A copy interacts once, or some other connection makes any call on the shared budget. */
  datatype Event =
    | Read(copy: nat, count: nat, end: ReadEnd)
    | Charge(copy: nat)
    | Write(copy: nat, answer: WriteResult)
    | Elsewhere(call: Call)

  function AfterChunk(end: ReadEnd): Phase {
    match end
    case More => Reading
    case EndOfFile => Finished(None)
    case ReadFailed(cause) => Finished(Some(ReadError(cause)))
  }

  function Written(answer: WriteResult, chunk: seq<Byte>, end: ReadEnd): Phase {
    if answer.err.Some? then Finished(Some(WriteError(answer.err.value)))
    else if answer.written != |chunk| then Finished(Some(ShortWrite))
    else AfterChunk(end)
  }

  /** A reader hands over what comes next, and reports its end of file only when nothing is left. */
  predicate CanRead(c: Copy, count: nat, end: ReadEnd) {
    && c.phase.Reading?
    && count <= BUFFER_SIZE
    && c.taken + count <= |c.source|
    && (end.EndOfFile? ==> c.taken + count == |c.source|)
  }

  function ReadStep(c: Copy, count: nat, end: ReadEnd): Copy
    requires CanRead(c, count, end)
  {
    var chunk := c.source[c.taken..c.taken + count];
    c.(taken := c.taken + count, phase := if count > 0 then Charging(chunk, end) else AfterChunk(end))
  }

  function ChargeStep(c: Copy, refused: Option<Failure>): Copy
    requires c.phase.Charging?
  {
    if refused.Some? then c.(phase := Finished(Some(BudgetError(refused.value))))
    else c.(paid := c.paid + |c.phase.chunk|, phase := Writing(c.phase.chunk, c.phase.end))
  }

  function WriteStep(c: Copy, answer: WriteResult): Copy
    requires c.phase.Writing? && answer.written <= |c.phase.chunk|
  {
    c.(delivered := c.delivered + c.phase.chunk[..answer.written],
       phase := Written(answer, c.phase.chunk, c.phase.end))
  }

  /** The next world, if the event is possible. */
  function StepWorld(w: World, e: Event): Option<World> {
    match e
    case Read(i, count, end) =>
      if i < |w.copies| && CanRead(w.copies[i], count, end) then
        Some(w.(copies := w.copies[i := ReadStep(w.copies[i], count, end)]))
      else None
    case Charge(i) =>
      if i < |w.copies| && w.copies[i].phase.Charging? then
        var applied := Apply(w.budget, Consume(|w.copies[i].phase.chunk|));
        Some(World(applied.0, w.copies[i := ChargeStep(w.copies[i], applied.1)]))
      else None
    case Write(i, answer) =>
      if i < |w.copies| && w.copies[i].phase.Writing? && answer.written <= |w.copies[i].phase.chunk| then
        Some(w.(copies := w.copies[i := WriteStep(w.copies[i], answer)]))
      else None
    case Elsewhere(call) => Some(w.(budget := Apply(w.budget, call).0))
  }

  /** What every interaction keeps of one copy. */
  ghost predicate CopyInv(c: Copy) {
    && c.taken <= |c.source|
    && |c.delivered| <= c.paid
    && match c.phase
       case Reading => c.delivered == c.source[..c.taken] && c.paid == c.taken
       case Charging(chunk, end) =>
         && |chunk| > 0
         && c.delivered + chunk == c.source[..c.taken]
         && c.paid + |chunk| == c.taken
         && (end.EndOfFile? ==> c.taken == |c.source|)
       case Writing(chunk, end) =>
         && |chunk| > 0
         && c.delivered + chunk == c.source[..c.taken]
         && c.paid == c.taken
         && (end.EndOfFile? ==> c.taken == |c.source|)
       case Finished(err) =>
         && c.delivered <= c.source
         && (err.None? ==> c.delivered == c.source && c.paid == |c.source|)
  }

  lemma ReadKeeps(c: Copy, count: nat, end: ReadEnd)
    requires CopyInv(c) && CanRead(c, count, end)
    ensures CopyInv(ReadStep(c, count, end)) && ReadStep(c, count, end).paid == c.paid
  {
    assert c.source[..c.taken] + c.source[c.taken..c.taken + count] == c.source[..c.taken + count];
  }

  lemma ChargeKeeps(c: Copy, refused: Option<Failure>)
    requires CopyInv(c) && c.phase.Charging?
    ensures CopyInv(ChargeStep(c, refused))
  {
    assert c.delivered <= c.source[..c.taken];
  }

  lemma WriteKeeps(c: Copy, answer: WriteResult)
    requires CopyInv(c) && c.phase.Writing? && answer.written <= |c.phase.chunk|
    ensures CopyInv(WriteStep(c, answer)) && WriteStep(c, answer).paid == c.paid
  {
    var all := c.delivered + c.phase.chunk;
    assert c.delivered + c.phase.chunk[..answer.written] == all[..|c.delivered| + answer.written];
    assert answer.written == |c.phase.chunk| ==> c.phase.chunk[..answer.written] == c.phase.chunk;
  }

  // ----- Totals -----

  function TotalPaid(copies: seq<Copy>): nat {
    if copies == [] then 0 else TotalPaid(copies[..|copies| - 1]) + copies[|copies| - 1].paid
  }

  function TotalDelivered(copies: seq<Copy>): nat {
    if copies == [] then 0 else TotalDelivered(copies[..|copies| - 1]) + |copies[|copies| - 1].delivered|
  }

  lemma {:induction false} PaidUpdate(copies: seq<Copy>, i: nat, c: Copy)
    requires i < |copies|
    ensures TotalPaid(copies[i := c]) == TotalPaid(copies) - copies[i].paid + c.paid
  {
    var last := |copies| - 1;
    if i == last {
      assert copies[i := c][..last] == copies[..last];
    } else {
      PaidUpdate(copies[..last], i, c);
      assert copies[i := c][..last] == copies[..last][i := c];
    }
  }

  lemma {:induction false} DeliveredAtMostPaid(copies: seq<Copy>)
    requires forall i | 0 <= i < |copies| :: CopyInv(copies[i])
    ensures TotalDelivered(copies) <= TotalPaid(copies)
  {
    if copies != [] { DeliveredAtMostPaid(copies[..|copies| - 1]); }
  }

  ghost predicate WorldInv(w: World) {
    && Inv(w.budget)
    && (forall i | 0 <= i < |w.copies| :: CopyInv(w.copies[i]))
    && TotalPaid(w.copies) <= w.budget.transferBytes
  }

  function StartWorld(config: Config, sources: seq<seq<Byte>>): World {
    World(NewBudget(config), seq(|sources|, i requires 0 <= i < |sources| => Copy(sources[i], 0, 0, [], Reading)))
  }

  lemma {:induction false} NothingPaidYet(copies: seq<Copy>)
    requires forall i | 0 <= i < |copies| :: copies[i].paid == 0
    ensures TotalPaid(copies) == 0
  {
    if copies != [] { NothingPaidYet(copies[..|copies| - 1]); }
  }

  lemma CallKeeps(b: Budget, call: Call)
    requires Inv(b)
    ensures Inv(Apply(b, call).0) && Apply(b, call).0.config == b.config
    ensures Apply(b, call).0.transferBytes == b.transferBytes + Grant(b, call)
  {
  }

  lemma StepKeeps(w: World, e: Event)
    requires WorldInv(w) && StepWorld(w, e).Some?
    ensures WorldInv(StepWorld(w, e).value)
  {
    match e
    case Read(i, count, end) =>
      ReadKeeps(w.copies[i], count, end);
      PaidUpdate(w.copies, i, ReadStep(w.copies[i], count, end));
    case Charge(i) =>
      var call := Consume(|w.copies[i].phase.chunk|);
      CallKeeps(w.budget, call);
      ChargeKeeps(w.copies[i], Apply(w.budget, call).1);
      PaidUpdate(w.copies, i, ChargeStep(w.copies[i], Apply(w.budget, call).1));
    case Write(i, answer) =>
      WriteKeeps(w.copies[i], answer);
      PaidUpdate(w.copies, i, WriteStep(w.copies[i], answer));
    case Elsewhere(call) => CallKeeps(w.budget, call);
  }

  /** The same copies of the same sources, under the same limits. */
  ghost predicate SameCopies(from: World, to: World) {
    && to.budget.config == from.budget.config
    && |to.copies| == |from.copies|
    && forall i | 0 <= i < |from.copies| :: to.copies[i].source == from.copies[i].source
  }

  lemma StepSameCopies(w: World, e: Event)
    requires StepWorld(w, e).Some?
    ensures SameCopies(w, StepWorld(w, e).value)
  {
  }

  /** The world after a run of events, if each of them was possible. */
  function RunWorld(from: World, events: seq<Event>): Option<World> {
    if events == [] then Some(from)
    else
      var before := RunWorld(from, events[..|events| - 1]);
      if before.None? then None else StepWorld(before.value, events[|events| - 1])
  }

  lemma {:induction false} RunsKeepWorldInv(from: World, events: seq<Event>)
    requires WorldInv(from) && RunWorld(from, events).Some?
    ensures WorldInv(RunWorld(from, events).value)
    ensures SameCopies(from, RunWorld(from, events).value)
  {
    if events != [] {
      var before := RunWorld(from, events[..|events| - 1]).value;
      RunsKeepWorldInv(from, events[..|events| - 1]);
      StepKeeps(before, events[|events| - 1]);
      StepSameCopies(before, events[|events| - 1]);
    }
  }

  /**
   * However many copies share the budget, and whatever else is done to it in between: each destination holds a prefix
   * of its source, the whole of it once its copy has ended without an error, and all destinations together never hold
   * more than the bytes charged, nor more than the configured limit.
   */
  lemma ConcurrentCopiesAreBounded(config: Config, sources: seq<seq<Byte>>, events: seq<Event>, w: World)
    requires ValidConfig(config)
    requires RunWorld(StartWorld(config, sources), events) == Some(w)
    ensures |w.copies| == |sources|
    ensures forall i | 0 <= i < |sources| :: w.copies[i].delivered <= sources[i]
    ensures forall i | 0 <= i < |sources| :: w.copies[i].phase == Finished(None) ==> w.copies[i].delivered == sources[i]
    ensures TotalDelivered(w.copies) <= w.budget.transferBytes <= config.maxTransferBytes
  {
    var start := StartWorld(config, sources);
    NothingPaidYet(start.copies);
    RunsKeepWorldInv(start, events);
    DeliveredAtMostPaid(w.copies);
    forall i | 0 <= i < |sources| ensures w.copies[i].delivered <= sources[i] {
      DeliveredIsPrefix(w.copies[i]);
    }
  }

  lemma DeliveredIsPrefix(c: Copy)
    requires CopyInv(c)
    ensures c.delivered <= c.source
  {
    if c.phase.Charging? || c.phase.Writing? {
      assert c.delivered <= c.delivered + c.phase.chunk;
    }
  }
}
