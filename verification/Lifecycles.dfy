/** One request from begin to end, among any other events: what each field of its transaction ends up with, and where from. */
module Lifecycles {
  import opened Capture
  import opened CaptureLaws

  // ----- A lifecycle within a run -----

  predicate Ends(e: Event) {
    e.ObserveRedirect? || e.FinishRequest? || e.FailRequest?
  }

  /** The correlation after the first n events. */
  function Moment(limit: nat, lib: Sanitizer, events: seq<Event>, n: nat): Correlation
    requires n <= |events|
  {
    Correlated(limit, lib, events[..n])
  }

  /** The entry that event b opens, if it opens one. */
  function EntryOf(limit: nat, lib: Sanitizer, events: seq<Event>, b: nat): nat
    requires b <= |events|
  {
    |Moment(limit, lib, events, b).transactions|
  }

  /** Event b of the run opens a transaction for its id: the id is usable and idle, and there is room. */
  ghost predicate OpensAt(limit: nat, lib: Sanitizer, events: seq<Event>, b: nat) {
    && b < |events| && events[b].BeginRequest? && events[b].id != "" && lib.validText(events[b].rawURL)
    && var c := Moment(limit, lib, events, b);
       events[b].id !in c.pending && |c.pending| < limit && |c.transactions| < limit
  }

  /** Event n is the first after b that ends the request of b. */
  ghost predicate FirstEnd(events: seq<Event>, b: nat, n: nat) {
    && b < n < |events| && events[n].id == events[b].id && Ends(events[n])
    && StillOpen(events, b, n)
  }

  /** No event between b and n ends the request of b. */
  ghost predicate StillOpen(events: seq<Event>, b: nat, n: nat) {
    b < n <= |events| && forall i | b < i < n && events[i].id == events[b].id :: !Ends(events[i])
  }

  /** The responses to the request of b before n. */
  function ResponsesBetween(events: seq<Event>, b: nat, n: nat): seq<Observation>
    requires b < n <= |events|
    decreases n
  {
    if n == b + 1 then []
    else
      var before, e := ResponsesBetween(events, b, n - 1), events[n - 1];
      if e.ObserveResponse? && e.id == events[b].id then before + [e.response] else before
  }

  /** The responses that an end brings: a redirect carries one. */
  function LastResponses(e: Event): seq<Observation> {
    if e.ObserveRedirect? then [e.response] else []
  }

  // ----- What the fields are -----

  /** The URL of the request, if it is acceptable and short enough, before and after cleaning. */
  function RecordedURL(lib: Sanitizer, raw: string): string {
    if |raw| <= MAX_URL_BYTES && lib.sanitizeURL(raw).Some? && |lib.sanitizeURL(raw).value| <= MAX_URL_BYTES
    then lib.sanitizeURL(raw).value
    else ""
  }

  /** What the request said, what the last informative response said, and the given wire size and total. */
  ghost predicate Records(
      lib: Sanitizer, t: Transaction, begin: Event, rs: seq<Observation>, wireBytes: int, totalMs: int)
    requires begin.BeginRequest?
  {
    && t.verb == lib.cleanMetadata(begin.verb)
    && t.url == RecordedURL(lib, begin.rawURL)
    && t.resourceType == lib.cleanMetadata(begin.resourceType)
    && t.status == Latest(rs, (r: Observation) => r.status, Always, 0)
    && t.connectionReused == Latest(rs, (r: Observation) => r.connectionReused, Always, false)
    && t.mimeType == Latest(rs, (r: Observation) => lib.cleanMetadata(r.mimeType), IsText, "")
    && t.protocol == Latest(rs, (r: Observation) => lib.cleanMetadata(r.protocol), IsText, "")
    && t.wireBytes == wireBytes
    && RecordsTiming(t.timing, begin.timestamp, rs, totalMs)
  }

  ghost predicate RecordsTiming(t: Timing, start: real, rs: seq<Observation>, totalMs: int) {
    && t.dnsMs == Latest(rs, (r: Observation) => r.timing.dnsMs, IsPositive, 0)
    && t.connectMs == Latest(rs, (r: Observation) => r.timing.connectMs, IsPositive, 0)
    && t.tlsMs == Latest(rs, (r: Observation) => r.timing.tlsMs, IsPositive, 0)
    && t.ttfbMs == Latest(rs, (r: Observation) => r.timing.ttfbMs, IsPositive, 0)
    && t.queueMs == Latest(rs, (r: Observation) => BoundedDurationMs(r.requestTime - start), IsPositive, 0)
    && t.totalMs == totalMs
  }

  /** The wire size is known from a finish that reports one. */
  function WireBytesAt(e: Event): int {
    if e.FinishRequest? && e.wireBytes > 0 then e.wireBytes else 0
  }

  /** The total is known from every end but a failure. */
  function TotalAt(e: Event, start: real): int {
    if e.ObserveRedirect? || e.FinishRequest? then BoundedDurationMs(e.timestamp - start) else 0
  }

  // ----- While the request is open -----

  /** Entry k is the open transaction of id, and of no other. */
  ghost predicate OwnsEntry(c: Correlation, id: string, k: nat, start: real) {
    && k < |c.transactions| && id in c.pending && c.pending[id] == Pending(k, start)
    && forall other | other in c.pending && other != id :: c.pending[other].index != k
  }

  ghost predicate InRange(c: Correlation) {
    forall id | id in c.pending :: c.pending[id].index < |c.transactions|
  }

  lemma InRangeNext(limit: nat, lib: Sanitizer, c: Correlation, e: Event)
    requires InRange(c)
    ensures InRange(Correlate(limit, lib, c, e))
  {
  }

  lemma {:induction false} IndexesInRange(limit: nat, lib: Sanitizer, events: seq<Event>)
    ensures InRange(Correlated(limit, lib, events))
  {
    if events != [] {
      IndexesInRange(limit, lib, events[..|events| - 1]);
      InRangeNext(limit, lib, Correlated(limit, lib, events[..|events| - 1]), events[|events| - 1]);
    }
  }

  lemma CorrelatedNext(limit: nat, lib: Sanitizer, events: seq<Event>, n: nat)
    requires n < |events|
    ensures Moment(limit, lib, events, n + 1) == Correlate(limit, lib, Moment(limit, lib, events, n), events[n])
  {
    assert events[..n + 1][..n] == events[..n];
  }

  lemma PatchNext(lib: Sanitizer, t: Transaction, rs: seq<Observation>, r: Observation, start: real)
    ensures PatchAll(lib, t, rs + [r], start) == PatchTransaction(lib, PatchAll(lib, t, rs, start), r, start)
  {
    assert (rs + [r])[..|rs|] == rs;
  }

  /** An event of another id leaves an open entry alone. */
  lemma OtherKeepsEntry(limit: nat, lib: Sanitizer, c: Correlation, e: Event, id: string, k: nat, start: real)
    requires OwnsEntry(c, id, k, start) && e.id != id
    requires InRange(c)
    ensures OwnsEntry(Correlate(limit, lib, c, e), id, k, start)
    ensures Correlate(limit, lib, c, e).transactions[k] == c.transactions[k]
  {
  }

  /** Opening, from a table that has the id idle. */
  lemma OpeningOwns(limit: nat, lib: Sanitizer, c: Correlation, e: Event)
    requires InRange(c) && Opens(lib, c, e) && !Refuses(limit, lib, c, e)
    ensures var next, k := Correlate(limit, lib, c, e), |c.transactions|;
            OwnsEntry(next, e.id, k, e.timestamp) && next.transactions[k] == Opened(lib, e)
  {
  }

  /** One more event while the request stays open. */
  lemma OpenStep(limit: nat, lib: Sanitizer, c: Correlation, e: Event, id: string, k: nat, start: real)
    requires OwnsEntry(c, id, k, start) && InRange(c) && (e.id == id ==> !Ends(e))
    ensures var next := Correlate(limit, lib, c, e);
            && OwnsEntry(next, id, k, start)
            && next.transactions[k] == if e.ObserveResponse? && e.id == id
                                       then PatchTransaction(lib, c.transactions[k], e.response, start) else c.transactions[k]
  {
    if e.id != id { OtherKeepsEntry(limit, lib, c, e, id, k, start); }
  }

  /** Entry k is open, and holds the opening request patched by the responses so far. */
  ghost predicate HoldsOpen(lib: Sanitizer, c: Correlation, begin: Event, k: nat, rs: seq<Observation>)
    requires begin.BeginRequest?
  {
    OwnsEntry(c, begin.id, k, begin.timestamp) && c.transactions[k] == PatchAll(lib, Opened(lib, begin), rs, begin.timestamp)
  }

  lemma OpenNext(limit: nat, lib: Sanitizer, events: seq<Event>, b: nat, n: nat, k: nat)
    requires b < n < |events| && events[b].BeginRequest?
    requires HoldsOpen(lib, Moment(limit, lib, events, n), events[b], k, ResponsesBetween(events, b, n))
    requires events[n].id == events[b].id ==> !Ends(events[n])
    ensures HoldsOpen(lib, Moment(limit, lib, events, n + 1), events[b], k, ResponsesBetween(events, b, n + 1))
  {
    var begin, e := events[b], events[n];
    IndexesInRange(limit, lib, events[..n]);
    CorrelatedNext(limit, lib, events, n);
    OpenStep(limit, lib, Moment(limit, lib, events, n), e, begin.id, k, begin.timestamp);
    if e.ObserveResponse? && e.id == begin.id {
      PatchNext(lib, Opened(lib, begin), ResponsesBetween(events, b, n), e.response, begin.timestamp);
    }
  }

  lemma OpenFirst(limit: nat, lib: Sanitizer, events: seq<Event>, b: nat)
    requires OpensAt(limit, lib, events, b)
    ensures HoldsOpen(lib, Moment(limit, lib, events, b + 1), events[b], EntryOf(limit, lib, events, b), ResponsesBetween(events, b, b + 1))
  {
    IndexesInRange(limit, lib, events[..b]);
    CorrelatedNext(limit, lib, events, b);
    OpeningOwns(limit, lib, Moment(limit, lib, events, b), events[b]);
  }

  /** While no end has been seen, the entry of the request stays open. */
  lemma {:induction false} OpenSince(limit: nat, lib: Sanitizer, events: seq<Event>, b: nat, n: nat, k: nat)
    requires StillOpen(events, b, n) && events[b].BeginRequest?
    requires HoldsOpen(lib, Moment(limit, lib, events, b + 1), events[b], k, ResponsesBetween(events, b, b + 1))
    ensures HoldsOpen(lib, Moment(limit, lib, events, n), events[b], k, ResponsesBetween(events, b, n))
    decreases n
  {
    if n > b + 1 {
      OpenSince(limit, lib, events, b, n - 1, k);
      OpenNext(limit, lib, events, b, n - 1, k);
    }
  }

  lemma OpenEntry(limit: nat, lib: Sanitizer, events: seq<Event>, b: nat, n: nat, k: nat)
    requires OpensAt(limit, lib, events, b) && StillOpen(events, b, n) && k == EntryOf(limit, lib, events, b)
    ensures HoldsOpen(lib, Moment(limit, lib, events, n), events[b], k, ResponsesBetween(events, b, n))
  {
    OpenFirst(limit, lib, events, b);
    OpenSince(limit, lib, events, b, n, k);
  }

  lemma PatchedRecords(lib: Sanitizer, begin: Event, rs: seq<Observation>)
    requires begin.BeginRequest?
    ensures Records(lib, PatchAll(lib, Opened(lib, begin), rs, begin.timestamp), begin, rs, 0, 0)
  {
    LatestObservationWins(lib, Opened(lib, begin), rs, begin.timestamp);
    LatestTimingWins(lib, Opened(lib, begin), rs, begin.timestamp);
  }

  /** The transaction of an open request: no wire size and no total yet. */
  lemma OpenRequestRecords(limit: nat, lib: Sanitizer, events: seq<Event>, b: nat, n: nat)
    requires OpensAt(limit, lib, events, b) && StillOpen(events, b, n)
    ensures var k, c := EntryOf(limit, lib, events, b), Moment(limit, lib, events, n);
            && k < |c.transactions| && events[b].id in c.pending
            && Records(lib, c.transactions[k], events[b], ResponsesBetween(events, b, n), 0, 0)
  {
    OpenEntry(limit, lib, events, b, n, EntryOf(limit, lib, events, b));
    PatchedRecords(lib, events[b], ResponsesBetween(events, b, n));
  }

  // ----- At its end, and after -----

  /** The entry of no open request. */
  ghost predicate Settled(c: Correlation, k: nat) {
    k < |c.transactions| && forall id | id in c.pending :: c.pending[id].index != k
  }

  lemma EndPatches(limit: nat, lib: Sanitizer, c: Correlation, e: Event, k: nat, start: real)
    requires Ends(e) && OwnsEntry(c, e.id, k, start)
    ensures var next, t := Correlate(limit, lib, c, e), c.transactions[k];
            && Settled(next, k) && e.id !in next.pending
            && next.transactions[k] ==
               (if e.FailRequest? then t
                else
                  var u := if e.ObserveRedirect? then PatchTransaction(lib, t, e.response, start) else t;
                  u.(wireBytes := if e.FinishRequest? && e.wireBytes > 0 then e.wireBytes else u.wireBytes,
                     timing := u.timing.(totalMs := if BoundedDurationMs(e.timestamp - start) > 0
                                                    then BoundedDurationMs(e.timestamp - start) else u.timing.totalMs)))
  {
  }

  lemma SettledStays(limit: nat, lib: Sanitizer, c: Correlation, e: Event, k: nat)
    requires Settled(c, k)
    ensures Settled(Correlate(limit, lib, c, e), k) && Correlate(limit, lib, c, e).transactions[k] == c.transactions[k]
  {
  }

  lemma EndRecords(limit: nat, lib: Sanitizer, events: seq<Event>, b: nat, f: nat)
    requires OpensAt(limit, lib, events, b) && FirstEnd(events, b, f)
    ensures var k, c := EntryOf(limit, lib, events, b), Moment(limit, lib, events, f + 1);
            && Settled(c, k)
            && Records(lib, c.transactions[k], events[b], ResponsesBetween(events, b, f) + LastResponses(events[f]),
                       WireBytesAt(events[f]), TotalAt(events[f], events[b].timestamp))
  {
    var begin, e, rs := events[b], events[f], ResponsesBetween(events, b, f);
    var k, c := EntryOf(limit, lib, events, b), Moment(limit, lib, events, f);
    OpenEntry(limit, lib, events, b, f, k);
    CorrelatedNext(limit, lib, events, f);
    EndPatches(limit, lib, c, e, k, begin.timestamp);
    PatchedRecords(lib, begin, rs + LastResponses(e));
    if e.ObserveRedirect? {
      PatchNext(lib, Opened(lib, begin), rs, e.response, begin.timestamp);
    } else {
      assert rs + LastResponses(e) == rs;
    }
  }

  ghost predicate SettledAs(c: Correlation, k: nat, t: Transaction) {
    Settled(c, k) && c.transactions[k] == t
  }

  lemma SettledSince(limit: nat, lib: Sanitizer, events: seq<Event>, k: nat, m: nat, n: nat, t: Transaction)
    requires m <= n <= |events| && SettledAs(Moment(limit, lib, events, m), k, t)
    ensures SettledAs(Moment(limit, lib, events, n), k, t)
  {
    for i := m to n
      invariant SettledAs(Moment(limit, lib, events, i), k, t)
    {
      CorrelatedNext(limit, lib, events, i);
      SettledStays(limit, lib, Moment(limit, lib, events, i), events[i], k);
    }
  }

  /**
   * A lifecycle among any other events: whatever happens afterwards, its transaction holds the request as it was opened,
   * status and reuse of its last response, every other field of the last response that had it, the wire size of a finish
   * that reports one, and the duration up to a finish or redirect.
   */
  lemma LifecycleIsRecorded(limit: nat, lib: Sanitizer, events: seq<Event>, b: nat, f: nat, n: nat)
    requires OpensAt(limit, lib, events, b) && FirstEnd(events, b, f) && f < n <= |events|
    ensures var k, c := EntryOf(limit, lib, events, b), Moment(limit, lib, events, n);
            && k < |c.transactions|
            && Records(lib, c.transactions[k], events[b], ResponsesBetween(events, b, f) + LastResponses(events[f]),
                       WireBytesAt(events[f]), TotalAt(events[f], events[b].timestamp))
  {
    EndRecords(limit, lib, events, b, f);
    var k := EntryOf(limit, lib, events, b);
    SettledSince(limit, lib, events, k, f + 1, n, Moment(limit, lib, events, f + 1).transactions[k]);
  }
}
