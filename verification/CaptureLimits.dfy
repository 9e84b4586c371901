/** What the ceilings of the collector cut off, and which flags and warnings admit it. */
module CaptureLimits {
  import opened Model
  import opened Ordering
  import opened Interleaving
  import opened Capture
  import opened CaptureLaws

  // ----- Transactions -----

  lemma {:induction false} NoMorePendingThanTransactions(limit: nat, lib: Sanitizer, events: seq<Event>)
    ensures |Correlated(limit, lib, events).pending| <= |Correlated(limit, lib, events).transactions| <= limit
  {
    if events != [] {
      NoMorePendingThanTransactions(limit, lib, events[..|events| - 1]);
      PendingStep(limit, lib, Correlated(limit, lib, events[..|events| - 1]), events[|events| - 1]);
    }
  }

  lemma PendingStep(limit: nat, lib: Sanitizer, c: Correlation, e: Event)
    requires |c.pending| <= |c.transactions| <= limit
    ensures |Correlate(limit, lib, c, e).pending| <= |Correlate(limit, lib, c, e).transactions| <= limit
  {
    if !e.BeginRequest? {
      var rest := c.pending - {e.id};
      assert rest.Keys <= c.pending.Keys;
      KeysBound(rest, c.pending);
    } else {
      assert Opens(lib, c, e) ==> c.pending[e.id := Pending(|c.transactions|, e.timestamp)].Keys == c.pending.Keys + {e.id};
    }
  }

  lemma KeysBound(m: map<string, Pending>, n: map<string, Pending>)
    requires m.Keys <= n.Keys
    ensures |m| <= |n|
  {
    assert n.Keys == m.Keys + (n.Keys - m.Keys);
    assert |m| == |m.Keys| && |n| == |n.Keys|;
  }

  /** The ceiling on pending requests never turns away an event that the ceiling on transactions would let in. */
  lemma PendingCeilingIsRedundant(limit: nat, lib: Sanitizer, events: seq<Event>, e: Event)
    ensures var c := Correlated(limit, lib, events);
            Refuses(limit, lib, c, e) <==> Opens(lib, c, e) && |c.transactions| == limit
  {
    NoMorePendingThanTransactions(limit, lib, events);
  }

  /** The smaller collector holds the first transactions of the larger one, patched alike. */
  ghost predicate Truncates(limit: nat, small: Correlation, large: Correlation) {
    && |small.transactions| == Min(limit, |large.transactions|)
    && small.transactions == large.transactions[..|small.transactions|]
    && (forall id :: id in small.pending <==> id in large.pending && large.pending[id].index < |small.transactions|)
    && (forall id | id in small.pending :: small.pending[id] == large.pending[id])
    && (forall id | id in large.pending :: large.pending[id].index < |large.transactions|)
  }

  lemma TruncatedBegin(limit: nat, larger: nat, lib: Sanitizer, small: Correlation, large: Correlation, e: Event)
    requires limit <= larger && Truncates(limit, small, large) && e.BeginRequest?
    requires |small.pending| <= |small.transactions| <= limit && |large.pending| <= |large.transactions| <= larger
    ensures Truncates(limit, Correlate(limit, lib, small, e), Correlate(larger, lib, large, e))
  {
    if Opens(lib, large, e) && |large.transactions| < larger {
      if |small.transactions| < limit {
        assert small.transactions == large.transactions;
      }
    }
  }

  lemma TruncatedPatch(limit: nat, larger: nat, lib: Sanitizer, small: Correlation, large: Correlation, e: Event)
    requires limit <= larger && Truncates(limit, small, large) && !e.BeginRequest?
    ensures Truncates(limit, Correlate(limit, lib, small, e), Correlate(larger, lib, large, e))
  {
  }

  /** A lower ceiling only drops the latest transactions: what is kept is patched as under any higher ceiling. */
  lemma {:induction false} CeilingsOnlyTruncate(limit: nat, larger: nat, lib: Sanitizer, events: seq<Event>)
    requires limit <= larger
    ensures Truncates(limit, Correlated(limit, lib, events), Correlated(larger, lib, events))
  {
    if events != [] {
      var init, e := events[..|events| - 1], events[|events| - 1];
      CeilingsOnlyTruncate(limit, larger, lib, init);
      NoMorePendingThanTransactions(limit, lib, init);
      NoMorePendingThanTransactions(larger, lib, init);
      if e.BeginRequest? {
        TruncatedBegin(limit, larger, lib, Correlated(limit, lib, init), Correlated(larger, lib, init), e);
      } else {
        TruncatedPatch(limit, larger, lib, Correlated(limit, lib, init), Correlated(larger, lib, init), e);
      }
    }
  }

  // ----- Flags and warnings -----

  function RequestOf(lib: Sanitizer): Event -> Option<Request> {
    (e: Event) =>
      if !e.BeginRequest? then None
      else
        match ClassifyURL(lib, e.rawURL)
        case Accepted(url) => Some(Request(lib.cleanMetadata(e.verb), url, lib.cleanMetadata(e.resourceType)))
        case _ => None
  }

  function ObservationOf(e: Event): Option<Observation> {
    if e.ObserveResponse? || e.ObserveRedirect? then Some(e.response) else None
  }

  function ResponseOf(lib: Sanitizer): Event -> Option<Response> {
    (e: Event) =>
      if ObservationOf(e).None? then None
      else
        var r := ObservationOf(e).value;
        match ClassifyURL(lib, r.rawURL)
        case Accepted(url) =>
          Some(Response(url, r.status, lib.cleanMetadata(r.mimeType), lib.cleanMetadata(r.resourceType)))
        case _ => None
  }

  predicate OversizedResponse(lib: Sanitizer, e: Event) {
    ObservationOf(e).Some? && ClassifyURL(lib, ObservationOf(e).value.rawURL).Oversized?
  }

  predicate OversizedRequest(lib: Sanitizer, e: Event) {
    e.BeginRequest? && ClassifyURL(lib, e.rawURL).Oversized?
  }

  /** The requests kept are the first accepted ones; the flag is raised exactly when one of these was dropped. */
  ghost predicate RequestsTold(limit: nat, lib: Sanitizer, events: seq<Event>, c: Collector) {
    var all := Interleaving.Collect(RequestOf(lib), events);
    && c.requests == all[..Min(limit, |all|)]
    && (c.requestsTruncated <==> |all| > limit)
  }

  /** For responses the flag also stands for oversized URLs. */
  ghost predicate ResponsesTold(limit: nat, lib: Sanitizer, events: seq<Event>, c: Collector) {
    var all := Interleaving.Collect(ResponseOf(lib), events);
    && c.responses == all[..Min(limit, |all|)]
    && (c.responsesTruncated <==> |all| > limit || exists i | 0 <= i < |events| :: OversizedResponse(lib, events[i]))
  }

  lemma RequestsStep(limit: nat, lib: Sanitizer, c: Collector, e: Event)
    ensures var next, r := CollectorStep(limit, lib, c, e), RequestOf(lib)(e);
            && next.requests == (if r.Some? && |c.requests| < limit then c.requests + [r.value] else c.requests)
            && (next.requestsTruncated <==> c.requestsTruncated || (r.Some? && |c.requests| >= limit))
  {
  }

  lemma ResponsesStep(limit: nat, lib: Sanitizer, c: Collector, e: Event)
    ensures var next, r := CollectorStep(limit, lib, c, e), ResponseOf(lib)(e);
            && next.responses == (if r.Some? && |c.responses| < limit then c.responses + [r.value] else c.responses)
            && (next.responsesTruncated <==>
                c.responsesTruncated || OversizedResponse(lib, e) || (r.Some? && |c.responses| >= limit))
  {
    if ObservationOf(e).Some? {
      assert ChannelStep(limit, lib, c, e) == ResponseStep(limit, lib, c, ObservationOf(e).value);
    }
  }

  lemma {:induction false} RequestsAreTold(limit: nat, lib: Sanitizer, events: seq<Event>)
    ensures RequestsTold(limit, lib, events, Collected(limit, lib, events))
  {
    if events != [] {
      var init, e := events[..|events| - 1], events[|events| - 1];
      RequestsAreTold(limit, lib, init);
      RequestsStep(limit, lib, Collected(limit, lib, init), e);
      assert Interleaving.Collect(RequestOf(lib), events)
          == Interleaving.Collect(RequestOf(lib), init) + Single(RequestOf(lib)(e));
    }
  }

  /** The meaning that its documentation gives the request flag: there were too many, or an oversized URL was omitted. */
  ghost predicate DocumentedTruncation(limit: nat, lib: Sanitizer, events: seq<Event>) {
    || |Interleaving.Collect(RequestOf(lib), events)| > limit
    || exists i | 0 <= i < |events| :: OversizedRequest(lib, events[i])
  }

  /** The request flag means what is documented exactly for runs without oversized request URLs or over the ceiling. */
  lemma FlagIsDocumentedIff(limit: nat, lib: Sanitizer, events: seq<Event>)
    ensures (Collected(limit, lib, events).requestsTruncated <==> DocumentedTruncation(limit, lib, events)) <==>
            (forall i | 0 <= i < |events| :: !OversizedRequest(lib, events[i]))
            || |Interleaving.Collect(RequestOf(lib), events)| > limit
  {
    RequestsAreTold(limit, lib, events);
  }

  lemma {:induction false} ResponsesAreTold(limit: nat, lib: Sanitizer, events: seq<Event>)
    ensures ResponsesTold(limit, lib, events, Collected(limit, lib, events))
  {
    if events != [] {
      var init, e := events[..|events| - 1], events[|events| - 1];
      ResponsesAreTold(limit, lib, init);
      ResponsesStep(limit, lib, Collected(limit, lib, init), e);
      OversizedInLast(lib, events);
    }
  }

  lemma OversizedInLast(lib: Sanitizer, events: seq<Event>)
    requires events != []
    ensures var init := events[..|events| - 1];
            (exists i | 0 <= i < |events| :: OversizedResponse(lib, events[i])) <==>
            OversizedResponse(lib, events[|events| - 1])
            || exists i | 0 <= i < |init| :: OversizedResponse(lib, init[i])
  {
    var init := events[..|events| - 1];
    if i :| 0 <= i < |init| && OversizedResponse(lib, init[i]) {
      assert OversizedResponse(lib, events[i]);
    }
    if i :| 0 <= i < |events| && OversizedResponse(lib, events[i]) {
      assert i < |init| ==> OversizedResponse(lib, init[i]);
    }
  }

  /** One event's part in the warnings about requests, responses and URLs. */
  lemma ChannelWarningsStep(limit: nat, lib: Sanitizer, c: Collector, e: Event)
    ensures var next := CollectorStep(limit, lib, c, e);
            && (WARNING_REQUEST_LIMIT in next.warnings <==>
                WARNING_REQUEST_LIMIT in c.warnings || (RequestOf(lib)(e).Some? && |c.requests| >= limit))
            && (WARNING_RESPONSE_LIMIT in next.warnings <==>
                WARNING_RESPONSE_LIMIT in c.warnings || (ResponseOf(lib)(e).Some? && |c.responses| >= limit))
            && (WARNING_URL_LIMIT in next.warnings <==>
                WARNING_URL_LIMIT in c.warnings || OversizedRequest(lib, e) || OversizedResponse(lib, e))
  {
    DistinctWarnings();
    if ObservationOf(e).Some? {
      assert ChannelStep(limit, lib, c, e) == ResponseStep(limit, lib, c, ObservationOf(e).value);
    }
  }

  lemma DistinctWarnings()
    ensures WARNING_REQUEST_LIMIT != WARNING_RESPONSE_LIMIT && WARNING_REQUEST_LIMIT != WARNING_URL_LIMIT
    ensures WARNING_RESPONSE_LIMIT != WARNING_URL_LIMIT && WARNING_TRANSACTION_LIMIT != WARNING_URL_LIMIT
    ensures WARNING_TRANSACTION_LIMIT != WARNING_REQUEST_LIMIT && WARNING_TRANSACTION_LIMIT != WARNING_RESPONSE_LIMIT
  {
    assert |WARNING_REQUEST_LIMIT| == 42 && |WARNING_RESPONSE_LIMIT| == 43;
    assert |WARNING_TRANSACTION_LIMIT| == 54 && |WARNING_URL_LIMIT| == 56;
  }

  lemma {:induction false} RequestWarningIsExact(limit: nat, lib: Sanitizer, events: seq<Event>)
    ensures WARNING_REQUEST_LIMIT in Collected(limit, lib, events).warnings
       <==> |Interleaving.Collect(RequestOf(lib), events)| > limit
  {
    if events != [] {
      var init, e := events[..|events| - 1], events[|events| - 1];
      RequestWarningIsExact(limit, lib, init);
      RequestsAreTold(limit, lib, init);
      ChannelWarningsStep(limit, lib, Collected(limit, lib, init), e);
      assert Interleaving.Collect(RequestOf(lib), events)
          == Interleaving.Collect(RequestOf(lib), init) + Single(RequestOf(lib)(e));
    }
  }

  lemma {:induction false} ResponseWarningIsExact(limit: nat, lib: Sanitizer, events: seq<Event>)
    ensures WARNING_RESPONSE_LIMIT in Collected(limit, lib, events).warnings
       <==> |Interleaving.Collect(ResponseOf(lib), events)| > limit
  {
    if events != [] {
      var init, e := events[..|events| - 1], events[|events| - 1];
      ResponseWarningIsExact(limit, lib, init);
      ResponsesAreTold(limit, lib, init);
      ChannelWarningsStep(limit, lib, Collected(limit, lib, init), e);
      assert Interleaving.Collect(ResponseOf(lib), events)
          == Interleaving.Collect(ResponseOf(lib), init) + Single(ResponseOf(lib)(e));
    }
  }

  lemma {:induction false} URLWarningIsExact(limit: nat, lib: Sanitizer, events: seq<Event>)
    ensures WARNING_URL_LIMIT in Collected(limit, lib, events).warnings <==>
            exists i | 0 <= i < |events| :: OversizedRequest(lib, events[i]) || OversizedResponse(lib, events[i])
  {
    if events != [] {
      var init, e := events[..|events| - 1], events[|events| - 1];
      URLWarningIsExact(limit, lib, init);
      ChannelWarningsStep(limit, lib, Collected(limit, lib, init), e);
      AnyOversizedNext(lib, events, init, e);
    }
  }

  /** The warnings say exactly what was dropped: requests or responses over the ceiling, or URLs over their size. */
  lemma WarningsAreExact(limit: nat, lib: Sanitizer, events: seq<Event>)
    ensures var c := Collected(limit, lib, events);
            && (WARNING_REQUEST_LIMIT in c.warnings <==> |Interleaving.Collect(RequestOf(lib), events)| > limit)
            && (WARNING_RESPONSE_LIMIT in c.warnings <==> |Interleaving.Collect(ResponseOf(lib), events)| > limit)
            && (WARNING_URL_LIMIT in c.warnings <==>
                exists i | 0 <= i < |events| :: OversizedRequest(lib, events[i]) || OversizedResponse(lib, events[i]))
  {
    RequestWarningIsExact(limit, lib, events);
    ResponseWarningIsExact(limit, lib, events);
    URLWarningIsExact(limit, lib, events);
  }

  lemma AnyOversizedNext(lib: Sanitizer, events: seq<Event>, init: seq<Event>, e: Event)
    requires events == init + [e]
    ensures (exists i | 0 <= i < |events| :: OversizedRequest(lib, events[i]) || OversizedResponse(lib, events[i])) <==>
            OversizedRequest(lib, e) || OversizedResponse(lib, e)
            || exists i | 0 <= i < |init| :: OversizedRequest(lib, init[i]) || OversizedResponse(lib, init[i])
  {
    assert events[|init|] == e && forall i | 0 <= i < |init| :: events[i] == init[i];
    if i :| 0 <= i < |init| && (OversizedRequest(lib, init[i]) || OversizedResponse(lib, init[i])) {
      assert OversizedRequest(lib, events[i]) || OversizedResponse(lib, events[i]);
    }
    if OversizedRequest(lib, e) || OversizedResponse(lib, e) {
      assert OversizedRequest(lib, events[|init|]) || OversizedResponse(lib, events[|init|]);
    }
  }

  /** The collector correlates, and warns of transactions exactly when one was turned away. */
  lemma {:induction false} RefusalsAreWarnedOf(limit: nat, lib: Sanitizer, events: seq<Event>)
    ensures Collected(limit, lib, events).correlation == Correlated(limit, lib, events)
    ensures NeverRefused(limit, lib, events)
       <==> WARNING_TRANSACTION_LIMIT !in Collected(limit, lib, events).warnings
  {
    if events != [] {
      var init, e := events[..|events| - 1], events[|events| - 1];
      RefusalsAreWarnedOf(limit, lib, init);
      WarningStep(limit, lib, Collected(limit, lib, init), e);
      NeverRefusedLast(limit, lib, events);
    }
  }

  lemma WarningStep(limit: nat, lib: Sanitizer, c: Collector, e: Event)
    ensures CollectorStep(limit, lib, c, e).correlation == Correlate(limit, lib, c.correlation, e)
    ensures WARNING_TRANSACTION_LIMIT in CollectorStep(limit, lib, c, e).warnings
       <==> WARNING_TRANSACTION_LIMIT in c.warnings || Refuses(limit, lib, c.correlation, e)
  {
  }

  lemma NeverRefusedLast(limit: nat, lib: Sanitizer, events: seq<Event>)
    requires events != []
    ensures var init, e := events[..|events| - 1], events[|events| - 1];
            NeverRefused(limit, lib, events) <==>
            NeverRefused(limit, lib, init) && !Refuses(limit, lib, Correlated(limit, lib, init), e)
  {
    var init, e := events[..|events| - 1], events[|events| - 1];
    if NeverRefused(limit, lib, events) {
      NeverRefusedInit(limit, lib, events);
    }
    if NeverRefused(limit, lib, init) && !Refuses(limit, lib, Correlated(limit, lib, init), e) {
      forall n | 0 <= n < |events| ensures !Refuses(limit, lib, Correlated(limit, lib, events[..n]), events[n]) {
        if n < |init| { assert init[..n] == events[..n] && init[n] == events[n]; }
      }
    }
  }

  /** An oversized request URL is dropped without the request channel's flag: a run in which a request is lost. */
  lemma OversizedRequestsAreLostInSilence(lib: Sanitizer, id: string, rawURL: string)
    requires |rawURL| > MAX_URL_BYTES
    ensures var c := Collected(MAX_CAPTURE_ITEMS, lib, [BeginRequest(id, "GET", rawURL, "Fetch", 0.0)]);
            c.requests == [] && !c.requestsTruncated && WARNING_URL_LIMIT in c.warnings
  {
    var e := BeginRequest(id, "GET", rawURL, "Fetch", 0.0);
    assert [e][..0] == [];
    assert Collected(MAX_CAPTURE_ITEMS, lib, [e]) == CollectorStep(MAX_CAPTURE_ITEMS, lib, NewCollector(), e);
  }

  // ----- Arrival order -----

  /** No ceiling was met. */
  ghost predicate Unclipped(c: Collector) {
    && !c.requestsTruncated
    && !c.responsesTruncated
    && WARNING_TRANSACTION_LIMIT !in c.warnings
  }

  lemma {:induction false} AtMostOneEach(limit: nat, lib: Sanitizer, events: seq<Event>)
    ensures |Correlated(limit, lib, events).transactions| <= |events|
  {
    if events != [] { AtMostOneEach(limit, lib, events[..|events| - 1]); }
  }

  lemma RoomForAll(limit: nat, lib: Sanitizer, events: seq<Event>)
    requires |events| <= limit
    ensures NeverRefused(limit, lib, events)
  {
    forall n | 0 <= n < |events| ensures !Refuses(limit, lib, Correlated(limit, lib, events[..n]), events[n]) {
      AtMostOneEach(limit, lib, events[..n]);
      PendingCeilingIsRedundant(limit, lib, events[..n], events[n]);
    }
  }

  /** A ceiling turns something away exactly when there is more than it holds. */
  lemma {:induction false} RefusedIffOverfull(limit: nat, larger: nat, lib: Sanitizer, events: seq<Event>)
    requires limit <= larger && NeverRefused(larger, lib, events)
    ensures NeverRefused(limit, lib, events) <==> |Correlated(larger, lib, events).transactions| <= limit
  {
    if events != [] {
      var init, e := events[..|events| - 1], events[|events| - 1];
      NeverRefusedLast(larger, lib, events);
      NeverRefusedLast(limit, lib, events);
      RefusedIffOverfull(limit, larger, lib, init);
      CeilingsOnlyTruncate(limit, larger, lib, init);
      PendingCeilingIsRedundant(limit, lib, init, e);
      OverfullStep(limit, larger, lib, Correlated(limit, lib, init), Correlated(larger, lib, init), e);
    }
  }

  lemma OverfullStep(limit: nat, larger: nat, lib: Sanitizer, small: Correlation, large: Correlation, e: Event)
    requires limit <= larger && Truncates(limit, small, large) && !Refuses(larger, lib, large, e)
    requires Refuses(limit, lib, small, e) <==> Opens(lib, small, e) && |small.transactions| == limit
    ensures |Correlate(larger, lib, large, e).transactions| <= limit
       <==> |large.transactions| <= limit && !Refuses(limit, lib, small, e)
  {
    if |large.transactions| <= limit {
      assert e.id in small.pending <==> e.id in large.pending;
    }
  }

  lemma RefusalIgnoresOrder(limit: nat, lib: Sanitizer, a: seq<Event>, b: seq<Event>)
    requires SameParts(IdOf, a, b) && NeverRefused(limit, lib, a)
    ensures NeverRefused(limit, lib, b)
  {
    var larger := limit + |a| + |b|;
    RoomForAll(larger, lib, a);
    RoomForAll(larger, lib, b);
    RefusedIffOverfull(limit, larger, lib, a);
    RefusedIffOverfull(limit, larger, lib, b);
    InterleavingsCaptureTheSame(larger, lib, a, b);
    SameSize(Correlated(larger, lib, a).transactions, Correlated(larger, lib, b).transactions);
  }

  lemma SameSize<T>(s: seq<T>, t: seq<T>)
    requires multiset(s) == multiset(t)
    ensures |s| == |t|
  {
    assert |multiset(s)| == |s| && |multiset(t)| == |t|;
  }

  lemma SameOversized(lib: Sanitizer, a: seq<Event>, b: seq<Event>)
    requires multiset(a) == multiset(b)
    ensures (exists i | 0 <= i < |a| :: OversizedResponse(lib, a[i])) ==>
            exists i | 0 <= i < |b| :: OversizedResponse(lib, b[i])
  {
    if i :| 0 <= i < |a| && OversizedResponse(lib, a[i]) {
      assert a[i] in multiset(a);
      var j :| 0 <= j < |b| && b[j] == a[i];
    }
  }

  /** Whether a ceiling is met does not depend on the interleaving either. */
  lemma ClippingIgnoresOrder(limit: nat, lib: Sanitizer, a: seq<Event>, b: seq<Event>)
    requires SameParts(IdOf, a, b) && Unclipped(Collected(limit, lib, a))
    ensures Unclipped(Collected(limit, lib, b))
  {
    PartsDetermineElements(IdOf, a, b);
    RequestsAreTold(limit, lib, a);
    RequestsAreTold(limit, lib, b);
    CollectIgnoresOrder(RequestOf(lib), a, b);
    SameSize(Interleaving.Collect(RequestOf(lib), a), Interleaving.Collect(RequestOf(lib), b));
    ResponsesAreTold(limit, lib, a);
    ResponsesAreTold(limit, lib, b);
    CollectIgnoresOrder(ResponseOf(lib), a, b);
    SameSize(Interleaving.Collect(ResponseOf(lib), a), Interleaving.Collect(ResponseOf(lib), b));
    SameOversized(lib, b, a);
    RefusalsAreWarnedOf(limit, lib, a);
    RefusalsAreWarnedOf(limit, lib, b);
    RefusalIgnoresOrder(limit, lib, a, b);
  }

  /** Unless a ceiling was met, any other interleaving of the same lifecycles leaves the same observations. */
  lemma ArrivalOrderIsLost(limit: nat, lib: Sanitizer, a: seq<Event>, b: seq<Event>)
    requires SameParts(IdOf, a, b) && Unclipped(Collected(limit, lib, a))
    ensures var c, d := Collected(limit, lib, a), Collected(limit, lib, b);
            && Unclipped(d)
            && multiset(c.requests) == multiset(d.requests)
            && multiset(c.responses) == multiset(d.responses)
            && multiset(c.correlation.transactions) == multiset(d.correlation.transactions)
            && SortBy(Precedes, c.correlation.transactions) == SortBy(Precedes, d.correlation.transactions)
  {
    ClippingIgnoresOrder(limit, lib, a, b);
    PartsDetermineElements(IdOf, a, b);
    CollectIgnoresOrder(RequestOf(lib), a, b);
    CollectIgnoresOrder(ResponseOf(lib), a, b);
    UnclippedRun(limit, lib, a);
    UnclippedRun(limit, lib, b);
    InterleavingsCaptureTheSame(limit, lib, a, b);
    SortedTransactionsAreCanonical(limit, lib, a, b);
  }

  lemma UnclippedRun(limit: nat, lib: Sanitizer, events: seq<Event>)
    requires Unclipped(Collected(limit, lib, events))
    ensures var c := Collected(limit, lib, events);
            && c.requests == Interleaving.Collect(RequestOf(lib), events)
            && c.responses == Interleaving.Collect(ResponseOf(lib), events)
            && c.correlation == Correlated(limit, lib, events)
            && NeverRefused(limit, lib, events)
  {
    RequestsAreTold(limit, lib, events);
    ResponsesAreTold(limit, lib, events);
    RefusalsAreWarnedOf(limit, lib, events);
  }
}
