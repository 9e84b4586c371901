/** The capture collector: request lifecycles, seen as interleaved events, become a list of transactions. */
module Capture {
  import opened Model

  // ----- Observations -----

  const MAX_CAPTURE_ITEMS := 4096
  const MAX_URL_BYTES := 8192
  const MAX_TIMING_MS := 60000

  const WARNING_REQUEST_LIMIT := "browser requests reached the capture limit"
  const WARNING_RESPONSE_LIMIT := "browser responses reached the capture limit"
  const WARNING_URL_LIMIT := "a browser URL exceeded the capture limit and was omitted"
  const WARNING_TRANSACTION_LIMIT := "browser network transactions reached the capture limit"

  datatype Timing = Timing(queueMs: int, dnsMs: int, connectMs: int, tlsMs: int, ttfbMs: int, totalMs: int)

  datatype Transaction = Transaction(
    verb: string, url: string, status: int, mimeType: string, resourceType: string, protocol: string,
    connectionReused: bool, wireBytes: int, timing: Timing)

  datatype Observation = Observation(
    rawURL: string, status: int, mimeType: string, resourceType: string, protocol: string,
    connectionReused: bool, requestTime: real, timing: Timing)

  datatype Request = Request(verb: string, url: string, resourceType: string)

  datatype Response = Response(url: string, status: int, mimeType: string, resourceType: string)

  /** Library behaviour: how metadata and URLs are cleaned, and what is valid UTF-8. Strings are byte strings here. */
  datatype Sanitizer = Sanitizer(
    cleanMetadata: string -> string, sanitizeURL: string -> Option<string>, validText: string -> bool)

  /** One call on the collector. */
  datatype Event =
    | BeginRequest(id: string, verb: string, rawURL: string, resourceType: string, timestamp: real)
    | ObserveResponse(id: string, response: Observation)
    | ObserveRedirect(id: string, response: Observation, timestamp: real)
    | FinishRequest(id: string, wireBytes: int, timestamp: real)
    | FailRequest(id: string)

  function IdOf(e: Event): string { e.id }

  // ----- Values -----

  datatype URLClass = Accepted(url: string) | Rejected | Oversized

  function ClassifyURL(lib: Sanitizer, raw: string): URLClass {
    if |raw| > MAX_URL_BYTES then Oversized
    else
      match lib.sanitizeURL(raw)
      case None => Rejected
      case Some(cleaned) => if |cleaned| > MAX_URL_BYTES then Oversized else Accepted(cleaned)
  }

  /** Rounds half away from zero; what is not positive collapses to zero. */
  function BoundedDurationMs(seconds: real): (ms: int)
    ensures 0 <= ms <= MAX_TIMING_MS
    ensures seconds <= 0.0 ==> ms == 0
    ensures seconds * 1000.0 >= 60000.0 ==> ms == MAX_TIMING_MS
    ensures 0.0 < seconds * 1000.0 <= 60000.0 ==> -0.5 <= ms as real - seconds * 1000.0 <= 0.5
  {
    if seconds <= 0.0 then 0
    else
      var milliseconds := (seconds * 1000.0 + 0.5).Floor;
      if milliseconds > MAX_TIMING_MS then MAX_TIMING_MS else milliseconds
  }

  function Positive(x: int, otherwise: int): int {
    if x > 0 then x else otherwise
  }

  function NonEmpty(x: string, otherwise: string): string {
    if x != "" then x else otherwise
  }

  function Opened(lib: Sanitizer, e: Event): Transaction
    requires e.BeginRequest?
  {
    var cls := ClassifyURL(lib, e.rawURL);
    Transaction(
      lib.cleanMetadata(e.verb), if cls.Accepted? then cls.url else "", 0, "", lib.cleanMetadata(e.resourceType), "",
      false, 0, Timing(0, 0, 0, 0, 0, 0))
  }

  /** A phase that was not observed leaves what is there. */
  function PatchPhases(t: Timing, phases: Timing): Timing {
    t.(dnsMs := Positive(phases.dnsMs, t.dnsMs), connectMs := Positive(phases.connectMs, t.connectMs),
       tlsMs := Positive(phases.tlsMs, t.tlsMs), ttfbMs := Positive(phases.ttfbMs, t.ttfbMs))
  }

  function PatchTransaction(lib: Sanitizer, t: Transaction, r: Observation, start: real): Transaction {
    t.(status := r.status,
       mimeType := NonEmpty(lib.cleanMetadata(r.mimeType), t.mimeType),
       protocol := NonEmpty(lib.cleanMetadata(r.protocol), t.protocol),
       connectionReused := r.connectionReused,
       timing := PatchPhases(t.timing, r.timing).(
         queueMs := Positive(BoundedDurationMs(r.requestTime - start), t.timing.queueMs)))
  }

  function PatchTotal(t: Transaction, seconds: real): Transaction {
    t.(timing := t.timing.(totalMs := Positive(BoundedDurationMs(seconds), t.timing.totalMs)))
  }

  /** What an event after the first does to the open transaction of its id. */
  function Effect(lib: Sanitizer, e: Event, t: Transaction, start: real): Transaction
    requires !e.BeginRequest?
  {
    match e
    case ObserveResponse(_, r) => PatchTransaction(lib, t, r, start)
    case ObserveRedirect(_, r, timestamp) => PatchTotal(PatchTransaction(lib, t, r, start), timestamp - start)
    case FinishRequest(_, wireBytes, timestamp) =>
      PatchTotal(t.(wireBytes := Positive(wireBytes, t.wireBytes)), timestamp - start)
    case FailRequest(_) => t
  }

  // ----- Correlation -----

  datatype Pending = Pending(index: nat, startTimestamp: real)

  /** The part of the collector that correlates events. */
  datatype Correlation = Correlation(transactions: seq<Transaction>, pending: map<string, Pending>)

  /** An event asks for a new transaction. */
  predicate Opens(lib: Sanitizer, c: Correlation, e: Event) {
    e.BeginRequest? && e.id != "" && lib.validText(e.rawURL) && e.id !in c.pending
  }

  /** It is turned away by one of the two ceilings. */
  predicate Refuses(limit: nat, lib: Sanitizer, c: Correlation, e: Event) {
    Opens(lib, c, e) && (|c.pending| >= limit || |c.transactions| >= limit)
  }

  function Correlate(limit: nat, lib: Sanitizer, c: Correlation, e: Event): Correlation {
    if e.BeginRequest? then
      if Opens(lib, c, e) && !Refuses(limit, lib, c, e) then
        Correlation(c.transactions + [Opened(lib, e)],
                    c.pending[e.id := Pending(|c.transactions|, e.timestamp)])
      else c
    else
      Correlation(
        if e.id in c.pending && c.pending[e.id].index < |c.transactions| then
          var p := c.pending[e.id];
          c.transactions[p.index := Effect(lib, e, c.transactions[p.index], p.startTimestamp)]
        else c.transactions,
        if e.ObserveResponse? then c.pending else c.pending - {e.id})
  }

  function Correlated(limit: nat, lib: Sanitizer, events: seq<Event>): Correlation {
    if events == [] then Correlation([], map[])
    else Correlate(limit, lib, Correlated(limit, lib, events[..|events| - 1]), events[|events| - 1])
  }

  /** No event of a run was turned away. */
  ghost predicate NeverRefused(limit: nat, lib: Sanitizer, events: seq<Event>) {
    forall n | 0 <= n < |events| :: !Refuses(limit, lib, Correlated(limit, lib, events[..n]), events[n])
  }

  // ----- The collector -----

  datatype Collector = Collector(
    correlation: Correlation, requests: seq<Request>, responses: seq<Response>,
    requestsTruncated: bool, responsesTruncated: bool, warnings: set<string>)

  function Warn(c: Collector, warning: string): Collector {
    c.(warnings := c.warnings + {warning})
  }

  function WarnIf(c: Collector, condition: bool, warning: string): Collector {
    if condition then Warn(c, warning) else c
  }

  function AppendRequest(limit: nat, c: Collector, r: Request): Collector {
    if |c.requests| >= limit then Warn(c.(requestsTruncated := true), WARNING_REQUEST_LIMIT)
    else c.(requests := c.requests + [r])
  }

  /** An oversized request URL warns, but leaves the truncation flag of the request channel alone. */
  function RequestStep(limit: nat, lib: Sanitizer, c: Collector, e: Event): Collector
    requires e.BeginRequest?
  {
    match ClassifyURL(lib, e.rawURL)
    case Oversized => Warn(c, WARNING_URL_LIMIT)
    case Rejected => c
    case Accepted(url) =>
      AppendRequest(limit, c, Request(lib.cleanMetadata(e.verb), url, lib.cleanMetadata(e.resourceType)))
  }

  function ResponseStep(limit: nat, lib: Sanitizer, c: Collector, r: Observation): Collector {
    match ClassifyURL(lib, r.rawURL)
    case Oversized => Warn(c.(responsesTruncated := true), WARNING_URL_LIMIT)
    case Rejected => c
    case Accepted(url) =>
      if |c.responses| >= limit then Warn(c.(responsesTruncated := true), WARNING_RESPONSE_LIMIT)
      else
        c.(responses := c.responses + [Response(url, r.status, lib.cleanMetadata(r.mimeType),
                                                lib.cleanMetadata(r.resourceType))])
  }

  function ChannelStep(limit: nat, lib: Sanitizer, c: Collector, e: Event): Collector {
    match e
    case BeginRequest(_, _, _, _, _) => RequestStep(limit, lib, c, e)
    case ObserveResponse(_, r) => ResponseStep(limit, lib, c, r)
    case ObserveRedirect(_, r, _) => ResponseStep(limit, lib, c, r)
    case _ => c
  }

  function CollectorStep(limit: nat, lib: Sanitizer, c: Collector, e: Event): Collector {
    var channels := ChannelStep(limit, lib, c, e);
    WarnIf(channels.(correlation := Correlate(limit, lib, c.correlation, e)),
           Refuses(limit, lib, c.correlation, e), WARNING_TRANSACTION_LIMIT)
  }

  function NewCollector(): Collector {
    Collector(Correlation([], map[]), [], [], false, false, {})
  }

  function Collected(limit: nat, lib: Sanitizer, events: seq<Event>): Collector {
    if events == [] then NewCollector()
    else CollectorStep(limit, lib, Collected(limit, lib, events[..|events| - 1]), events[|events| - 1])
  }

  class CaptureCollector {
    const lib: Sanitizer
    var requests: seq<Request>
    var responses: seq<Response>
    var transactions: seq<Transaction>
    var pending: map<string, Pending>
    var requestsTruncated: bool
    var responsesTruncated: bool
    var warned: set<string>

    ghost function State(): Collector
      reads this
    {
      Collector(Correlation(transactions, pending), requests, responses, requestsTruncated, responsesTruncated, warned)
    }

    constructor (lib: Sanitizer)
      ensures State() == NewCollector() && this.lib == lib
    {
      this.lib := lib;
      requests, responses, transactions, pending := [], [], [], map[];
      requestsTruncated, responsesTruncated, warned := false, false, {};
    }

    method RaiseWarning(warning: string)
      modifies this`warned
      ensures warned == old(warned) + {warning}
    {
      if warning !in warned {
        warned := warned + {warning};
      }
    }

    method Classify(raw: string) returns (cls: URLClass)
      modifies this`warned
      ensures cls == ClassifyURL(lib, raw)
      ensures State() == WarnIf(old(State()), cls.Oversized?, WARNING_URL_LIMIT)
    {
      cls := ClassifyURL(lib, raw);
      if cls.Oversized? {
        RaiseWarning(WARNING_URL_LIMIT);
      }
    }

    method StoreRequest(r: Request)
      modifies this
      ensures State() == AppendRequest(MAX_CAPTURE_ITEMS, old(State()), r)
    {
      if |requests| >= MAX_CAPTURE_ITEMS {
        requestsTruncated := true;
        RaiseWarning(WARNING_REQUEST_LIMIT);
        return;
      }
      requests := requests + [r];
    }

    method StoreResponse(r: Observation)
      modifies this
      ensures State() == ResponseStep(MAX_CAPTURE_ITEMS, lib, old(State()), r)
    {
      var cls := Classify(r.rawURL);
      if cls.Oversized? {
        responsesTruncated := true;
      }
      if !cls.Accepted? {
        return;
      }
      if |responses| >= MAX_CAPTURE_ITEMS {
        responsesTruncated := true;
        RaiseWarning(WARNING_RESPONSE_LIMIT);
        return;
      }
      responses := responses + [Response(cls.url, r.status, lib.cleanMetadata(r.mimeType),
                                         lib.cleanMetadata(r.resourceType))];
    }

    method StoreTransaction(t: Transaction) returns (ok: bool)
      modifies this`transactions, this`warned
      ensures ok == (|old(transactions)| < MAX_CAPTURE_ITEMS)
      ensures transactions == if ok then old(transactions) + [t] else old(transactions)
      ensures warned == if ok then old(warned) else old(warned) + {WARNING_TRANSACTION_LIMIT}
    {
      if |transactions| >= MAX_CAPTURE_ITEMS {
        RaiseWarning(WARNING_TRANSACTION_LIMIT);
        return false;
      }
      transactions := transactions + [t];
      ok := true;
    }

    /** The correlation half of beginRequest. */
    method OpenTransaction(e: Event)
      requires e.BeginRequest?
      modifies this`transactions, this`pending, this`warned
      ensures Correlation(transactions, pending)
           == Correlate(MAX_CAPTURE_ITEMS, lib, old(Correlation(transactions, pending)), e)
      ensures warned == old(warned) +
        if Refuses(MAX_CAPTURE_ITEMS, lib, old(Correlation(transactions, pending)), e)
        then {WARNING_TRANSACTION_LIMIT} else {}
    {
      if e.id == "" || !lib.validText(e.rawURL) {
        return;
      }
      if e.id in pending {
        return;
      }
      if |pending| >= MAX_CAPTURE_ITEMS {
        RaiseWarning(WARNING_TRANSACTION_LIMIT);
        return;
      }
      var index := |transactions|;
      var ok := StoreTransaction(Opened(lib, e));
      if !ok {
        return;
      }
      pending := pending[e.id := Pending(index, e.timestamp)];
    }

    method BeginRequest(id: string, verb: string, rawURL: string, resourceType: string, timestamp: real)
      modifies this
      ensures State() == CollectorStep(MAX_CAPTURE_ITEMS, lib, old(State()),
                                 Event.BeginRequest(id, verb, rawURL, resourceType, timestamp))
    {
      var cls := Classify(rawURL);
      if cls.Accepted? {
        StoreRequest(Request(lib.cleanMetadata(verb), cls.url, lib.cleanMetadata(resourceType)));
      }
      OpenTransaction(Event.BeginRequest(id, verb, rawURL, resourceType, timestamp));
    }

    /** The patch of a transaction by a response, field by field. */
    method ApplyResponse(entry: Transaction, r: Observation, start: real) returns (t: Transaction)
      ensures t == PatchTransaction(lib, entry, r, start)
    {
      t := entry.(status := r.status);
      var mimeType := lib.cleanMetadata(r.mimeType);
      if mimeType != "" {
        t := t.(mimeType := mimeType);
      }
      var protocol := lib.cleanMetadata(r.protocol);
      if protocol != "" {
        t := t.(protocol := protocol);
      }
      t := t.(connectionReused := r.connectionReused);
      var timing := ApplyPhases(entry.timing, r.timing);
      var queueMs := BoundedDurationMs(r.requestTime - start);
      if queueMs > 0 {
        timing := timing.(queueMs := queueMs);
      }
      t := t.(timing := timing);
    }

    method ApplyPhases(entry: Timing, phases: Timing) returns (t: Timing)
      ensures t == PatchPhases(entry, phases)
    {
      t := entry;
      if phases.dnsMs > 0 {
        t := t.(dnsMs := phases.dnsMs);
      }
      if phases.connectMs > 0 {
        t := t.(connectMs := phases.connectMs);
      }
      if phases.tlsMs > 0 {
        t := t.(tlsMs := phases.tlsMs);
      }
      if phases.ttfbMs > 0 {
        t := t.(ttfbMs := phases.ttfbMs);
      }
    }

    /** Patches the open transaction of an event that does not open one. */
    method Patch(e: Event)
      requires !e.BeginRequest?
      modifies this`transactions
      ensures transactions == Correlate(MAX_CAPTURE_ITEMS, lib, old(Correlation(transactions, pending)), e).transactions
    {
      if e.id in pending && pending[e.id].index < |transactions| {
        var p := pending[e.id];
        var entry := transactions[p.index];
        match e {
        case ObserveResponse(_, r) =>
          entry := ApplyResponse(entry, r, p.startTimestamp);
        case ObserveRedirect(_, r, timestamp) =>
          entry := ApplyResponse(entry, r, p.startTimestamp);
          entry := PatchTotal(entry, timestamp - p.startTimestamp);
        case FinishRequest(_, wireBytes, timestamp) =>
          if wireBytes > 0 {
            entry := entry.(wireBytes := wireBytes);
          }
          entry := PatchTotal(entry, timestamp - p.startTimestamp);
        case FailRequest(_) =>
        }
        transactions := transactions[p.index := entry];
      }
    }

    method ObserveResponse(id: string, response: Observation)
      modifies this
      ensures State() == CollectorStep(MAX_CAPTURE_ITEMS, lib, old(State()), Event.ObserveResponse(id, response))
    {
      StoreResponse(response);
      Patch(Event.ObserveResponse(id, response));
    }

    method ObserveRedirect(id: string, response: Observation, timestamp: real)
      modifies this
      ensures State() == CollectorStep(MAX_CAPTURE_ITEMS, lib, old(State()), Event.ObserveRedirect(id, response, timestamp))
    {
      StoreResponse(response);
      Patch(Event.ObserveRedirect(id, response, timestamp));
      pending := pending - {id};
    }

    method FinishRequest(id: string, wireBytes: int, timestamp: real)
      modifies this
      ensures State() == CollectorStep(MAX_CAPTURE_ITEMS, lib, old(State()), Event.FinishRequest(id, wireBytes, timestamp))
    {
      Patch(Event.FinishRequest(id, wireBytes, timestamp));
      pending := pending - {id};
    }

    method FailRequest(id: string)
      modifies this
      ensures State() == CollectorStep(MAX_CAPTURE_ITEMS, lib, old(State()), Event.FailRequest(id))
    {
      pending := pending - {id};
    }
  }
}
