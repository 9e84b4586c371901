/** From browser events to verdicts: what a channel that is reported complete may have lost, and what that does to rules. */
module ChannelCompleteness {
  import opened Model
  import opened Ordering
  import opened Schema
  import opened Matching
  import opened Capabilities
  import opened Coverage
  import opened CoverageLaws
  import opened Conclusive
  import opened ConclusiveExactly
  import opened Completeness
  import opened Interleaving
  import opened Capture
  import opened CaptureLimits
  import opened Normalize

  // ----- The run without ceilings -----

  function WholeRequestOf(lib: Sanitizer): Event -> Option<Request> {
    (e: Event) =>
      if !e.BeginRequest? || lib.sanitizeURL(e.rawURL).None? then None
      else
        Some(Request(lib.cleanMetadata(e.verb), lib.sanitizeURL(e.rawURL).value, lib.cleanMetadata(e.resourceType)))
  }

  function WholeResponseOf(lib: Sanitizer): Event -> Option<Response> {
    (e: Event) =>
      if ObservationOf(e).None? || lib.sanitizeURL(ObservationOf(e).value.rawURL).None? then None
      else
        var r := ObservationOf(e).value;
        Some(Response(lib.sanitizeURL(r.rawURL).value, r.status, lib.cleanMetadata(r.mimeType),
                      lib.cleanMetadata(r.resourceType)))
  }

  function WholeURL(lib: Sanitizer, raw: string): string {
    match lib.sanitizeURL(raw)
    case None => ""
    case Some(url) => url
  }

  function WholeCorrelate(lib: Sanitizer, c: Correlation, e: Event): Correlation {
    if !e.BeginRequest? then Correlate(0, lib, c, e)
    else if Opens(lib, c, e) then
      Correlation(c.transactions + [Opened(lib, e).(url := WholeURL(lib, e.rawURL))],
                  c.pending[e.id := Pending(|c.transactions|, e.timestamp)])
    else c
  }

  function WholeCorrelated(lib: Sanitizer, events: seq<Event>): Correlation {
    if events == [] then Correlation([], map[])
    else WholeCorrelate(lib, WholeCorrelated(lib, events[..|events| - 1]), events[|events| - 1])
  }

  /** The capture that the same events leave when neither the number of items nor the size of a URL is limited. */
  ghost function WholeCapture(lib: Sanitizer, events: seq<Event>, rest: CaptureResult): CaptureResult {
    rest.(requests := Collect(WholeRequestOf(lib), events), responses := Collect(WholeResponseOf(lib), events),
          transactions := WholeCorrelated(lib, events).transactions)
  }

  // ----- Lists that were kept whole -----

  /** f keeps no more than g does. */
  ghost predicate Narrower<T(!new), U(!new)>(f: T -> Option<U>, g: T -> Option<U>) {
    forall x :: f(x) == None || f(x) == g(x)
  }

  ghost predicate KeepsAll<T, U>(f: T -> Option<U>, g: T -> Option<U>, s: seq<T>) {
    forall i | 0 <= i < |s| :: f(s[i]) == g(s[i])
  }

  lemma {:induction false} NarrowerCollects<T(!new), U(!new)>(f: T -> Option<U>, g: T -> Option<U>, s: seq<T>)
    requires Narrower(f, g)
    ensures |Collect(f, s)| <= |Collect(g, s)|
    ensures |Collect(f, s)| == |Collect(g, s)| <==> KeepsAll(f, g, s)
    ensures KeepsAll(f, g, s) ==> Collect(f, s) == Collect(g, s)
    ensures forall x :: x in Collect(f, s) ==> x in Collect(g, s)
  {
    if s != [] {
      var init, last := s[..|s| - 1], s[|s| - 1];
      NarrowerCollects(f, g, init);
      assert KeepsAll(f, g, s) <==> KeepsAll(f, g, init) && f(last) == g(last) by {
        assert forall i | 0 <= i < |init| :: init[i] == s[i];
      }
    }
  }

  /** A list cut at a ceiling is the whole list exactly when the ceiling was not exceeded and nothing was left out. */
  lemma KeptIsWhole<T(!new), U(!new)>(f: T -> Option<U>, g: T -> Option<U>, s: seq<T>, limit: nat)
    requires Narrower(f, g)
    ensures var kept := Collect(f, s)[..Min(limit, |Collect(f, s)|)];
            kept == Collect(g, s) <==> |Collect(f, s)| <= limit && KeepsAll(f, g, s)
  {
    NarrowerCollects(f, g, s);
    assert Collect(f, s)[..|Collect(f, s)|] == Collect(f, s);
  }

  /** A request that is lost for the size of its URL alone. */
  predicate LosesRequest(lib: Sanitizer, e: Event) {
    OversizedRequest(lib, e) && lib.sanitizeURL(e.rawURL).Some?
  }

  predicate LosesResponse(lib: Sanitizer, e: Event) {
    OversizedResponse(lib, e) && lib.sanitizeURL(ObservationOf(e).value.rawURL).Some?
  }

  lemma RequestNarrow(lib: Sanitizer, e: Event)
    ensures RequestOf(lib)(e) == None || RequestOf(lib)(e) == WholeRequestOf(lib)(e)
    ensures RequestOf(lib)(e) == WholeRequestOf(lib)(e) <==> !LosesRequest(lib, e)
  {
    if e.BeginRequest? {
      assert ClassifyURL(lib, e.rawURL).Accepted? ==> lib.sanitizeURL(e.rawURL) == Some(ClassifyURL(lib, e.rawURL).url);
    }
  }

  lemma RequestsNarrow(lib: Sanitizer)
    ensures Narrower(RequestOf(lib), WholeRequestOf(lib))
    ensures forall e :: RequestOf(lib)(e) == WholeRequestOf(lib)(e) <==> !LosesRequest(lib, e)
  {
    var f, g := RequestOf(lib), WholeRequestOf(lib);
    forall e ensures (f(e) == None || f(e) == g(e)) && (f(e) == g(e) <==> !LosesRequest(lib, e)) {
      RequestNarrow(lib, e);
    }
  }

  lemma ResponseNarrow(lib: Sanitizer, e: Event)
    ensures ResponseOf(lib)(e) == None || ResponseOf(lib)(e) == WholeResponseOf(lib)(e)
    ensures ResponseOf(lib)(e) == WholeResponseOf(lib)(e) <==> !LosesResponse(lib, e)
  {
    if ObservationOf(e).Some? {
      var raw := ObservationOf(e).value.rawURL;
      assert ClassifyURL(lib, raw).Accepted? ==> lib.sanitizeURL(raw) == Some(ClassifyURL(lib, raw).url);
    }
  }

  lemma ResponsesNarrow(lib: Sanitizer)
    ensures Narrower(ResponseOf(lib), WholeResponseOf(lib))
    ensures forall e :: ResponseOf(lib)(e) == WholeResponseOf(lib)(e) <==> !LosesResponse(lib, e)
  {
    var f, g := ResponseOf(lib), WholeResponseOf(lib);
    forall e ensures (f(e) == None || f(e) == g(e)) && (f(e) == g(e) <==> !LosesResponse(lib, e)) {
      ResponseNarrow(lib, e);
    }
  }

  /** The requests are all there exactly when the flag is clear and no request was dropped for its size. */
  lemma RequestsAreWhole(limit: nat, lib: Sanitizer, events: seq<Event>)
    ensures var c := Collected(limit, lib, events);
            c.requests == Collect(WholeRequestOf(lib), events) <==>
            !c.requestsTruncated && forall i | 0 <= i < |events| :: !LosesRequest(lib, events[i])
  {
    RequestsAreTold(limit, lib, events);
    RequestsNarrow(lib);
    KeptIsWhole(RequestOf(lib), WholeRequestOf(lib), events, limit);
  }

  /** A clear flag means that all responses are there; it may stand without a loss only for an unacceptable oversized URL. */
  lemma ResponsesAreWhole(limit: nat, lib: Sanitizer, events: seq<Event>)
    ensures var c := Collected(limit, lib, events);
            && (!c.responsesTruncated ==> c.responses == Collect(WholeResponseOf(lib), events))
            && ((forall i | 0 <= i < |events| :: OversizedResponse(lib, events[i]) ==> LosesResponse(lib, events[i])) ==>
                (!c.responsesTruncated <==> c.responses == Collect(WholeResponseOf(lib), events)))
  {
    ResponsesAreTold(limit, lib, events);
    ResponsesNarrow(lib);
    KeptIsWhole(ResponseOf(lib), WholeResponseOf(lib), events, limit);
    if !Collected(limit, lib, events).responsesTruncated {
      forall i | 0 <= i < |events| ensures !LosesResponse(lib, events[i]) {
        assert !OversizedResponse(lib, events[i]);
      }
    }
  }

  // ----- Transactions -----

  /** The same transactions, save that some have lost their URL. */
  ghost predicate Fades(seen: Correlation, whole: Correlation) {
    && seen.pending == whole.pending && |seen.transactions| == |whole.transactions|
    && forall i | 0 <= i < |seen.transactions| :: FadedOrSame(seen.transactions[i], whole.transactions[i])
  }

  predicate FadedOrSame(t: Transaction, whole: Transaction) {
    t == whole || t == whole.(url := "")
  }

  lemma FadesStep(limit: nat, lib: Sanitizer, seen: Correlation, whole: Correlation, e: Event)
    requires Fades(seen, whole) && !Refuses(limit, lib, seen, e)
    ensures Fades(Correlate(limit, lib, seen, e), WholeCorrelate(lib, whole, e))
  {
  }

  lemma {:induction false} UnlimitedFades(limit: nat, lib: Sanitizer, events: seq<Event>)
    requires NeverRefused(limit, lib, events)
    ensures Fades(Correlated(limit, lib, events), WholeCorrelated(lib, events))
  {
    if events != [] {
      var init, e := events[..|events| - 1], events[|events| - 1];
      NeverRefusedLast(limit, lib, events);
      UnlimitedFades(limit, lib, init);
      FadesStep(limit, lib, Correlated(limit, lib, init), WholeCorrelated(lib, init), e);
    }
  }

  /** Every transaction kept is one of the whole run, or lacks a URL. */
  lemma TransactionsAreWhole(limit: nat, lib: Sanitizer, events: seq<Event>, i: nat)
    requires i < |Correlated(limit, lib, events).transactions|
    ensures |Correlated(limit, lib, events).transactions| <= |WholeCorrelated(lib, events).transactions|
    ensures FadedOrSame(Correlated(limit, lib, events).transactions[i], WholeCorrelated(lib, events).transactions[i])
  {
    var larger := limit + |events|;
    RoomForAll(larger, lib, events);
    UnlimitedFades(larger, lib, events);
    CeilingsOnlyTruncate(limit, larger, lib, events);
    var small, large := Correlated(limit, lib, events).transactions, Correlated(larger, lib, events).transactions;
    assert small[i] == large[..|small|][i];
  }

  // ----- Reported coverage -----

  /** What a capture says of the completeness of its own parts. */
  datatype Completion = Completion(
    navigationIncomplete: bool, finalURLIncomplete: bool, domIncomplete: bool, domTruncated: bool,
    requestsTruncated: bool, responsesTruncated: bool, scriptURLsTruncated: bool, iframeURLsTruncated: bool,
    cookiesIncomplete: bool, cookiesTruncated: bool)

  /** browserCapabilityCoverage. Transactions and form submissions are never declared. */
  function BrowserCoverage(f: Completion, normalizationFailed: bool): seq<CapabilityClaim> {
    var navigation := f.navigationIncomplete || normalizationFailed;
    var ofURL := navigation || f.finalURLIncomplete;
    var ofDOM := navigation || f.domIncomplete;
    [CapabilityClaim("network_request", !(ofURL || f.requestsTruncated)),
     CapabilityClaim("network_response", !(navigation || f.responsesTruncated)),
     CapabilityClaim("page_content", !(ofDOM || f.domTruncated || ofURL)),
     CapabilityClaim("script_url", !(ofDOM || ofURL || f.scriptURLsTruncated)),
     CapabilityClaim("iframe_url", !(ofDOM || ofURL || f.iframeURLsTruncated)),
     CapabilityClaim("cookie", !(navigation || ofURL || f.cookiesIncomplete || f.cookiesTruncated))]
  }

  /** One browser run: its events, what else it captured, and what the same page had to offer. */
  datatype BrowserRun = BrowserRun(
    limit: nat, lib: Sanitizer, decimal: int -> string, events: seq<Event>, flags: Completion, rest: CaptureResult,
    wholeRest: CaptureResult)
  {
    ghost function Seen(): CaptureResult {
      CaptureOf(Collected(limit, lib, events), rest)
    }

    ghost function All(): CaptureResult {
      WholeCapture(lib, events, wholeRest)
    }

    ghost predicate Declares(kind: string) {
      Claims(BrowserCoverage(flags, !EmitsOnlyValid(decimal, Seen())), kind)
    }
  }

  /** The flags of the collector are its own; those of the other parts are clear only where nothing is missing. */
  ghost predicate FlagsTell(run: BrowserRun) {
    var f, c := run.flags, Collected(run.limit, run.lib, run.events);
    && f.requestsTruncated == c.requestsTruncated && f.responsesTruncated == c.responsesTruncated
    && (f.navigationIncomplete || OthersTell(f, run.rest, run.wholeRest))
  }

  ghost predicate OthersTell(f: Completion, seen: CaptureResult, whole: CaptureResult) {
    && (f.finalURLIncomplete || seen.finalURL == whole.finalURL)
    && (f.domIncomplete || f.domTruncated || seen.dom == whole.dom)
    && (f.domIncomplete || f.scriptURLsTruncated || forall u | u in whole.scriptURLs :: u in seen.scriptURLs)
    && (f.domIncomplete || f.iframeURLsTruncated || forall u | u in whole.iframeURLs :: u in seen.iframeURLs)
    && (f.cookiesIncomplete || f.cookiesTruncated || forall k | k in whole.cookies :: k in seen.cookies)
  }

  /** The signal of a request that was dropped for the size of its URL. */
  ghost predicate OfLostRequest(run: BrowserRun, x: Signal) {
    exists i | 0 <= i < |run.events| ::
      LosesRequest(run.lib, run.events[i])
      && RequestSignal(run.wholeRest.finalURL, WholeRequestOf(run.lib)(run.events[i]).value) == Some(x)
  }

  /** The request channel is declared complete and yet x was lost. */
  ghost predicate LostInSilence(run: BrowserRun, x: Signal) {
    run.Declares("network_request") && OfLostRequest(run, x) && !Emits(run.decimal, run.Seen(), x)
  }

  /** Something of the part that a kind of signal comes from, or the URL it is reported with, is missing. */
  predicate Withholds(f: Completion, kind: string) {
    if kind == "network_request" then f.finalURLIncomplete || f.requestsTruncated
    else if kind == "network_response" then f.responsesTruncated
    else if kind == "page_content" then f.finalURLIncomplete || f.domIncomplete || f.domTruncated
    else if kind == "script_url" then f.finalURLIncomplete || f.domIncomplete || f.scriptURLsTruncated
    else if kind == "iframe_url" then f.finalURLIncomplete || f.domIncomplete || f.iframeURLsTruncated
    else if kind == "cookie" then f.finalURLIncomplete || f.cookiesIncomplete || f.cookiesTruncated
    else true
  }

  /** A kind is declared complete exactly if nothing that it depends on is missing. */
  lemma CoverageMeans(f: Completion, normalizationFailed: bool, kind: string)
    ensures Claims(BrowserCoverage(f, normalizationFailed), kind)
       <==> !normalizationFailed && !f.navigationIncomplete && !Withholds(f, kind)
  {
    var claims := BrowserCoverage(f, normalizationFailed);
    if i :| 0 <= i < |claims| && claims[i] == CapabilityClaim(kind, true) {
      assert claims[i].complete;
    }
    if !normalizationFailed && !f.navigationIncomplete && !Withholds(f, kind) {
      var i := if kind == "network_request" then 0 else if kind == "network_response" then 1
               else if kind == "page_content" then 2 else if kind == "script_url" then 3
               else if kind == "iframe_url" then 4 else 5;
      assert claims[i] == CapabilityClaim(kind, true);
    }
  }

  lemma DeclaredMeans(run: BrowserRun, kind: string)
    requires run.Declares(kind)
    ensures EmitsOnlyValid(run.decimal, run.Seen()) && !run.flags.navigationIncomplete && !Withholds(run.flags, kind)
  {
    CoverageMeans(run.flags, !EmitsOnlyValid(run.decimal, run.Seen()), kind);
  }

  /** A kind of signal comes from one part of the capture. */
  lemma EmittedByKind(decimal: int -> string, r: CaptureResult, x: Signal)
    requires Emits(decimal, r, x)
    ensures x.kind == "network_request" ==> Gives((q: Request) => RequestSignal(r.finalURL, q), r.requests, x)
    ensures x.kind == "network_response" ==> Gives((p: Response) => ResponseSignal(decimal, p), r.responses, x)
    ensures x.kind == "page_content" ==> r.dom != "" && x == BrowserSignal("page_content", "dom", r.dom, r.finalURL)
    ensures x.kind == "script_url" ==> Gives((u: string) => ScriptSignal(r.finalURL, u), r.scriptURLs, x)
    ensures x.kind == "iframe_url" ==> Gives((u: string) => IframeSignal(r.finalURL, u), r.iframeURLs, x)
    ensures x.kind == "cookie" ==> Gives((k: Cookie) => CookieSignal(r.finalURL, k), r.cookies, x)
  {
  }

  lemma ResponsesGiveAlike(run: BrowserRun, x: Signal)
    requires FlagsTell(run) && !run.flags.responsesTruncated
    requires Gives((p: Response) => ResponseSignal(run.decimal, p), run.All().responses, x)
    ensures Emits(run.decimal, run.Seen(), x)
  {
    ResponsesAreWhole(run.limit, run.lib, run.events);
    assert run.Seen().responses == run.All().responses;
  }

  lemma CookiesGiveAlike(run: BrowserRun, x: Signal)
    requires run.rest.finalURL == run.wholeRest.finalURL && forall k | k in run.wholeRest.cookies :: k in run.rest.cookies
    requires Gives((k: Cookie) => CookieSignal(run.wholeRest.finalURL, k), run.All().cookies, x)
    ensures Emits(run.decimal, run.Seen(), x)
  {
    GivesAlike((k: Cookie) => CookieSignal(run.rest.finalURL, k), run.All().cookies, run.Seen().cookies, x);
  }

  lemma ScriptsGiveAlike(run: BrowserRun, x: Signal)
    requires run.rest.finalURL == run.wholeRest.finalURL
    requires forall u | u in run.wholeRest.scriptURLs :: u in run.rest.scriptURLs
    requires Gives((u: string) => ScriptSignal(run.wholeRest.finalURL, u), run.All().scriptURLs, x)
    ensures Emits(run.decimal, run.Seen(), x)
  {
    GivesAlike((u: string) => ScriptSignal(run.rest.finalURL, u), run.All().scriptURLs, run.Seen().scriptURLs, x);
  }

  lemma IframesGiveAlike(run: BrowserRun, x: Signal)
    requires run.rest.finalURL == run.wholeRest.finalURL
    requires forall u | u in run.wholeRest.iframeURLs :: u in run.rest.iframeURLs
    requires Gives((u: string) => IframeSignal(run.wholeRest.finalURL, u), run.All().iframeURLs, x)
    ensures Emits(run.decimal, run.Seen(), x)
  {
    GivesAlike((u: string) => IframeSignal(run.rest.finalURL, u), run.All().iframeURLs, run.Seen().iframeURLs, x);
  }

  /** Apart from requests, a channel that is declared complete emits all there is. */
  lemma DeclaredIsWhole(run: BrowserRun, x: Signal)
    requires FlagsTell(run) && run.Declares(x.kind) && x.kind != "network_request" && Emits(run.decimal, run.All(), x)
    ensures Emits(run.decimal, run.Seen(), x)
  {
    DeclaredMeans(run, x.kind);
    EmittedByKind(run.decimal, run.All(), x);
    if x.kind == "network_response" {
      ResponsesGiveAlike(run, x);
    } else if x.kind == "script_url" {
      ScriptsGiveAlike(run, x);
    } else if x.kind == "iframe_url" {
      IframesGiveAlike(run, x);
    } else if x.kind == "cookie" {
      CookiesGiveAlike(run, x);
    }
  }

  lemma {:induction false} CollectElements<T, U>(f: T -> Option<U>, s: seq<T>, x: U)
    ensures x in Collect(f, s) <==> exists i | 0 <= i < |s| :: f(s[i]) == Some(x)
  {
    if s != [] {
      var init, last := s[..|s| - 1], s[|s| - 1];
      CollectElements(f, init, x);
      assert forall i | 0 <= i < |init| :: init[i] == s[i];
      assert x in Single(f(last)) <==> f(last) == Some(x);
    }
  }

  /** The request signals of the whole run come from requests kept in the lists or from requests dropped for their size. */
  lemma RequestKeptOrLost(run: BrowserRun, x: Signal)
    requires !Collected(run.limit, run.lib, run.events).requestsTruncated
    requires Gives((q: Request) => RequestSignal(run.wholeRest.finalURL, q), run.All().requests, x)
    ensures OfLostRequest(run, x)
         || Gives((q: Request) => RequestSignal(run.wholeRest.finalURL, q), run.Seen().requests, x)
  {
    var f, g, events := RequestOf(run.lib), WholeRequestOf(run.lib), run.events;
    var all, seen := run.All().requests, run.Seen().requests;
    var k :| 0 <= k < |all| && RequestSignal(run.wholeRest.finalURL, all[k]) == Some(x);
    CollectElements(g, events, all[k]);
    var i :| 0 <= i < |events| && g(events[i]) == Some(all[k]);
    RequestNarrow(run.lib, events[i]);
    if !LosesRequest(run.lib, events[i]) {
      RequestsAreTold(run.limit, run.lib, events);
      CollectElements(f, events, all[k]);
      assert all[k] in seen;
      var j :| 0 <= j < |seen| && seen[j] == all[k];
      assert RequestSignal(run.wholeRest.finalURL, seen[j]) == Some(x);
    }
  }

  lemma LostIsInWhole(run: BrowserRun, x: Signal)
    requires OfLostRequest(run, x)
    ensures Emits(run.decimal, run.All(), x)
  {
    var i :| 0 <= i < |run.events| && LosesRequest(run.lib, run.events[i])
             && RequestSignal(run.wholeRest.finalURL, WholeRequestOf(run.lib)(run.events[i]).value) == Some(x);
    var q := WholeRequestOf(run.lib)(run.events[i]).value;
    CollectElements(WholeRequestOf(run.lib), run.events, q);
    var all := run.All().requests;
    var k :| 0 <= k < |all| && all[k] == q;
    assert RequestSignal(run.wholeRest.finalURL, all[k]) == Some(x);
    assert Gives((q: Request) => RequestSignal(run.All().finalURL, q), all, x);
  }

  lemma RequestsLoseOnlyOversized(run: BrowserRun, x: Signal)
    requires FlagsTell(run) && run.Declares("network_request") && x.kind == "network_request"
    requires Emits(run.decimal, run.All(), x) && !Emits(run.decimal, run.Seen(), x)
    ensures OfLostRequest(run, x)
  {
    DeclaredMeans(run, "network_request");
    EmittedByKind(run.decimal, run.All(), x);
    RequestKeptOrLost(run, x);
    assert run.Seen().finalURL == run.wholeRest.finalURL;
  }

  lemma LostIsRequest(run: BrowserRun, x: Signal)
    requires OfLostRequest(run, x)
    ensures x.kind == "network_request"
  {
  }

  /**
   * What a browser channel lost although it is declared complete is exactly the signals of requests that were dropped
   * for the size of their URL and that no other request gave.
   */
  lemma DeclaredLosesOnlyOversized(run: BrowserRun, x: Signal)
    requires FlagsTell(run)
    ensures Emits(run.decimal, run.All(), x) && !Emits(run.decimal, run.Seen(), x) && run.Declares(x.kind)
       <==> LostInSilence(run, x)
  {
    if LostInSilence(run, x) {
      LostIsInWhole(run, x);
      LostIsRequest(run, x);
    } else if Emits(run.decimal, run.All(), x) && !Emits(run.decimal, run.Seen(), x) && run.Declares(x.kind) {
      if x.kind == "network_request" {
        RequestsLoseOnlyOversized(run, x);
      } else {
        DeclaredIsWhole(run, x);
      }
    }
  }

  /** With nothing but the ceilings between the two runs, no signal is invented. */
  lemma NothingIsInvented(run: BrowserRun, x: Signal)
    requires run.rest == run.wholeRest && Emits(run.decimal, run.Seen(), x)
    ensures Emits(run.decimal, run.All(), x)
  {
    var seen, all, events, c := run.Seen(), run.All(), run.events, Collected(run.limit, run.lib, run.events);
    RequestsAreTold(run.limit, run.lib, events);
    ResponsesAreTold(run.limit, run.lib, events);
    RequestsNarrow(run.lib);
    ResponsesNarrow(run.lib);
    NarrowerCollects(RequestOf(run.lib), WholeRequestOf(run.lib), events);
    NarrowerCollects(ResponseOf(run.lib), WholeResponseOf(run.lib), events);
    GivesAlike((q: Request) => RequestSignal(seen.finalURL, q), seen.requests, all.requests, x);
    GivesAlike((p: Response) => ResponseSignal(run.decimal, p), seen.responses, all.responses, x);
    if Gives((t: Transaction) => TransactionSignal(run.decimal, t), seen.transactions, x) {
      TransactionEmitted(run, x);
    }
  }

  lemma TransactionEmitted(run: BrowserRun, x: Signal)
    requires Gives((t: Transaction) => TransactionSignal(run.decimal, t), run.Seen().transactions, x)
    ensures Gives((t: Transaction) => TransactionSignal(run.decimal, t), run.All().transactions, x)
  {
    var seen, c := run.Seen().transactions, Correlated(run.limit, run.lib, run.events).transactions;
    RefusalsAreWarnedOf(run.limit, run.lib, run.events);
    var i :| 0 <= i < |seen| && TransactionSignal(run.decimal, seen[i]) == Some(x);
    SameElements(seen, c);
    assert seen[i] in c;
    var j :| 0 <= j < |c| && c[j] == seen[i];
    TransactionsAreWhole(run.limit, run.lib, run.events, j);
    var whole := run.All().transactions;
    assert TransactionSignal(run.decimal, whole[j]) == Some(x);
  }

  // ----- What rules may conclude -----

  /** The scan saw signals, of which the browser contributed what it normalized, and whole is what the whole run emits. */
  ghost predicate Observes(ch: Channels, run: BrowserRun, signals: set<Signal>, whole: seq<Signal>) {
    && Normalizes(run.decimal, run.All(), whole)
    && (forall x: Signal | x.source == SOURCE_BROWSER ::
          x in signals <==> EmitsOnlyValid(run.decimal, run.Seen()) && Emits(run.decimal, run.Seen(), x))
    && (forall kind :: ch.complete(SOURCE_BROWSER, kind) <==> run.Declares(kind))
    && (forall x | Emits(run.decimal, run.All(), x) :: ch.registry.Supports(SOURCE_BROWSER, x.kind))
  }

  ghost predicate Scans(ch: Channels, run: BrowserRun, signals: set<Signal>, whole: seq<Signal>) {
    FlagsTell(run) && Observes(ch, run, signals, whole)
  }

  ghost predicate NothingLostInSilence(run: BrowserRun) {
    forall x :: !LostInSilence(run, x)
  }

  /** What the ceilings withheld is admissible, as the theorems on verdicts assume, exactly if no loss was silent. */
  lemma WholeIsAdmissibleIff(ch: Channels, run: BrowserRun, signals: set<Signal>, whole: seq<Signal>)
    requires Scans(ch, run, signals, whole)
    ensures Admissible(ch, signals, signals + Elements(whole)) <==> NothingLostInSilence(run)
  {
    forall x ensures x in whole ==> FromBrowser(x) && Emits(run.decimal, run.All(), x) {
      if x in whole { EmittedIsFromBrowser(run.decimal, run.All(), x); }
    }
    if NothingLostInSilence(run) {
      forall x | x in whole && x !in signals
        ensures !ch.complete(x.source, x.kind) && ch.registry.Supports(x.source, x.kind)
      {
        UnseenIsUndeclared(ch, run, signals, whole, x);
      }
    }
    if x :| LostInSilence(run, x) {
      LostIsDeclared(ch, run, signals, whole, x);
    }
  }

  lemma UnseenIsUndeclared(ch: Channels, run: BrowserRun, signals: set<Signal>, whole: seq<Signal>, x: Signal)
    requires Scans(ch, run, signals, whole) && x in whole && x !in signals && !LostInSilence(run, x)
    ensures x.source == SOURCE_BROWSER && !run.Declares(x.kind)
    ensures ch.registry.Supports(x.source, x.kind) && !ch.complete(x.source, x.kind)
  {
    EmittedIsFromBrowser(run.decimal, run.All(), x);
    DeclaredLosesOnlyOversized(run, x);
    if run.Declares(x.kind) {
      DeclaredMeans(run, x.kind);
    }
  }

  lemma LostIsDeclared(ch: Channels, run: BrowserRun, signals: set<Signal>, whole: seq<Signal>, x: Signal)
    requires Scans(ch, run, signals, whole) && LostInSilence(run, x)
    ensures x in whole && x !in signals && x.source == SOURCE_BROWSER && x.kind == "network_request" && x.confidence == 1.0
    ensures ch.complete(SOURCE_BROWSER, x.kind)
  {
    DeclaredLosesOnlyOversized(run, x);
    EmittedIsFromBrowser(run.decimal, run.All(), x);
  }

  /** A predicate over the class that matches a silent loss, and that the coverage of what was seen closes. */
  ghost predicate Betrays(
      usable: TextPattern -> bool, ch: Channels, run: BrowserRun, signals: set<Signal>, e: Evidence, x: Signal)
  {
    ValidEvidence(e) && Within(usable, e) && LostInSilence(run, x) && Matches(e, x) && ClosedTo(ch, signals, e)
  }

  /** A predicate that an incomplete channel can match is not closed to its signals. */
  lemma OpenToIncomplete(ch: Channels, signals: set<Signal>, e: Evidence, x: Signal)
    requires SettledFor(ch, signals, e) && Matches(e, x)
    requires ch.registry.Supports(x.source, x.kind) && !ch.complete(x.source, x.kind)
    ensures !ClosedTo(ch, signals, e)
  {
    assert x.source in IncompleteSet(ch, e);
  }

  lemma ExcludedIffBetrayed(
      usable: TextPattern -> bool, ch: Channels, run: BrowserRun, signals: set<Signal>, whole: seq<Signal>, e: Evidence,
      x: Signal)
    requires Scans(ch, run, signals, whole) && SettledWithin(usable, ch, signals) && ValidEvidence(e) && Within(usable, e)
    ensures Excluded(ch, signals, signals + Elements(whole), e, x) <==> Betrays(usable, ch, run, signals, e, x)
  {
    if LostInSilence(run, x) {
      LostIsDeclared(ch, run, signals, whole, x);
    } else if Excluded(ch, signals, signals + Elements(whole), e, x) {
      UnseenIsUndeclared(ch, run, signals, whole, x);
      OpenToIncomplete(ch, signals, e, x);
    }
  }

  lemma WholeIsConfident(ch: Channels, run: BrowserRun, signals: set<Signal>, whole: seq<Signal>)
    requires Scans(ch, run, signals, whole) && Confident(signals)
    ensures Confident(signals + Elements(whole))
    ensures forall x | x in whole :: x.confidence == 1.0
  {
    forall x | x in whole ensures x.confidence == 1.0 { EmittedIsFromBrowser(run.decimal, run.All(), x); }
  }

  /**
   * From events to verdicts, whatever the class of patterns: over all valid rule sets with such patterns, no not-detected
   * verdict is contradicted by what the ceilings withheld, exactly if no predicate with such patterns matches a request
   * that was lost in silence while the coverage of what was seen closes it.
   */
  lemma VerdictsHoldIffNothingBetrays(
      usable: TextPattern -> bool, ch: Channels, run: BrowserRun, signals: set<Signal>, whole: seq<Signal>)
    requires Scans(ch, run, signals, whole) && Confident(signals) && SettledWithin(usable, ch, signals)
    ensures (forall s: RuleSet, id | RulesWithin(usable, s.rules) ::
               !Contradicted(s, ch, signals, signals + Elements(whole), id))
       <==> forall e, x :: !Betrays(usable, ch, run, signals, e, x)
  {
    WholeIsConfident(ch, run, signals, whole);
    VerdictsHoldIff(usable, ch, signals, signals + Elements(whole));
    forall e, x | ValidEvidence(e) && Within(usable, e)
      ensures Excluded(ch, signals, signals + Elements(whole), e, x) <==> Betrays(usable, ch, run, signals, e, x)
    {
      ExcludedIffBetrayed(usable, ch, run, signals, whole, e, x);
    }
  }

  /** A browser signal with the content of a silent loss was not seen. */
  lemma ContentUnseen(ch: Channels, run: BrowserRun, signals: set<Signal>, whole: seq<Signal>, x: Signal, t: Signal)
    requires Scans(ch, run, signals, whole) && LostInSilence(run, x) && t.source == SOURCE_BROWSER && SameContent(x, t)
    ensures t !in signals
  {
    LostIsDeclared(ch, run, signals, whole, x);
    if t in signals { EmittedIsFromBrowser(run.decimal, run.Seen(), t); }
  }

  lemma RequestURL(decimal: int -> string, r: CaptureResult, t: Signal)
    requires Emits(decimal, r, t) && t.kind == "network_request"
    ensures t.url == r.finalURL
  {
    EmittedByKind(decimal, r, t);
  }

  /** All request signals of a run carry its final URL, so source, key and value tell them apart. */
  lemma RequestUnseen(ch: Channels, run: BrowserRun, signals: set<Signal>, whole: seq<Signal>, x: Signal, t: Signal)
    requires Scans(ch, run, signals, whole) && LostInSilence(run, x) && t.source == SOURCE_BROWSER
    requires t.kind == x.kind && t.key == x.key && t.value == x.value
    ensures t !in signals
  {
    if t in signals {
      LostIsRequest(run, x);
      DeclaredMeans(run, "network_request");
      RequestURL(run.decimal, run.Seen(), t);
      LostIsInWhole(run, x);
      RequestURL(run.decimal, run.All(), x);
      ContentUnseen(ch, run, signals, whole, x, t);
    }
  }

  /** Literals for the source, the method and the URL of a request. */
  function QuotingRequest(x: Signal): Evidence {
    Evidence(PROBE, "", x.kind, Quote(x.source), Quote(x.key), Quote(x.value), None, 100.0)
  }

  lemma QuotingRequestMatches(x: Signal, t: Signal)
    ensures Matches(QuotingRequest(x), t)
       <==> t.kind == x.kind && t.source == x.source && t.key == x.key && t.value == x.value
  {
    QuoteAccepts(x.source, t.source);
    QuoteAccepts(x.key, t.key);
    QuoteAccepts(x.value, t.value);
  }

  lemma QuotingRequestValid(x: Signal)
    requires Quotable(x.key) && Quotable(x.value) && x.source == SOURCE_BROWSER && x.kind in SIGNAL_TYPES
    ensures ValidEvidence(QuotingRequest(x)) && Within(IsLiteral, QuotingRequest(x))
  {
    ByteBound(SOURCE_BROWSER);
    assert IsIdentifier(PROBE);
  }

  /**
   * The failing family, with literals only: for a request that was lost in silence, of a method and URL that a literal
   * pattern can hold, the rule that looks for just this request is refuted, and detected in the whole run.
   */
  lemma LostIsRefuted(ch: Channels, run: BrowserRun, signals: set<Signal>, whole: seq<Signal>, x: Signal)
    requires Scans(ch, run, signals, whole) && Confident(signals) && LostInSilence(run, x)
    requires Quotable(x.key) && Quotable(x.value)
    ensures RulesWithin(IsLiteral, ProbeSet(QuotingRequest(x)).rules)
    ensures Contradicted(ProbeSet(QuotingRequest(x)), ch, signals, signals + Elements(whole), PROBE)
  {
    LostIsDeclared(ch, run, signals, whole, x);
    QuotingRequestValid(x);
    ProbeSetWithin(IsLiteral, QuotingRequest(x));
    QuotingRequestMatches(x, x);
    QuotingIsClosed(ch, run, signals, whole, x);
    WholeIsConfident(ch, run, signals, whole);
    ExcludedMatchContradicts(QuotingRequest(x), ch, signals, signals + Elements(whole), x);
  }

  lemma QuotingIsClosed(ch: Channels, run: BrowserRun, signals: set<Signal>, whole: seq<Signal>, x: Signal)
    requires Scans(ch, run, signals, whole) && LostInSilence(run, x)
    ensures ClosedTo(ch, signals, QuotingRequest(x))
  {
    LostIsDeclared(ch, run, signals, whole, x);
    forall t | t in signals ensures !Matches(QuotingRequest(x), t) {
      QuotingRequestMatches(x, t);
      if Matches(QuotingRequest(x), t) { RequestUnseen(ch, run, signals, whole, x, t); }
    }
    QuotedSourceCloses(ch, signals, QuotingRequest(x), x.source);
  }

  /**
   * Where expressions may denote any predicate, every silent loss betrays: over all valid rule sets no not-detected
   * verdict is contradicted by what the ceilings withheld, exactly if no request whose signal nothing else gave was
   * dropped for the size of its URL while the request channel was declared complete.
   */
  lemma VerdictsHoldIffNothingLostInSilence(ch: Channels, run: BrowserRun, signals: set<Signal>, whole: seq<Signal>)
    requires Scans(ch, run, signals, whole) && Confident(signals) && Settled(ch, signals)
    ensures (forall s, id :: !Contradicted(s, ch, signals, signals + Elements(whole), id)) <==> NothingLostInSilence(run)
  {
    SettledSettlesAll(ch, signals);
    VerdictsHoldIffNothingBetrays(Anything, ch, run, signals, whole);
    forall s: RuleSet ensures RulesWithin(Anything, s.rules) { AllWithinAnything(s.rules); }
    if x :| LostInSilence(run, x) {
      OracleBetrays(ch, run, signals, whole, x);
    }
  }

  lemma SettledSettlesAll(ch: Channels, signals: set<Signal>)
    requires Settled(ch, signals)
    ensures SettledWithin(Anything, ch, signals)
  {
    forall e ensures SettledFor(ch, signals, e) { SettledSettles(ch, signals, e); }
  }

  lemma OracleBetrays(ch: Channels, run: BrowserRun, signals: set<Signal>, whole: seq<Signal>, x: Signal)
    requires Scans(ch, run, signals, whole) && LostInSilence(run, x)
    ensures Betrays(Anything, ch, run, signals, Oracle(x, x.source), x)
  {
    LostIsDeclared(ch, run, signals, whole, x);
    OracleUsable(x);
    OracleIsClosed(ch, run, signals, whole, x);
  }

  lemma OracleUsable(x: Signal)
    requires x.kind in SIGNAL_TYPES
    ensures ValidEvidence(Oracle(x, x.source)) && Within(Anything, Oracle(x, x.source)) && Matches(Oracle(x, x.source), x)
  {
    OracleValid(x, x.source);
    OracleMatches(x, x.source, x);
  }

  lemma OracleIsClosed(ch: Channels, run: BrowserRun, signals: set<Signal>, whole: seq<Signal>, x: Signal)
    requires Scans(ch, run, signals, whole) && LostInSilence(run, x)
    ensures ClosedTo(ch, signals, Oracle(x, x.source))
  {
    LostIsDeclared(ch, run, signals, whole, x);
    forall t | t in signals ensures !Matches(Oracle(x, x.source), t) { OracleUnseen(ch, run, signals, whole, x, t); }
    OracleCloses(ch, signals, x);
  }

  lemma OracleUnseen(ch: Channels, run: BrowserRun, signals: set<Signal>, whole: seq<Signal>, x: Signal, t: Signal)
    requires Scans(ch, run, signals, whole) && LostInSilence(run, x) && t in signals
    ensures !Matches(Oracle(x, x.source), t)
  {
    OracleMatches(x, x.source, t);
    if Matches(Oracle(x, x.source), t) {
      LostIsDeclared(ch, run, signals, whole, x);
      ContentUnseen(ch, run, signals, whole, x, t);
    }
  }

  lemma OracleCloses(ch: Channels, signals: set<Signal>, x: Signal)
    requires ch.complete(x.source, x.kind) && forall t | t in signals :: !Matches(Oracle(x, x.source), t)
    ensures ClosedTo(ch, signals, Oracle(x, x.source))
  {
    var e := Oracle(x, x.source);
    forall other | other in CapableSet(ch.registry, e) ensures other == x.source {
      assert Accepts(e.source.value, other);
    }
  }

  // ----- A silent loss -----

  /** A page that offers nothing but requests. */
  function Bare(finalURL: string): CaptureResult {
    CaptureResult(finalURL, "", [], [], [], [], [], [], [])
  }

  /** One request, and every flag clear. */
  function OneRequest(lib: Sanitizer, decimal: int -> string, id: string, rawURL: string, finalURL: string): BrowserRun {
    BrowserRun(MAX_CAPTURE_ITEMS, lib, decimal, [BeginRequest(id, "GET", rawURL, "Fetch", 0.0)],
        Completion(false, false, false, false, false, false, false, false, false, false), Bare(finalURL), Bare(finalURL))
  }

  lemma GetIsGet()
    ensures MethodOf("GET") == "GET"
  {
    assert !IsSpace('G') && !IsSpace('T');
    assert TrimLeft("GET") == "GET" && TrimRight("GET") == "GET";
  }

  lemma OneRequestLeavesNothing(lib: Sanitizer, decimal: int -> string, id: string, rawURL: string, finalURL: string)
    requires |rawURL| > MAX_URL_BYTES
    ensures var c := Collected(MAX_CAPTURE_ITEMS, lib, [BeginRequest(id, "GET", rawURL, "Fetch", 0.0)]);
            && c.requests == [] && c.responses == [] && !c.requestsTruncated && !c.responsesTruncated
            && forall i | 0 <= i < |c.correlation.transactions| :: c.correlation.transactions[i].status == 0
  {
    var e := BeginRequest(id, "GET", rawURL, "Fetch", 0.0);
    assert [e][..0] == [];
    assert Collected(MAX_CAPTURE_ITEMS, lib, [e]) == CollectorStep(MAX_CAPTURE_ITEMS, lib, NewCollector(), e);
  }

  lemma UnansweredEmitNothing(decimal: int -> string, finalURL: string, transactions: seq<Transaction>, x: Signal)
    requires forall t | t in transactions :: t.status == 0
    ensures !Emits(decimal, Bare(finalURL).(transactions := transactions), x)
  {
  }

  lemma OneRequestEmitsNothing(
      lib: Sanitizer, decimal: int -> string, id: string, rawURL: string, finalURL: string, x: Signal)
    requires |rawURL| > MAX_URL_BYTES
    ensures !Emits(decimal, OneRequest(lib, decimal, id, rawURL, finalURL).Seen(), x)
  {
    OneRequestLeavesNothing(lib, decimal, id, rawURL, finalURL);
    var seen := OneRequest(lib, decimal, id, rawURL, finalURL).Seen();
    var c := Collected(MAX_CAPTURE_ITEMS, lib, [BeginRequest(id, "GET", rawURL, "Fetch", 0.0)]);
    SameElements(seen.transactions, c.correlation.transactions);
    UnansweredEmitNothing(decimal, finalURL, seen.transactions, x);
    assert seen == Bare(finalURL).(transactions := seen.transactions);
  }

  lemma OneRequestIsValid(lib: Sanitizer, decimal: int -> string, id: string, rawURL: string, finalURL: string)
    requires |rawURL| > MAX_URL_BYTES
    ensures EmitsOnlyValid(decimal, OneRequest(lib, decimal, id, rawURL, finalURL).Seen())
  {
    forall x ensures !Emits(decimal, OneRequest(lib, decimal, id, rawURL, finalURL).Seen(), x) {
      OneRequestEmitsNothing(lib, decimal, id, rawURL, finalURL, x);
    }
  }

  lemma DeclaredIfValid(run: BrowserRun, kind: string)
    requires EmitsOnlyValid(run.decimal, run.Seen()) && !run.flags.navigationIncomplete && !Withholds(run.flags, kind)
    ensures run.Declares(kind)
  {
    CoverageMeans(run.flags, false, kind);
  }

  lemma OneRequestIsDeclared(lib: Sanitizer, decimal: int -> string, id: string, rawURL: string, finalURL: string)
    requires |rawURL| > MAX_URL_BYTES
    ensures FlagsTell(OneRequest(lib, decimal, id, rawURL, finalURL))
    ensures OneRequest(lib, decimal, id, rawURL, finalURL).Declares("network_request")
  {
    OneRequestLeavesNothing(lib, decimal, id, rawURL, finalURL);
    OneRequestIsValid(lib, decimal, id, rawURL, finalURL);
    DeclaredIfValid(OneRequest(lib, decimal, id, rawURL, finalURL), "network_request");
  }

  lemma OneRequestIsLost(lib: Sanitizer, decimal: int -> string, id: string, rawURL: string, finalURL: string)
    requires |rawURL| > MAX_URL_BYTES && lib.sanitizeURL(rawURL).Some? && lib.sanitizeURL(rawURL).value != ""
    requires lib.cleanMetadata("GET") == "GET"
    ensures OfLostRequest(OneRequest(lib, decimal, id, rawURL, finalURL),
                          BrowserSignal("network_request", "GET", lib.sanitizeURL(rawURL).value, finalURL))
  {
    var run, e := OneRequest(lib, decimal, id, rawURL, finalURL), BeginRequest(id, "GET", rawURL, "Fetch", 0.0);
    assert run.events[0] == e && LosesRequest(lib, e);
    var q := WholeRequestOf(lib)(e).value;
    assert q.verb == "GET" && q.url == lib.sanitizeURL(rawURL).value;
    GetIsGet();
    assert RequestSignal(finalURL, q) == Some(BrowserSignal("network_request", "GET", q.url, finalURL));
  }

  /** Silent losses are real: any oversized URL that would be accepted, a long query for instance, gives one. */
  lemma OversizedIsLostInSilence(lib: Sanitizer, decimal: int -> string, id: string, rawURL: string, finalURL: string)
    requires |rawURL| > MAX_URL_BYTES && lib.sanitizeURL(rawURL).Some? && lib.sanitizeURL(rawURL).value != ""
    requires lib.cleanMetadata("GET") == "GET"
    ensures var run := OneRequest(lib, decimal, id, rawURL, finalURL);
            && FlagsTell(run)
            && LostInSilence(run, BrowserSignal("network_request", "GET", lib.sanitizeURL(rawURL).value, finalURL))
  {
    var x := BrowserSignal("network_request", "GET", lib.sanitizeURL(rawURL).value, finalURL);
    OneRequestIsDeclared(lib, decimal, id, rawURL, finalURL);
    OneRequestIsLost(lib, decimal, id, rawURL, finalURL);
    OneRequestEmitsNothing(lib, decimal, id, rawURL, finalURL, x);
  }
}
