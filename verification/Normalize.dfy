/** From one capture to the normalized signals of the browser analyzer. */
module Normalize {
  import opened Model
  import opened Ordering
  import opened Interleaving
  import opened Coverage
  import opened CoverageLaws
  import opened Capture
  import opened CaptureLaws
  import opened CaptureLimits

  const SOURCE_BROWSER := "browser_analyzer"

  datatype Cookie = Cookie(name: string, domain: string)

  /** The parts of a capture result that carry signals; forms are the action URLs of form submissions. */
  datatype CaptureResult = CaptureResult(
    finalURL: string, dom: string, requests: seq<Request>, transactions: seq<Transaction>, forms: seq<string>,
    responses: seq<Response>, scriptURLs: seq<string>, iframeURLs: seq<string>, cookies: seq<Cookie>)

  // ----- Text -----

  function TrimLeft(s: string): string {
    if s != [] && IsSpace(s[0]) then TrimLeft(s[1..]) else s
  }

  function TrimRight(s: string): string {
    if s != [] && IsSpace(s[|s| - 1]) then TrimRight(s[..|s| - 1]) else s
  }

  function ToUpper(s: string): (r: string)
    ensures |r| == |s|
  {
    seq(|s|, i requires 0 <= i < |s| => if 'a' <= s[i] <= 'z' then s[i] - 'a' + 'A' else s[i])
  }

  function MethodOf(verb: string): string {
    ToUpper(TrimRight(TrimLeft(verb)))
  }

  lemma {:induction false} TrimRightEnds(s: string)
    ensures TrimRight(s) == [] || !IsSpace(TrimRight(s)[|TrimRight(s)| - 1])
  {
    if s != [] && IsSpace(s[|s| - 1]) { TrimRightEnds(s[..|s| - 1]); }
  }

  /** A method is empty or says something. */
  lemma MethodBlankIffEmpty(verb: string)
    ensures Blank(MethodOf(verb)) <==> MethodOf(verb) == ""
  {
    var trimmed := TrimRight(TrimLeft(verb));
    TrimRightEnds(TrimLeft(verb));
    if trimmed != [] {
      var last := |trimmed| - 1;
      assert !IsSpace(MethodOf(verb)[last]);
    }
  }

  // ----- What each observation emits -----

  function BrowserSignal(kind: string, key: string, value: string, url: string): Signal {
    Signal(kind, SOURCE_BROWSER, key, value, url, 1.0)
  }

  function RequestSignal(finalURL: string, r: Request): Option<Signal> {
    if MethodOf(r.verb) == "" || r.url == "" then None
    else Some(BrowserSignal("network_request", MethodOf(r.verb), r.url, finalURL))
  }

  function TransactionSignal(decimal: int -> string, t: Transaction): Option<Signal> {
    if MethodOf(t.verb) == "" || MethodOf(t.verb) == "GET" || t.status <= 0 || t.url == "" then None
    else Some(BrowserSignal("network_transaction", MethodOf(t.verb), decimal(t.status), t.url))
  }

  function FormSignal(finalURL: string, action: string): Option<Signal> {
    if action == "" then None else Some(BrowserSignal("form_submission", "action", action, finalURL))
  }

  function ResponseSignal(decimal: int -> string, r: Response): Option<Signal> {
    if r.status <= 0 || r.url == "" then None
    else Some(BrowserSignal("network_response", "status", decimal(r.status), r.url))
  }

  function ScriptSignal(finalURL: string, url: string): Option<Signal> {
    if url == "" then None else Some(BrowserSignal("script_url", "src", url, finalURL))
  }

  function IframeSignal(finalURL: string, url: string): Option<Signal> {
    if url == "" then None else Some(BrowserSignal("iframe_url", "src", url, finalURL))
  }

  function CookieSignal(finalURL: string, c: Cookie): Option<Signal> {
    if c.name == "" || c.domain == "" then None else Some(BrowserSignal("cookie", c.name, c.domain, finalURL))
  }

  /** Some element of items gives s. */
  ghost predicate Gives<T>(f: T -> Option<Signal>, items: seq<T>, s: Signal) {
    exists i | 0 <= i < |items| :: f(items[i]) == Some(s)
  }

  /** The signals that a capture emits, whatever the order of its parts. */
  ghost predicate Emits(decimal: int -> string, r: CaptureResult, s: Signal) {
    || Gives((x: Request) => RequestSignal(r.finalURL, x), r.requests, s)
    || Gives((x: Transaction) => TransactionSignal(decimal, x), r.transactions, s)
    || Gives((x: string) => FormSignal(r.finalURL, x), r.forms, s)
    || Gives((x: Response) => ResponseSignal(decimal, x), r.responses, s)
    || (r.dom != "" && s == BrowserSignal("page_content", "dom", r.dom, r.finalURL))
    || Gives((x: string) => ScriptSignal(r.finalURL, x), r.scriptURLs, s)
    || Gives((x: string) => IframeSignal(r.finalURL, x), r.iframeURLs, s)
    || Gives((x: Cookie) => CookieSignal(r.finalURL, x), r.cookies, s)
  }

  /** One emission loop. */
  method EmitEach<T>(f: T -> Option<Signal>, items: seq<T>, before: seq<Signal>) returns (signals: seq<Signal>)
    ensures forall s :: s in signals <==> s in before || Gives(f, items, s)
    ensures |signals| <= |before| + |items|
  {
    signals := before;
    for i := 0 to |items|
      invariant forall s :: s in signals <==> s in before || Gives(f, items[..i], s)
      invariant |signals| <= |before| + i
    {
      GivesLast(f, items, i);
      if f(items[i]).Some? {
        signals := signals + [f(items[i]).value];
      }
    }
    assert items[..|items|] == items;
  }

  lemma GivesLast<T>(f: T -> Option<Signal>, items: seq<T>, i: nat)
    requires i < |items|
    ensures forall s :: Gives(f, items[..i + 1], s) <==> Gives(f, items[..i], s) || f(items[i]) == Some(s)
  {
    forall s ensures Gives(f, items[..i + 1], s) <==> Gives(f, items[..i], s) || f(items[i]) == Some(s) {
      var shorter, longer := items[..i], items[..i + 1];
      assert longer == shorter + [items[i]];
      if Gives(f, shorter, s) {
        var k :| 0 <= k < |shorter| && f(shorter[k]) == Some(s);
        assert f(longer[k]) == Some(s);
      }
      if f(items[i]) == Some(s) { assert f(longer[i]) == Some(s); }
      if Gives(f, longer, s) {
        var k :| 0 <= k < |longer| && f(longer[k]) == Some(s);
        assert k < i ==> f(shorter[k]) == Some(s);
      }
    }
  }

  /** The emission of a whole capture, kind after kind. */
  method Emit(decimal: int -> string, r: CaptureResult) returns (signals: seq<Signal>)
    ensures forall s :: s in signals <==> Emits(decimal, r, s)
  {
    signals := EmitEach((x: Request) => RequestSignal(r.finalURL, x), r.requests, []);
    signals := EmitEach((x: Transaction) => TransactionSignal(decimal, x), r.transactions, signals);
    signals := EmitEach((x: string) => FormSignal(r.finalURL, x), r.forms, signals);
    signals := EmitEach((x: Response) => ResponseSignal(decimal, x), r.responses, signals);
    if r.dom != "" {
      signals := signals + [BrowserSignal("page_content", "dom", r.dom, r.finalURL)];
    }
    signals := EmitEach((x: string) => ScriptSignal(r.finalURL, x), r.scriptURLs, signals);
    signals := EmitEach((x: string) => IframeSignal(r.finalURL, x), r.iframeURLs, signals);
    signals := EmitEach((x: Cookie) => CookieSignal(r.finalURL, x), r.cookies, signals);
  }

  // ----- The canonical order of signals -----

  function BrowserSignalRank(kind: string): int {
    if kind == "network_request" then 0
    else if kind == "network_transaction" then 1
    else if kind == "network_response" then 2
    else if kind == "page_content" then 3
    else if kind == "script_url" then 4
    else if kind == "iframe_url" then 5
    else if kind == "cookie" then 6
    else if kind == "form_submission" then 7
    else 8
  }

  predicate FromBrowser(s: Signal) {
    s.source == SOURCE_BROWSER && s.confidence == 1.0 && BrowserSignalRank(s.kind) < 8
  }

  predicate SignalBefore(left: Signal, right: Signal) {
    if BrowserSignalRank(left.kind) != BrowserSignalRank(right.kind) then
      BrowserSignalRank(left.kind) < BrowserSignalRank(right.kind)
    else if left.key != right.key then Before(left.key, right.key)
    else if left.value != right.value then Before(left.value, right.value)
    else if left.url != right.url then Before(left.url, right.url)
    else false
  }

  lemma SignalBeforeTotal(a: Signal, b: Signal)
    requires FromBrowser(a) && FromBrowser(b)
    ensures !SignalBefore(a, a) && (a == b || SignalBefore(a, b) || SignalBefore(b, a))
  {
    BeforeTotal(a.key, b.key);
    BeforeTotal(a.value, b.value);
    BeforeTotal(a.url, b.url);
  }

  lemma SignalBeforeTransitive(a: Signal, b: Signal, c: Signal)
    requires SignalBefore(a, b) && SignalBefore(b, c)
    ensures SignalBefore(a, c)
  {
    BeforeStrictTotal();
  }

  /** On what the browser emits, the comparator orders all signals: it may leave out type, source and confidence. */
  lemma SignalBeforeStrictTotal()
    ensures StrictTotalOn(SignalBefore, FromBrowser)
  {
    forall a: Signal, b: Signal | FromBrowser(a) && FromBrowser(b)
      ensures !SignalBefore(a, a) && (a == b || SignalBefore(a, b) || SignalBefore(b, a))
    {
      SignalBeforeTotal(a, b);
    }
    forall a: Signal, b: Signal, c: Signal | SignalBefore(a, b) && SignalBefore(b, c) ensures SignalBefore(a, c) {
      SignalBeforeTransitive(a, b, c);
    }
  }

  // ----- Sorting and compaction in place -----

  /** What a library sort leaves in the slice. */
  method SortInPlace(a: array<Signal>)
    modifies a
    ensures a[..] == SortBy(SignalBefore, old(a[..]))
  {
    var sorted := SortBy(SignalBefore, a[..]);
    SameSizeAsArray(sorted, a[..]);
    forall i | 0 <= i < a.Length {
      a[i] := sorted[i];
    }
    assert a[..] == sorted;
  }

  lemma SameSizeAsArray(s: seq<Signal>, t: seq<Signal>)
    requires multiset(s) == multiset(t)
    ensures |s| == |t|
  {
    SameElements(s, t);
  }

  /** The loop of the compaction before index i: the kept part grows behind the reading index, the rest is untouched. */
  ghost predicate Compacting(now: seq<Signal>, was: seq<Signal>, i: nat, n: nat) {
    && |now| == |was| && n <= i <= |was|
    && now[..n] == DropRuns(was[..i])
    && now[i..] == was[i..]
  }

  lemma CompactingStep(now: seq<Signal>, was: seq<Signal>, i: nat, n: nat)
    requires Compacting(now, was, i, n) && i < |was|
    ensures now[i] == was[i]
    ensures n > 0 && now[n - 1] == was[i] ==> Compacting(now, was, i + 1, n)
    ensures !(n > 0 && now[n - 1] == was[i]) ==> Compacting(now[n := was[i]], was, i + 1, n + 1)
  {
    assert now[i] == now[i..][0] && was[i] == was[i..][0];
    assert was[..i + 1][..i] == was[..i];
    var next := now[n := was[i]];
    assert next[..n + 1] == now[..n] + [was[i]];
    assert next[i + 1..] == now[i..][1..] && now[i + 1..] == now[i..][1..] && was[i + 1..] == was[i..][1..];
  }

  /** Keeps one copy of every run, writing into the slice that it reads; fails at the first invalid signal. */
  method CompactInPlace(a: array<Signal>) returns (ok: bool, n: nat)
    modifies a
    ensures ok <==> forall i | 0 <= i < a.Length :: ValidSignal(old(a[..])[i])
    ensures ok ==> n <= a.Length && a[..n] == DropRuns(old(a[..]))
  {
    ghost var was := a[..];
    n := 0;
    for i := 0 to a.Length
      invariant Compacting(a[..], was, i, n)
      invariant forall k | 0 <= k < i :: ValidSignal(was[k])
    {
      CompactingStep(a[..], was, i, n);
      var signal := a[i];
      if !ValidSignal(signal) {
        return false, n;
      }
      if n > 0 && a[n - 1] == signal {
        continue;
      }
      ghost var next := a[..][n := signal];
      a[n] := signal;
      assert a[..] == next;
      n := n + 1;
    }
    assert was[..a.Length] == was && a[..][..n] == a[..n];
    ok := true;
  }

  // ----- Normalization -----

  ghost predicate EmitsOnlyValid(decimal: int -> string, r: CaptureResult) {
    forall s | Emits(decimal, r, s) :: ValidSignal(s)
  }

  /** The strictly increasing list of exactly the emitted signals. */
  ghost predicate Normalizes(decimal: int -> string, r: CaptureResult, signals: seq<Signal>) {
    StrictlySorted(SignalBefore, signals) && forall s :: s in signals <==> Emits(decimal, r, s)
  }

  lemma {:induction false} EmittedIsFromBrowser(decimal: int -> string, r: CaptureResult, s: Signal)
    requires Emits(decimal, r, s)
    ensures FromBrowser(s)
  {
  }

  lemma CompactedIsCanonical(emitted: seq<Signal>)
    requires AllIn(emitted, FromBrowser)
    ensures StrictlySorted(SignalBefore, DropRuns(SortBy(SignalBefore, emitted)))
    ensures forall s :: s in DropRuns(SortBy(SignalBefore, emitted)) <==> s in emitted
  {
    SignalBeforeStrictTotal();
    SortBySorts(SignalBefore, FromBrowser, emitted);
    SameElements(SortBy(SignalBefore, emitted), emitted);
    DropRunsStrict(SignalBefore, FromBrowser, SortBy(SignalBefore, emitted));
  }

  lemma SortedSignalsValid(emitted: seq<Signal>, sorted: seq<Signal>)
    requires multiset(emitted) == multiset(sorted)
    ensures (forall i | 0 <= i < |sorted| :: ValidSignal(sorted[i])) <==> forall s | s in emitted :: ValidSignal(s)
  {
    SameElements(emitted, sorted);
    if forall i | 0 <= i < |sorted| :: ValidSignal(sorted[i]) {
      forall s | s in emitted ensures ValidSignal(s) {
        var i :| 0 <= i < |sorted| && sorted[i] == s;
      }
    }
  }

  /** Fails exactly when some emitted signal is invalid, and otherwise returns the canonical list of the emitted ones. */
  method NormalizeCapture(decimal: int -> string, r: CaptureResult) returns (result: Option<seq<Signal>>)
    ensures result.Some? <==> EmitsOnlyValid(decimal, r)
    ensures result.Some? ==> Normalizes(decimal, r, result.value)
  {
    var emitted := Emit(decimal, r);
    var signals := new Signal[|emitted|](i requires 0 <= i < |emitted| => emitted[i]);
    assert signals[..] == emitted;
    SortInPlace(signals);
    SortedSignalsValid(emitted, SortBy(SignalBefore, emitted));
    forall s | s in emitted ensures FromBrowser(s) { EmittedIsFromBrowser(decimal, r, s); }
    CompactedIsCanonical(emitted);
    var ok, n := CompactInPlace(signals);
    if !ok {
      return None;
    }
    result := Some(signals[..n]);
  }

  lemma ValidUnlessKeyBlank(s: Signal)
    requires FromBrowser(s)
    ensures ValidSignal(s) <==> !Blank(s.key)
  {
    assert !IsSpace(SOURCE_BROWSER[0]);
  }

  lemma FixedKeysAreNotBlank()
    ensures !Blank("action") && !Blank("status") && !Blank("dom") && !Blank("src")
  {
    assert !IsSpace("action"[0]) && !IsSpace("status"[0]) && !IsSpace("dom"[0]) && !IsSpace("src"[0]);
  }

  /** Only cookies can bring a blank key. */
  lemma OtherKeysAreNotBlank(decimal: int -> string, r: CaptureResult, s: Signal)
    requires Emits(decimal, r, s) && !Gives((x: Cookie) => CookieSignal(r.finalURL, x), r.cookies, s)
    ensures !Blank(s.key)
  {
    FixedKeysAreNotBlank();
    if Gives((x: Request) => RequestSignal(r.finalURL, x), r.requests, s) {
      var i :| 0 <= i < |r.requests| && RequestSignal(r.finalURL, r.requests[i]) == Some(s);
      MethodBlankIffEmpty(r.requests[i].verb);
    }
    if Gives((x: Transaction) => TransactionSignal(decimal, x), r.transactions, s) {
      var i :| 0 <= i < |r.transactions| && TransactionSignal(decimal, r.transactions[i]) == Some(s);
      MethodBlankIffEmpty(r.transactions[i].verb);
    }
  }

  ghost predicate BlankName(c: Cookie) {
    c.name != "" && c.domain != "" && Blank(c.name)
  }

  /** Normalization fails exactly for a cookie whose name is blank but not empty. */
  lemma OnlyBlankCookiesFail(decimal: int -> string, r: CaptureResult)
    ensures EmitsOnlyValid(decimal, r) <==> forall i | 0 <= i < |r.cookies| :: !BlankName(r.cookies[i])
  {
    if EmitsOnlyValid(decimal, r) {
      forall i | 0 <= i < |r.cookies| ensures !BlankName(r.cookies[i]) {
        var c := r.cookies[i];
        if c.name != "" && c.domain != "" {
          var s := BrowserSignal("cookie", c.name, c.domain, r.finalURL);
          assert CookieSignal(r.finalURL, r.cookies[i]) == Some(s);
          assert Gives((x: Cookie) => CookieSignal(r.finalURL, x), r.cookies, s);
          assert Emits(decimal, r, s);
        }
      }
    }
    if forall i | 0 <= i < |r.cookies| :: !BlankName(r.cookies[i]) {
      forall s | Emits(decimal, r, s) ensures ValidSignal(s) { ValidWithoutBlankNames(decimal, r, s); }
    }
  }

  lemma ValidWithoutBlankNames(decimal: int -> string, r: CaptureResult, s: Signal)
    requires Emits(decimal, r, s) && forall i | 0 <= i < |r.cookies| :: !BlankName(r.cookies[i])
    ensures ValidSignal(s)
  {
    EmittedIsFromBrowser(decimal, r, s);
    ValidUnlessKeyBlank(s);
    if Gives((x: Cookie) => CookieSignal(r.finalURL, x), r.cookies, s) {
      var i :| 0 <= i < |r.cookies| && CookieSignal(r.finalURL, r.cookies[i]) == Some(s);
      assert !BlankName(r.cookies[i]);
    } else {
      OtherKeysAreNotBlank(decimal, r, s);
    }
  }

  /** Two captures that emit the same signals are normalized to the same list. */
  lemma NormalizationIsCanonical(decimal: int -> string, a: CaptureResult, b: CaptureResult, s: seq<Signal>, t: seq<Signal>)
    requires forall x :: Emits(decimal, a, x) <==> Emits(decimal, b, x)
    requires Normalizes(decimal, a, s) && Normalizes(decimal, b, t)
    ensures s == t
  {
    SignalBeforeStrictTotal();
    forall x | x in s ensures FromBrowser(x) { EmittedIsFromBrowser(decimal, a, x); }
    StrictlySortedUnique(SignalBefore, FromBrowser, s, t);
  }

  // ----- From events to signals -----

  /** Two captures with the same parts, in any order and any number of copies. */
  ghost predicate SameObservations(a: CaptureResult, b: CaptureResult) {
    && a.finalURL == b.finalURL && a.dom == b.dom
    && (forall x :: x in a.requests <==> x in b.requests)
    && (forall x :: x in a.transactions <==> x in b.transactions)
    && (forall x :: x in a.forms <==> x in b.forms)
    && (forall x :: x in a.responses <==> x in b.responses)
    && (forall x :: x in a.scriptURLs <==> x in b.scriptURLs)
    && (forall x :: x in a.iframeURLs <==> x in b.iframeURLs)
    && (forall x :: x in a.cookies <==> x in b.cookies)
  }

  lemma GivesAlike<T>(f: T -> Option<Signal>, a: seq<T>, b: seq<T>, s: Signal)
    requires forall x :: x in a ==> x in b
    ensures Gives(f, a, s) ==> Gives(f, b, s)
  {
    if Gives(f, a, s) {
      var i :| 0 <= i < |a| && f(a[i]) == Some(s);
      assert a[i] in a;
      var j :| 0 <= j < |b| && b[j] == a[i];
    }
  }

  lemma SameObservationsEmitTheSame(decimal: int -> string, a: CaptureResult, b: CaptureResult, s: Signal)
    requires SameObservations(a, b)
    ensures Emits(decimal, a, s) ==> Emits(decimal, b, s)
  {
    GivesAlike((x: Request) => RequestSignal(a.finalURL, x), a.requests, b.requests, s);
    GivesAlike((x: Transaction) => TransactionSignal(decimal, x), a.transactions, b.transactions, s);
    GivesAlike((x: string) => FormSignal(a.finalURL, x), a.forms, b.forms, s);
    GivesAlike((x: Response) => ResponseSignal(decimal, x), a.responses, b.responses, s);
    GivesAlike((x: string) => ScriptSignal(a.finalURL, x), a.scriptURLs, b.scriptURLs, s);
    GivesAlike((x: string) => IframeSignal(a.finalURL, x), a.iframeURLs, b.iframeURLs, s);
    GivesAlike((x: Cookie) => CookieSignal(a.finalURL, x), a.cookies, b.cookies, s);
  }

  /** Neither the order of a capture's parts nor repetitions in them reach the normalized signals. */
  lemma OrderIsErased(decimal: int -> string, a: CaptureResult, b: CaptureResult, s: seq<Signal>, t: seq<Signal>)
    requires SameObservations(a, b) && Normalizes(decimal, a, s) && Normalizes(decimal, b, t)
    ensures s == t && (EmitsOnlyValid(decimal, a) <==> EmitsOnlyValid(decimal, b))
  {
    forall x ensures Emits(decimal, a, x) <==> Emits(decimal, b, x) {
      SameObservationsEmitTheSame(decimal, a, b, x);
      SameObservationsEmitTheSame(decimal, b, a, x);
    }
    NormalizationIsCanonical(decimal, a, b, s, t);
  }

  /** The capture result of a collector, with what other channels contribute. */
  ghost function CaptureOf(c: Collector, rest: CaptureResult): CaptureResult {
    rest.(requests := c.requests, responses := c.responses, transactions := SortBy(Precedes, c.correlation.transactions))
  }

  /**
   * End to end: unless a ceiling was met, interleaving the same request lifecycles differently changes neither whether
   * normalization succeeds nor any of the signals that rules will see.
   */
  lemma InterleavingNeverReachesSignals(
      limit: nat, lib: Sanitizer, decimal: int -> string, rest: CaptureResult, a: seq<Event>, b: seq<Event>,
      s: seq<Signal>, t: seq<Signal>)
    requires SameParts(IdOf, a, b) && Unclipped(Collected(limit, lib, a))
    requires Normalizes(decimal, CaptureOf(Collected(limit, lib, a), rest), s)
    requires Normalizes(decimal, CaptureOf(Collected(limit, lib, b), rest), t)
    ensures s == t
    ensures EmitsOnlyValid(decimal, CaptureOf(Collected(limit, lib, a), rest))
       <==> EmitsOnlyValid(decimal, CaptureOf(Collected(limit, lib, b), rest))
  {
    ArrivalOrderIsLost(limit, lib, a, b);
    var c, d := Collected(limit, lib, a), Collected(limit, lib, b);
    SameElements(c.requests, d.requests);
    SameElements(c.responses, d.responses);
    OrderIsErased(decimal, CaptureOf(c, rest), CaptureOf(d, rest), s, t);
  }

  /** Browser signals meet the hypothesis of conclusive negatives: each is certain, so nothing can outdo it. */
  lemma NormalizedSignalsAreSettled(ch: Channels, decimal: int -> string, r: CaptureResult, signals: seq<Signal>)
    requires Normalizes(decimal, r, signals)
    ensures Settled(ch, Elements(signals))
  {
    forall s | s in Elements(signals) ensures s.confidence == 1.0 { EmittedIsFromBrowser(decimal, r, s); }
    CertainIsSettled(ch, Elements(signals));
  }
}
