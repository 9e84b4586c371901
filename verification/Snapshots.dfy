/** From the page to one capture result: final URL, document, resources and cookies, cleaned within their ceilings. */
module Snapshots {
  import opened Model
  import opened Ordering
  import opened Interleaving
  import opened Capture
  import opened Normalize
  import opened ConclusiveExactly
  import opened ChannelCompleteness
  import opened Coverage
  import opened Conclusive
  import opened Schema
  import Utf16
  import DomModel
  import DomLaws
  import DomBounds

  // ----- Resource URLs -----

  function AcceptedURL(lib: Sanitizer): string -> Option<string> {
    (raw: string) => match ClassifyURL(lib, raw) case Accepted(url) => Some(url) case _ => None
  }

  /** The first accepted URLs are kept. */
  function KeptURLs(lib: Sanitizer, raws: seq<string>): seq<string> {
    var all := Collect(AcceptedURL(lib), raws);
    all[..Min(MAX_CAPTURE_ITEMS, |all|)]
  }

  /** There are too many, or one is too long. */
  ghost predicate URLsCut(lib: Sanitizer, raws: seq<string>) {
    || |Collect(AcceptedURL(lib), raws)| > MAX_CAPTURE_ITEMS
    || exists i | 0 <= i < |raws| :: ClassifyURL(lib, raws[i]).Oversized?
  }

  lemma KeptNext(lib: Sanitizer, raws: seq<string>, i: nat)
    requires i < |raws|
    ensures var before, now, cls := KeptURLs(lib, raws[..i]), KeptURLs(lib, raws[..i + 1]), ClassifyURL(lib, raws[i]);
            && now == (if cls.Accepted? && |before| != MAX_CAPTURE_ITEMS then before + [cls.url] else before)
            && (URLsCut(lib, raws[..i + 1]) <==>
                URLsCut(lib, raws[..i]) || cls.Oversized? || (cls.Accepted? && |before| == MAX_CAPTURE_ITEMS))
  {
    var init, all := raws[..i], raws[..i + 1];
    assert all[..|all| - 1] == init && all[|all| - 1] == raws[i];
    OversizedNext(lib, init, raws[i], all);
  }

  lemma OversizedNext(lib: Sanitizer, init: seq<string>, last: string, all: seq<string>)
    requires all == init + [last]
    ensures (exists i | 0 <= i < |all| :: ClassifyURL(lib, all[i]).Oversized?)
       <==> ClassifyURL(lib, last).Oversized? || exists i | 0 <= i < |init| :: ClassifyURL(lib, init[i]).Oversized?
  {
    assert all[|init|] == last && forall i | 0 <= i < |init| :: all[i] == init[i];
  }

  /** cleanResourceURLs. */
  method CleanResourceURLs(lib: Sanitizer, raws: seq<string>) returns (cleaned: seq<string>, truncated: bool)
    ensures cleaned == KeptURLs(lib, raws)
    ensures truncated <==> URLsCut(lib, raws)
  {
    cleaned, truncated := [], false;
    for i := 0 to |raws|
      invariant cleaned == KeptURLs(lib, raws[..i])
      invariant truncated <==> URLsCut(lib, raws[..i])
    {
      KeptNext(lib, raws, i);
      var cls := ClassifyURL(lib, raws[i]);
      if cls.Oversized? {
        truncated := true;
      }
      if !cls.Accepted? {
        continue;
      }
      if |cleaned| == MAX_CAPTURE_ITEMS {
        truncated := true;
        continue;
      }
      cleaned := cleaned + [cls.url];
    }
    assert raws[..|raws|] == raws;
  }

  /** What is not cut is all there. */
  lemma UncutIsKept(lib: Sanitizer, raws: seq<string>, raw: string)
    requires !URLsCut(lib, raws) && raw in raws && lib.sanitizeURL(raw).Some?
    ensures lib.sanitizeURL(raw).value in KeptURLs(lib, raws)
  {
    var i :| 0 <= i < |raws| && raws[i] == raw;
    assert !ClassifyURL(lib, raws[i]).Oversized?;
    CollectElements(AcceptedURL(lib), raws, lib.sanitizeURL(raw).value);
    assert AcceptedURL(lib)(raws[i]) == lib.sanitizeURL(raw);
  }

  // ----- Cookies -----

  predicate CookieBefore(a: Cookie, b: Cookie) {
    if a.name != b.name then Before(a.name, b.name) else a.domain != b.domain && Before(a.domain, b.domain)
  }

  predicate AnyCookie(c: Cookie) { true }

  lemma CookieBeforeTotal(a: Cookie, b: Cookie)
    ensures !CookieBefore(a, a) && (a == b || CookieBefore(a, b) || CookieBefore(b, a))
  {
    BeforeTotal(a.name, b.name);
    BeforeTotal(a.domain, b.domain);
  }

  lemma CookieBeforeTransitive(a: Cookie, b: Cookie, c: Cookie)
    requires CookieBefore(a, b) && CookieBefore(b, c)
    ensures CookieBefore(a, c)
  {
    BeforeStrictTotal();
  }

  lemma CookieBeforeStrictTotal()
    ensures StrictTotalOn(CookieBefore, AnyCookie)
  {
    forall a: Cookie, b: Cookie ensures !CookieBefore(a, a) && (a == b || CookieBefore(a, b) || CookieBefore(b, a)) {
      CookieBeforeTotal(a, b);
    }
    forall a: Cookie, b: Cookie, c: Cookie | CookieBefore(a, b) && CookieBefore(b, c) ensures CookieBefore(a, c) {
      CookieBeforeTransitive(a, b, c);
    }
  }

  /** The acceptable cookies, cleaned. */
  function CookieSet(clean: Cookie -> Option<Cookie>, cookies: seq<Cookie>): set<Cookie> {
    set i | 0 <= i < |cookies| && clean(cookies[i]).Some? :: clean(cookies[i]).value
  }

  /** The first acceptable cookies in order, each once. */
  ghost predicate KeepsCookies(clean: Cookie -> Option<Cookie>, cookies: seq<Cookie>, kept: seq<Cookie>, truncated: bool) {
    var all := CookieSet(clean, cookies);
    && |kept| == Min(MAX_CAPTURE_ITEMS, |all|) && (truncated <==> |all| > MAX_CAPTURE_ITEMS)
    && StrictlySorted(CookieBefore, kept) && (forall k | k in kept :: k in all)
    && (forall k, other | k in kept && other in all && other !in kept :: CookieBefore(k, other))
  }

  lemma CookieSetNext(clean: Cookie -> Option<Cookie>, cookies: seq<Cookie>, i: nat)
    requires i < |cookies|
    ensures CookieSet(clean, cookies[..i + 1]) == CookieSet(clean, cookies[..i]) +
              if clean(cookies[i]).Some? then {clean(cookies[i]).value} else {}
  {
    var init, all := cookies[..i], cookies[..i + 1];
    assert all[i] == cookies[i] && forall j | 0 <= j < i :: all[j] == init[j];
    forall k ensures k in CookieSet(clean, all) <==>
                     k in CookieSet(clean, init) || clean(cookies[i]) == Some(k) {
      if k in CookieSet(clean, init) {
        var j :| 0 <= j < i && clean(init[j]) == Some(k);
        assert clean(all[j]) == Some(k);
      }
      if clean(cookies[i]) == Some(k) { assert clean(all[i]) == Some(k); }
    }
  }

  /** The keys of the map in the order in which they happen to be visited. */
  method VisitAll(all: set<Cookie>) returns (listed: seq<Cookie>)
    ensures Elements(listed) == all && |listed| == |all|
    ensures forall i, j | 0 <= i < j < |listed| :: listed[i] != listed[j]
  {
    listed := [];
    var rest := all;
    while rest != {}
      invariant rest <= all && Elements(listed) == all - rest && |listed| + |rest| == |all|
      invariant forall i, j | 0 <= i < j < |listed| :: listed[i] != listed[j]
      decreases |rest|
    {
      var k :| k in rest;
      assert k !in Elements(listed);
      assert Elements(listed + [k]) == Elements(listed) + {k};
      listed := listed + [k];
      rest := rest - {k};
    }
  }

  lemma DistinctSorts(s: seq<Cookie>)
    requires forall i, j | 0 <= i < j < |s| :: s[i] != s[j]
    ensures StrictlySorted(CookieBefore, SortBy(CookieBefore, s))
    ensures Elements(SortBy(CookieBefore, s)) == Elements(s) && |SortBy(CookieBefore, s)| == |s|
  {
    var t := SortBy(CookieBefore, s);
    CookieBeforeStrictTotal();
    SortBySorts(CookieBefore, AnyCookie, s);
    SameElements(t, s);
    DistinctByCount(s, t);
    forall i, j | 0 <= i < j < |t| ensures CookieBefore(t[i], t[j]) {
      CookieBeforeTotal(t[i], t[j]);
      assert !CookieBefore(t[j], t[i]);
    }
  }

  lemma DistinctByCount<T>(s: seq<T>, t: seq<T>)
    requires multiset(s) == multiset(t) && forall i, j | 0 <= i < j < |s| :: s[i] != s[j]
    ensures forall i, j | 0 <= i < j < |t| :: t[i] != t[j]
  {
    forall i, j | 0 <= i < j < |t| ensures t[i] != t[j] {
      if t[i] == t[j] {
        CountsTwice(t, i, j);
        CountsOnce(s, t[i]);
        assert false;
      }
    }
  }

  lemma CountsTwice<T>(t: seq<T>, i: nat, j: nat)
    requires i < j < |t| && t[i] == t[j]
    ensures multiset(t)[t[i]] >= 2
  {
    assert t == t[..j] + [t[j]] + t[j + 1..];
    assert t[i] == t[..j][i];
    assert t[i] in t[..j];
    assert multiset(t) == multiset(t[..j]) + multiset([t[j]]) + multiset(t[j + 1..]);
  }

  lemma {:induction false} CountsOnce<T>(s: seq<T>, x: T)
    requires forall i, j | 0 <= i < j < |s| :: s[i] != s[j]
    ensures multiset(s)[x] <= 1
  {
    if s != [] {
      var init := s[..|s| - 1];
      assert s == init + [s[|s| - 1]];
      CountsOnce(init, x);
      if s[|s| - 1] == x { assert x !in init; }
    }
  }

  /** cleanCookies: through a map, in whatever order its keys are visited. */
  method CleanCookies(clean: Cookie -> Option<Cookie>, cookies: seq<Cookie>) returns (kept: seq<Cookie>, truncated: bool)
    ensures KeepsCookies(clean, cookies, kept, truncated)
  {
    var all: set<Cookie> := {};
    for i := 0 to |cookies|
      invariant all == CookieSet(clean, cookies[..i])
    {
      CookieSetNext(clean, cookies, i);
      if clean(cookies[i]).Some? {
        all := all + {clean(cookies[i]).value};
      }
    }
    assert cookies[..|cookies|] == cookies;
    var listed := VisitAll(all);
    DistinctSorts(listed);
    var sorted := SortBy(CookieBefore, listed);
    kept, truncated := sorted, false;
    if |sorted| > MAX_CAPTURE_ITEMS {
      kept, truncated := sorted[..MAX_CAPTURE_ITEMS], true;
    }
    FirstOfSorted(sorted, kept);
  }

  lemma FirstOfSorted(sorted: seq<Cookie>, kept: seq<Cookie>)
    requires StrictlySorted(CookieBefore, sorted) && kept <= sorted
    ensures StrictlySorted(CookieBefore, kept)
    ensures forall k, other | k in kept && other in sorted && other !in kept :: CookieBefore(k, other)
  {
    assert forall n | 0 <= n < |kept| :: kept[n] == sorted[n];
    forall k, other | k in kept && other in sorted && other !in kept ensures CookieBefore(k, other) {
      var i :| 0 <= i < |kept| && kept[i] == k;
      var j :| 0 <= j < |sorted| && sorted[j] == other;
      assert sorted[i] == k;
    }
  }

  // ----- The page and its snapshot -----

  /** What the browser library does: how texts are handed over, how they are shortened, how cookies are cleaned. */
  datatype Delivery = Delivery(
    encode: Utf16.Text -> string, shorten: string -> string, cleanCookie: Cookie -> Option<Cookie>)

  /** A page at the end of a navigation. A failed document capture or cookie query leaves None. */
  datatype Page = Page(
    navigated: bool, rawFinalURL: string, document: Option<DomModel.Node>, cookies: Option<seq<Cookie>>, forms: seq<string>)

  function Encoded(delivery: Delivery, texts: seq<Utf16.Text>): seq<string> {
    seq(|texts|, i requires 0 <= i < |texts| => delivery.encode(texts[i]))
  }

  /** A snapshot with nothing in it, which is what a failed capture leaves. */
  function NoSnapshot(): DomModel.Snapshot {
    DomModel.Snapshot([], [], [], false, false, false, false, false)
  }

  function SnapshotOfPage(browser: DomModel.Browser, limits: DomModel.Limits, page: Page): DomModel.Snapshot {
    if page.document.None? then NoSnapshot() else DomBounds.Result(browser, limits, page.document.value)
  }

  /** What the snapshot keeps of the document text, and whether it says that something is missing. */
  function KeptDOM(lib: Sanitizer, delivery: Delivery, s: DomModel.Snapshot): (r: (string, bool)) {
    var dom := delivery.encode(s.dom);
    if |dom| > DomModel.MAX_DOM_BYTES then (delivery.shorten(dom), true)
    else if lib.validText(dom) then (dom, s.domTruncated || s.traversalTruncated)
    else ("", false)
  }

  /** What a snapshot of the page holds, part by part, and which of its flags are raised. */
  ghost predicate Snaps(
      lib: Sanitizer, delivery: Delivery, page: Page, s: DomModel.Snapshot, rest: CaptureResult, flags: Completion)
  {
    var cls, dom := ClassifyURL(lib, page.rawFinalURL), KeptDOM(lib, delivery, s);
    && rest.finalURL == (if cls.Accepted? then cls.url else "") && (flags.finalURLIncomplete <==> !cls.Accepted?)
    && rest.dom == dom.0 && (flags.domTruncated <==> dom.1)
    && rest.scriptURLs == KeptURLs(lib, Encoded(delivery, s.scriptURLs))
    && (flags.scriptURLsTruncated <==>
        URLsCut(lib, Encoded(delivery, s.scriptURLs)) || s.scriptTruncated || s.traversalTruncated)
    && rest.iframeURLs == KeptURLs(lib, Encoded(delivery, s.iframeURLs))
    && (flags.iframeURLsTruncated <==>
        URLsCut(lib, Encoded(delivery, s.iframeURLs)) || s.iframeTruncated || s.traversalTruncated)
    && KeepsCookies(delivery.cleanCookie, CookiesOf(page), rest.cookies, flags.cookiesTruncated)
    && rest.forms == page.forms
    && flags.navigationIncomplete == !page.navigated && flags.domIncomplete == page.document.None?
    && flags.cookiesIncomplete == page.cookies.None?
  }

  function CookiesOf(page: Page): seq<Cookie> {
    if page.cookies.Some? then page.cookies.value else []
  }

  // ----- The page without ceilings -----

  /** What becomes of a source that nothing is too long for. */
  function WholeResource(lib: Sanitizer, delivery: Delivery, browser: DomModel.Browser): Utf16.Text -> Option<string> {
    (raw: Utf16.Text) =>
      match browser.resolve(raw)
      case None => None
      case Some(url) => lib.sanitizeURL(delivery.encode(url))
  }

  function WholeResources(
      lib: Sanitizer, delivery: Delivery, browser: DomModel.Browser, document: DomModel.Node, kind: DomModel.Kind): seq<string>
  {
    Collect(WholeResource(lib, delivery, browser), DomLaws.SourcesIn(browser, document, kind))
  }

  /** Everything the page has to offer, in any order of its cookies. */
  ghost predicate Offers(
      lib: Sanitizer, delivery: Delivery, browser: DomModel.Browser, page: Page, whole: CaptureResult)
  {
    && whole.finalURL == WholeURL(lib, page.rawFinalURL) && whole.forms == page.forms
    && (page.document.Some? ==>
          && whole.dom == delivery.encode(DomLaws.Serialize(browser, page.document.value, false))
          && whole.scriptURLs == WholeResources(lib, delivery, browser, page.document.value, DomModel.Script)
          && whole.iframeURLs == WholeResources(lib, delivery, browser, page.document.value, DomModel.Iframe))
    && (page.cookies.Some? ==> Elements(whole.cookies) == CookieSet(delivery.cleanCookie, page.cookies.value))
  }

  lemma {:induction false} AllWanted(browser: DomModel.Browser, limits: DomModel.Limits, sources: seq<Utf16.Text>, raw: Utf16.Text)
    requires !DomBounds.AnyOversized(browser, limits, sources) && raw in sources && browser.resolve(raw).Some?
    ensures browser.resolve(raw).value in DomBounds.WantedOf(browser, limits, sources)
  {
    var init, last := sources[..|sources| - 1], sources[|sources| - 1];
    if raw != last {
      assert raw in init;
      AllWanted(browser, limits, init, raw);
    }
  }

  /** With the flag of its kind clear, and a complete traversal, a snapshot lists every source of the document. */
  lemma SourceIsListed(
      browser: DomModel.Browser, limits: DomModel.Limits, document: DomModel.Node, kind: DomModel.Kind, raw: Utf16.Text)
    requires var r := DomBounds.Result(browser, limits, document); !r.traversalTruncated && !DomBounds.FlagOf(r, kind)
    requires raw in DomLaws.SourcesIn(browser, document, kind) && browser.resolve(raw).Some?
    ensures browser.resolve(raw).value in DomBounds.URLsOf(DomBounds.Result(browser, limits, document), kind)
  {
    DomBounds.ResourcesAreExact(browser, limits, document, kind);
    AllWanted(browser, limits, DomLaws.SourcesIn(browser, document, kind), raw);
  }

  /** No resource is missing where neither the serializer nor the cleaning cut anything. */
  lemma ResourcesAreKept(
      lib: Sanitizer, delivery: Delivery, browser: DomModel.Browser, limits: DomModel.Limits, document: DomModel.Node,
      kind: DomModel.Kind, u: string)
    requires var r := DomBounds.Result(browser, limits, document);
             && !r.traversalTruncated && !DomBounds.FlagOf(r, kind)
             && !URLsCut(lib, Encoded(delivery, DomBounds.URLsOf(r, kind)))
    requires u in WholeResources(lib, delivery, browser, document, kind)
    ensures u in KeptURLs(lib, Encoded(delivery, DomBounds.URLsOf(DomBounds.Result(browser, limits, document), kind)))
  {
    var sources, listed := DomLaws.SourcesIn(browser, document, kind), DomBounds.URLsOf(DomBounds.Result(browser, limits, document), kind);
    CollectElements(WholeResource(lib, delivery, browser), sources, u);
    var i :| 0 <= i < |sources| && WholeResource(lib, delivery, browser)(sources[i]) == Some(u);
    var url := browser.resolve(sources[i]).value;
    SourceIsListed(browser, limits, document, kind, sources[i]);
    var j :| 0 <= j < |listed| && listed[j] == url;
    assert Encoded(delivery, listed)[j] == delivery.encode(url);
    UncutIsKept(lib, Encoded(delivery, listed), delivery.encode(url));
  }

  lemma CookiesAreKept(clean: Cookie -> Option<Cookie>, cookies: seq<Cookie>, kept: seq<Cookie>, k: Cookie)
    requires KeepsCookies(clean, cookies, kept, false) && k in CookieSet(clean, cookies)
    ensures k in kept
  {
    var all := CookieSet(clean, cookies);
    StrictlySortedCounts(kept);
    assert Elements(kept) <= all;
    SubsetOfSameSize(Elements(kept), all);
  }

  lemma {:induction false} StrictlySortedCounts(s: seq<Cookie>)
    requires StrictlySorted(CookieBefore, s)
    ensures |Elements(s)| == |s|
  {
    if s != [] {
      var init, last := s[..|s| - 1], s[|s| - 1];
      assert StrictlySorted(CookieBefore, init);
      StrictlySortedCounts(init);
      assert last !in Elements(init) by { CookieBeforeTotal(last, last); }
      assert Elements(s) == Elements(init) + {last};
    }
  }

  lemma SubsetOfSameSize<T>(a: set<T>, b: set<T>)
    requires a <= b && |a| == |b|
    ensures a == b
  {
    assert |b - a| == |b| - |a|;
  }

  /** The document text is all there unless it is flagged. */
  lemma DOMIsKept(
      lib: Sanitizer, delivery: Delivery, browser: DomModel.Browser, limits: DomModel.Limits, document: DomModel.Node)
    requires forall text :: lib.validText(delivery.encode(text))
    requires !KeptDOM(lib, delivery, DomBounds.Result(browser, limits, document)).1
    ensures KeptDOM(lib, delivery, DomBounds.Result(browser, limits, document)).0
         == delivery.encode(DomLaws.Serialize(browser, document, false))
  {
    DomBounds.TextIsExact(browser, limits, document);
  }

  /**
   * The flags of a snapshot tell: where they are clear, the snapshot of the page is what the page has to offer, from the
   * document on.
   */
  lemma SnapshotTells(
      lib: Sanitizer, delivery: Delivery, browser: DomModel.Browser, limits: DomModel.Limits, page: Page,
      rest: CaptureResult, flags: Completion, whole: CaptureResult)
    requires forall text :: lib.validText(delivery.encode(text))
    requires Snaps(lib, delivery, page, SnapshotOfPage(browser, limits, page), rest, flags)
    requires Offers(lib, delivery, browser, page, whole)
    ensures OthersTell(flags, rest, whole)
  {
    if page.document.Some? {
      var document := page.document.value;
      if !flags.domTruncated { DOMIsKept(lib, delivery, browser, limits, document); }
      if !flags.scriptURLsTruncated {
        forall u | u in whole.scriptURLs ensures u in rest.scriptURLs {
          ResourcesAreKept(lib, delivery, browser, limits, document, DomModel.Script, u);
        }
      }
      if !flags.iframeURLsTruncated {
        forall u | u in whole.iframeURLs ensures u in rest.iframeURLs {
          ResourcesAreKept(lib, delivery, browser, limits, document, DomModel.Iframe, u);
        }
      }
    }
    if page.cookies.Some? && !flags.cookiesTruncated {
      forall k | k in whole.cookies ensures k in rest.cookies {
        assert k in Elements(whole.cookies);
        CookiesAreKept(delivery.cleanCookie, page.cookies.value, rest.cookies, k);
      }
    }
  }

  /** snapshotInternal, of what the serializer returned for the page: where a flag is clear, nothing is missing. */
  method SnapshotInternal(
      lib: Sanitizer, delivery: Delivery, ghost browser: DomModel.Browser, ghost limits: DomModel.Limits, page: Page,
      s: DomModel.Snapshot, requestsTruncated: bool, responsesTruncated: bool)
    returns (rest: CaptureResult, flags: Completion)
    requires s == SnapshotOfPage(browser, limits, page) && forall text :: lib.validText(delivery.encode(text))
    ensures Snaps(lib, delivery, page, s, rest, flags)
    ensures forall whole | Offers(lib, delivery, browser, page, whole) :: OthersTell(flags, rest, whole)
    ensures flags.requestsTruncated == requestsTruncated && flags.responsesTruncated == responsesTruncated
  {
    var cls := ClassifyURL(lib, page.rawFinalURL);
    var scriptURLs, scriptsCut := CleanResourceURLs(lib, Encoded(delivery, s.scriptURLs));
    var iframeURLs, iframesCut := CleanResourceURLs(lib, Encoded(delivery, s.iframeURLs));
    if s.scriptTruncated || s.traversalTruncated {
      scriptsCut := true;
    }
    if s.iframeTruncated || s.traversalTruncated {
      iframesCut := true;
    }
    var dom := KeptDOM(lib, delivery, s);
    var cookies, cookiesCut := CleanCookies(delivery.cleanCookie, if page.cookies.Some? then page.cookies.value else []);
    rest := CaptureResult(if cls.Accepted? then cls.url else "", dom.0, [], [], page.forms, [], scriptURLs, iframeURLs, cookies);
    flags := Completion(!page.navigated, !cls.Accepted?, page.document.None?, dom.1, requestsTruncated, responsesTruncated,
                        scriptsCut, iframesCut, page.cookies.None?, cookiesCut);
    forall whole | Offers(lib, delivery, browser, page, whole) ensures OthersTell(flags, rest, whole) {
      SnapshotTells(lib, delivery, browser, limits, page, rest, flags, whole);
    }
  }

  /** The run ends in a snapshot of the page, and its whole is what the page has to offer. */
  ghost predicate EndsIn(
      run: BrowserRun, delivery: Delivery, browser: DomModel.Browser, limits: DomModel.Limits, page: Page)
  {
    var c := Collected(run.limit, run.lib, run.events);
    && Snaps(run.lib, delivery, page, SnapshotOfPage(browser, limits, page), run.rest, run.flags)
    && Offers(run.lib, delivery, browser, page, run.wholeRest)
    && run.flags.requestsTruncated == c.requestsTruncated && run.flags.responsesTruncated == c.responsesTruncated
  }

  /** So the flags of every run of the browser tell. */
  lemma RunTells(run: BrowserRun, delivery: Delivery, browser: DomModel.Browser, limits: DomModel.Limits, page: Page)
    requires forall text :: run.lib.validText(delivery.encode(text))
    requires EndsIn(run, delivery, browser, limits, page)
    ensures FlagsTell(run)
  {
    SnapshotTells(run.lib, delivery, browser, limits, page, run.rest, run.flags, run.wholeRest);
  }

  /**
   * From page and events to verdicts, with no assumption on the flags: over all valid rule sets with patterns of the
   * class, no not-detected verdict is contradicted by what any ceiling withheld, neither those of the collector and the
   * snapshot nor those of the serializer, exactly if no predicate with such patterns matches a request that was lost in
   * silence while the coverage of what was seen closes it.
   */
  lemma PageVerdictsHoldIff(
      usable: TextPattern -> bool, ch: Channels, run: BrowserRun, delivery: Delivery, browser: DomModel.Browser,
      limits: DomModel.Limits, page: Page, signals: set<Signal>, whole: seq<Signal>)
    requires forall text :: run.lib.validText(delivery.encode(text))
    requires EndsIn(run, delivery, browser, limits, page) && Observes(ch, run, signals, whole)
    requires Confident(signals) && SettledWithin(usable, ch, signals)
    ensures (forall s: RuleSet, id | RulesWithin(usable, s.rules) ::
               !Contradicted(s, ch, signals, signals + Elements(whole), id))
       <==> forall e, x :: !Betrays(usable, ch, run, signals, e, x)
  {
    RunTells(run, delivery, browser, limits, page);
    VerdictsHoldIffNothingBetrays(usable, ch, run, signals, whole);
  }
}
