/** Which signals a capture emits, field by field. */
module EmissionMeanings {
  import opened Model
  import opened Capture
  import opened Normalize

  // ----- Methods -----

  /** core is what is left of text without the white space around it. */
  ghost predicate Trims(core: string, text: string) {
    && (core == "" || (!IsSpace(core[0]) && !IsSpace(core[|core| - 1])))
    && exists front: string, back: string :: text == front + core + back && Blank(front) && Blank(back)
  }

  ghost predicate UpperOf(upper: string, text: string) {
    |upper| == |text|
    && forall i | 0 <= i < |text| :: upper[i] == if 'a' <= text[i] <= 'z' then text[i] - 'a' + 'A' else text[i]
  }

  lemma {:induction false} TrimLeftMeans(s: string) returns (front: string)
    ensures s == front + TrimLeft(s) && Blank(front) && (TrimLeft(s) == "" || !IsSpace(TrimLeft(s)[0]))
  {
    if s != [] && IsSpace(s[0]) {
      var rest := TrimLeftMeans(s[1..]);
      front := [s[0]] + rest;
    } else {
      front := "";
    }
  }

  lemma {:induction false} TrimRightMeans(s: string) returns (back: string)
    ensures s == TrimRight(s) + back && Blank(back)
    ensures TrimRight(s) == "" || !IsSpace(TrimRight(s)[|TrimRight(s)| - 1])
  {
    if s != [] && IsSpace(s[|s| - 1]) {
      var init, last := s[..|s| - 1], s[|s| - 1];
      var rest := TrimRightMeans(init);
      back := rest + [last];
      LongerBack(s, init, TrimRight(init), rest, last);
    } else {
      back := "";
    }
  }

  lemma LongerBack(s: string, init: string, core: string, back: string, last: char)
    requires s == init + [last] && init == core + back && Blank(back) && IsSpace(last)
    ensures s == core + (back + [last]) && Blank(back + [last])
  {
  }

  /** The method of a request is its trimmed verb in upper case. */
  lemma MethodMeans(verb: string)
    ensures exists core :: Trims(core, verb) && UpperOf(MethodOf(verb), core)
  {
    var left := TrimLeft(verb);
    var core := TrimRight(left);
    var front := TrimLeftMeans(verb);
    var back := TrimRightMeans(left);
    assert verb == front + core + back;
    if core != "" { assert core[0] == left[0]; }
    assert Trims(core, verb);
  }

  // ----- Signals -----

  /** What a browser signal of a kind looks like. */
  predicate IsSignal(x: Signal, kind: string, key: string, value: string, url: string) {
    x.kind == kind && x.source == "browser_analyzer" && x.key == key && x.value == value && x.url == url && x.confidence == 1.0
  }

  ghost predicate FromRequest(r: CaptureResult, x: Signal) {
    exists q :: q in r.requests && q.url != "" && MethodOf(q.verb) != ""
      && IsSignal(x, "network_request", MethodOf(q.verb), q.url, r.finalURL)
  }

  ghost predicate FromTransaction(decimal: int -> string, r: CaptureResult, x: Signal) {
    exists t :: t in r.transactions && t.url != "" && t.status > 0 && MethodOf(t.verb) != "" && MethodOf(t.verb) != "GET"
      && IsSignal(x, "network_transaction", MethodOf(t.verb), decimal(t.status), t.url)
  }

  ghost predicate FromForm(r: CaptureResult, x: Signal) {
    exists action :: action in r.forms && action != "" && IsSignal(x, "form_submission", "action", action, r.finalURL)
  }

  ghost predicate FromResponse(decimal: int -> string, r: CaptureResult, x: Signal) {
    exists p :: p in r.responses && p.url != "" && p.status > 0
      && IsSignal(x, "network_response", "status", decimal(p.status), p.url)
  }

  ghost predicate FromDOM(r: CaptureResult, x: Signal) {
    r.dom != "" && IsSignal(x, "page_content", "dom", r.dom, r.finalURL)
  }

  ghost predicate FromScript(r: CaptureResult, x: Signal) {
    exists u :: u in r.scriptURLs && u != "" && IsSignal(x, "script_url", "src", u, r.finalURL)
  }

  ghost predicate FromIframe(r: CaptureResult, x: Signal) {
    exists u :: u in r.iframeURLs && u != "" && IsSignal(x, "iframe_url", "src", u, r.finalURL)
  }

  ghost predicate FromCookie(r: CaptureResult, x: Signal) {
    exists k :: k in r.cookies && k.name != "" && k.domain != "" && IsSignal(x, "cookie", k.name, k.domain, r.finalURL)
  }

  lemma GivesIff<T(!new)>(f: T -> Option<Signal>, items: seq<T>, x: Signal)
    ensures Gives(f, items, x) <==> exists item :: item in items && f(item) == Some(x)
  {
    if Gives(f, items, x) {
      var i :| 0 <= i < |items| && f(items[i]) == Some(x);
      assert items[i] in items;
    }
    if item :| item in items && f(item) == Some(x) {
      var i :| 0 <= i < |items| && items[i] == item;
    }
  }

  lemma RequestsMean(r: CaptureResult, x: Signal)
    ensures Gives((q: Request) => RequestSignal(r.finalURL, q), r.requests, x) <==> FromRequest(r, x)
  {
    GivesIff((q: Request) => RequestSignal(r.finalURL, q), r.requests, x);
  }

  lemma TransactionsMean(decimal: int -> string, r: CaptureResult, x: Signal)
    ensures Gives((t: Transaction) => TransactionSignal(decimal, t), r.transactions, x) <==> FromTransaction(decimal, r, x)
  {
    GivesIff((t: Transaction) => TransactionSignal(decimal, t), r.transactions, x);
  }

  lemma FormsMean(r: CaptureResult, x: Signal)
    ensures Gives((a: string) => FormSignal(r.finalURL, a), r.forms, x) <==> FromForm(r, x)
  {
    GivesIff((a: string) => FormSignal(r.finalURL, a), r.forms, x);
  }

  lemma ResponsesMean(decimal: int -> string, r: CaptureResult, x: Signal)
    ensures Gives((p: Response) => ResponseSignal(decimal, p), r.responses, x) <==> FromResponse(decimal, r, x)
  {
    GivesIff((p: Response) => ResponseSignal(decimal, p), r.responses, x);
  }

  lemma ScriptsMean(r: CaptureResult, x: Signal)
    ensures Gives((u: string) => ScriptSignal(r.finalURL, u), r.scriptURLs, x) <==> FromScript(r, x)
  {
    GivesIff((u: string) => ScriptSignal(r.finalURL, u), r.scriptURLs, x);
  }

  lemma IframesMean(r: CaptureResult, x: Signal)
    ensures Gives((u: string) => IframeSignal(r.finalURL, u), r.iframeURLs, x) <==> FromIframe(r, x)
  {
    GivesIff((u: string) => IframeSignal(r.finalURL, u), r.iframeURLs, x);
  }

  lemma CookiesMean(r: CaptureResult, x: Signal)
    ensures Gives((k: Cookie) => CookieSignal(r.finalURL, k), r.cookies, x) <==> FromCookie(r, x)
  {
    GivesIff((k: Cookie) => CookieSignal(r.finalURL, k), r.cookies, x);
  }

  /** The signals of a capture, each with its source, fields and condition. */
  lemma EmitsMeans(decimal: int -> string, r: CaptureResult, x: Signal)
    ensures Emits(decimal, r, x) <==>
            || FromRequest(r, x) || FromTransaction(decimal, r, x) || FromForm(r, x) || FromResponse(decimal, r, x)
            || FromDOM(r, x) || FromScript(r, x) || FromIframe(r, x) || FromCookie(r, x)
  {
    RequestsMean(r, x);
    TransactionsMean(decimal, r, x);
    FormsMean(r, x);
    ResponsesMean(decimal, r, x);
    ScriptsMean(r, x);
    IframesMean(r, x);
    CookiesMean(r, x);
  }
}
