/** What the budgets of the serializer guarantee, and what its flags tell. */
module DomBounds {
  import opened Utf16
  import opened DomModel
  import opened DomLaws
  import opened DomPieces

  // ----- Resources -----

  /** What becomes of one source: dropped for its size, ignored, or a URL to collect. */
  datatype Fate = Oversized | Ignored | Wanted(url: Text)

  function FateOf(browser: Browser, limits: Limits, rawURL: Text): Fate {
    if !FitsURL(limits, rawURL) then Oversized
    else
      match browser.resolve(rawURL)
      case None => Ignored
      case Some(resolved) => if FitsURL(limits, resolved) then Wanted(resolved) else Oversized
  }

  /** The URLs to collect among some sources, in order. */
  function WantedOf(browser: Browser, limits: Limits, sources: seq<Text>): seq<Text> {
    if sources == [] then []
    else
      var fate := FateOf(browser, limits, sources[|sources| - 1]);
      WantedOf(browser, limits, sources[..|sources| - 1]) + if fate.Wanted? then [fate.url] else []
  }

  predicate AnyOversized(browser: Browser, limits: Limits, sources: seq<Text>) {
    sources != []
    && (AnyOversized(browser, limits, sources[..|sources| - 1])
        || FateOf(browser, limits, sources[|sources| - 1]).Oversized?)
  }

  predicate TruncatedFlag(f: Found, kind: Kind) {
    if kind.Script? then f.scriptTruncated else f.iframeTruncated
  }

  function FirstOf(s: seq<Text>, n: nat): (r: seq<Text>) {
    if |s| <= n then s else s[..n]
  }

  /** The first wanted URLs are collected; the flag of the kind is raised exactly when something of it was dropped. */
  ghost predicate Tells(browser: Browser, limits: Limits, f: Found, kind: Kind, sources: seq<Text>) {
    var wanted := WantedOf(browser, limits, sources);
    && URLsFound(f, kind) == FirstOf(wanted, limits.maxResources)
    && (TruncatedFlag(f, kind) <==> |wanted| > limits.maxResources || AnyOversized(browser, limits, sources))
  }

  lemma WantedNext(browser: Browser, limits: Limits, sources: seq<Text>, next: Text)
    ensures WantedOf(browser, limits, sources + [next])
         == WantedOf(browser, limits, sources)
            + if FateOf(browser, limits, next).Wanted? then [FateOf(browser, limits, next).url] else []
    ensures AnyOversized(browser, limits, sources + [next])
       <==> AnyOversized(browser, limits, sources) || FateOf(browser, limits, next).Oversized?
  {
    assert (sources + [next])[..|sources|] == sources;
  }

  lemma CollectStep(browser: Browser, limits: Limits, f: Found, kind: Kind, rawURL: Text)
    ensures var next, fate := CollectResource(browser, limits, f, kind, rawURL), FateOf(browser, limits, rawURL);
            && URLsFound(next, kind)
               == (if fate.Wanted? && |URLsFound(f, kind)| != limits.maxResources then URLsFound(f, kind) + [fate.url]
                   else URLsFound(f, kind))
            && (TruncatedFlag(next, kind) <==>
                TruncatedFlag(f, kind) || fate.Oversized? || (fate.Wanted? && |URLsFound(f, kind)| == limits.maxResources))
  {
  }

  lemma CollectOther(browser: Browser, limits: Limits, f: Found, kind: Kind, rawURL: Text, other: Kind)
    requires other != kind
    ensures URLsFound(CollectResource(browser, limits, f, kind, rawURL), other) == URLsFound(f, other)
    ensures TruncatedFlag(CollectResource(browser, limits, f, kind, rawURL), other) == TruncatedFlag(f, other)
  {
  }

  lemma TellsNext(browser: Browser, limits: Limits, f: Found, kind: Kind, sources: seq<Text>, rawURL: Text)
    requires Tells(browser, limits, f, kind, sources)
    ensures Tells(browser, limits, CollectResource(browser, limits, f, kind, rawURL), kind, sources + [rawURL])
  {
    CollectStep(browser, limits, f, kind, rawURL);
    WantedNext(browser, limits, sources, rawURL);
  }

  lemma TellsToken(browser: Browser, limits: Limits, s: Progression, token: Token, kind: Kind, sources: seq<Text>)
    requires !s.halted && Tells(browser, limits, s.found, kind, sources)
    ensures Tells(browser, limits, Process(browser, limits, s, token).found, kind, sources + TokenSource(token, kind))
  {
    if token.Source? && token.kind == kind {
      TellsNext(browser, limits, s.found, kind, sources, token.url);
    } else {
      assert sources + TokenSource(token, kind) == sources;
      if token.Source? { CollectOther(browser, limits, s.found, token.kind, token.url, kind); }
    }
  }

  lemma {:induction false} ResourcesAreTold(browser: Browser, limits: Limits, tokens: seq<Token>, kind: Kind)
    requires !ProcessAll(browser, limits, Fresh(), tokens).halted
    ensures Tells(browser, limits, ProcessAll(browser, limits, Fresh(), tokens).found, kind, SourcesOf(tokens, kind))
  {
    if tokens != [] {
      var init, last := tokens[..|tokens| - 1], tokens[|tokens| - 1];
      ResourcesAreTold(browser, limits, init, kind);
      TellsToken(browser, limits, ProcessAll(browser, limits, Fresh(), init), last, kind, SourcesOf(init, kind));
    }
  }

  lemma {:induction false} ResourcesAreBounded(browser: Browser, limits: Limits, tokens: seq<Token>, kind: Kind)
    ensures |URLsFound(ProcessAll(browser, limits, Fresh(), tokens).found, kind)| <= limits.maxResources
  {
    if tokens != [] {
      var init, last := tokens[..|tokens| - 1], tokens[|tokens| - 1];
      var before := ProcessAll(browser, limits, Fresh(), init);
      ResourcesAreBounded(browser, limits, init, kind);
      if last.Source? {
        CollectStep(browser, limits, before.found, last.kind, last.url);
        if last.kind != kind { CollectOther(browser, limits, before.found, last.kind, last.url, kind); }
      }
    }
  }

  // ----- The serializer -----

  function Result(browser: Browser, limits: Limits, document: Node): Snapshot {
    SnapshotOf(ProcessAll(browser, limits, Fresh(), Tokens(browser, document, false)))
  }

  /** The pieces that the walk gets to append. */
  function ReachedPieces(browser: Browser, limits: Limits, document: Node): seq<Text> {
    Pieces(Reached(Tokens(browser, document, false), limits.maxWork))
  }

  /** The bytes that the whole text of a document is charged. */
  function CostOf(browser: Browser, document: Node): nat {
    Cost(Pieces(Tokens(browser, document, false)))
  }

  /** Unless its flag is raised, the text is the plain serialization; it never exceeds the byte budget. */
  lemma TextIsExact(browser: Browser, limits: Limits, document: Node)
    ensures !Result(browser, limits, document).domTruncated ==>
              Result(browser, limits, document).dom == Serialize(browser, document, false)
    ensures Utf8Length(Result(browser, limits, document).dom) <= limits.maxBytes
  {
    var tokens := Tokens(browser, document, false);
    DocumentMeans(browser, document, false, Script);
    ReachedFeeds(browser, limits, tokens);
    FeedWithinBudget(limits, ReachedPieces(browser, limits, document));
    if !ProcessAll(browser, limits, Fresh(), tokens).halted {
      TokensFeed(browser, limits, tokens);
      FeedIsExact(limits, Pieces(tokens));
      PiecesAreWhole(tokens);
    }
  }

  /** The traversal is cut off exactly when the document has more nodes and attributes than the work ceiling. */
  lemma TraversalIsExact(browser: Browser, limits: Limits, document: Node)
    ensures Result(browser, limits, document).traversalTruncated <==> WorkOf(document) > limits.maxWork
  {
    DocumentMeans(browser, document, false, Script);
    WorkIsCounted(browser, limits, Tokens(browser, document, false));
  }

  /** The flag of the text is raised exactly when the document is more work, or costs more bytes, than is allowed. */
  lemma TruncationIsExact(browser: Browser, limits: Limits, document: Node)
    ensures Result(browser, limits, document).domTruncated
       <==> WorkOf(document) > limits.maxWork || CostOf(browser, document) > limits.maxBytes
  {
    var tokens := Tokens(browser, document, false);
    TraversalIsExact(browser, limits, document);
    if WorkOf(document) <= limits.maxWork {
      TokensFeed(browser, limits, tokens);
      FeedIsExact(limits, Pieces(tokens));
      DocumentEndsFull(browser, document);
    }
  }

  /** The cost lies between the bytes of the whole text and three for each of its code units. */
  lemma CostIsBounded(browser: Browser, document: Node)
    ensures Utf8Length(Serialize(browser, document, false)) <= CostOf(browser, document)
    ensures CostOf(browser, document) <= 3 * |Serialize(browser, document, false)|
  {
    var tokens := Tokens(browser, document, false);
    DocumentMeans(browser, document, false, Script);
    PiecesAreWhole(tokens);
    CostBounds(Pieces(tokens));
  }

  /** A document with room to spare is never truncated. */
  lemma RoomToSpare(browser: Browser, limits: Limits, document: Node)
    requires WorkOf(document) <= limits.maxWork && 3 * |Serialize(browser, document, false)| <= limits.maxBytes
    ensures !Result(browser, limits, document).domTruncated
    ensures Result(browser, limits, document).dom == Serialize(browser, document, false)
  {
    TruncationIsExact(browser, limits, document);
    CostIsBounded(browser, document);
    TextIsExact(browser, limits, document);
  }

  function URLsOf(snapshot: Snapshot, kind: Kind): seq<Text> {
    if kind.Script? then snapshot.scriptURLs else snapshot.iframeURLs
  }

  predicate FlagOf(snapshot: Snapshot, kind: Kind) {
    if kind.Script? then snapshot.scriptTruncated else snapshot.iframeTruncated
  }

  /**
   * If the traversal was complete, the collected URLs are the first wanted ones in document order, and all of them
   * unless the flag is raised, which happens exactly when there were too many or one was too long.
   */
  lemma ResourcesAreExact(browser: Browser, limits: Limits, document: Node, kind: Kind)
    ensures |URLsOf(Result(browser, limits, document), kind)| <= limits.maxResources
    ensures var r, sources := Result(browser, limits, document), SourcesIn(browser, document, kind);
            var wanted := WantedOf(browser, limits, sources);
            !r.traversalTruncated ==>
              && URLsOf(r, kind) == FirstOf(wanted, limits.maxResources)
              && (FlagOf(r, kind) <==> |wanted| > limits.maxResources || AnyOversized(browser, limits, sources))
  {
    var tokens := Tokens(browser, document, false);
    DocumentMeans(browser, document, false, kind);
    ResourcesAreBounded(browser, limits, tokens, kind);
    if !ProcessAll(browser, limits, Fresh(), tokens).halted {
      ResourcesAreTold(browser, limits, tokens, kind);
    }
  }

  // ----- The URL ceiling -----

  /** The URL ceiling counts code units; in bytes, one more than the ceiling gets through. */
  lemma FitsURLExactly(limits: Limits, value: Text)
    ensures FitsURL(limits, value) <==> |value| <= limits.maxURLBytes && Utf8Length(value) <= limits.maxURLBytes + 1
  {
    AllEncoded(value, limits.maxURLBytes + 1);
  }

  lemma {:induction false} AsciiLength(n: nat, last: Unit)
    requires 0x80 <= last < 0x800
    ensures Utf8Length(seq(n, i => 'a' as int) + [last]) == n + 2
  {
    var s: Text := seq(n, i => 'a' as int);
    if n == 0 {
      assert s + [last] == [last];
    } else {
      AsciiLength(n - 1, last);
      assert (s + [last])[1..] == seq(n - 1, i => 'a' as int) + [last];
    }
  }

  /** Such a URL exists for every ceiling. */
  lemma OneByteTooLong(limits: Limits)
    requires limits.maxURLBytes > 0
    ensures exists value :: FitsURL(limits, value) && Utf8Length(value) == limits.maxURLBytes + 1
  {
    var value := seq(limits.maxURLBytes - 1, i => 'a' as int) + [0xE9];
    AsciiLength(limits.maxURLBytes - 1, 0xE9);
    FitsURLExactly(limits, value);
  }
}
