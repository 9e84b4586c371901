/** Where the resource URLs of a document come from, in terms of its elements. */
module DomSources {
  import opened Model
  import opened Utf16
  import opened DomModel
  import opened DomLaws
  import opened DomBounds

  /** part is node, or below it. */
  ghost predicate Under(part: Node, node: Node)
    decreases node
  {
    part == node ||
    match node
    case Element(_, _, children) => exists i | 0 <= i < |children| :: Under(part, children[i])
    case Other(children) => exists i | 0 <= i < |children| :: Under(part, children[i])
    case _ => false
  }

  /** Attribute i is named src, in any case, and none behind it is. */
  ghost predicate LastSourceAt(browser: Browser, attributes: seq<Attribute>, i: nat) {
    && i < |attributes| && browser.lower(attributes[i].name) == [0x73, 0x72, 0x63]
    && forall j | i < j < |attributes| :: browser.lower(attributes[j].name) != [0x73, 0x72, 0x63]
  }

  ghost predicate LastSource(browser: Browser, attributes: seq<Attribute>, url: Text) {
    exists i: nat :: LastSourceAt(browser, attributes, i) && attributes[i].value == url
  }

  function TagOf(kind: Kind): Text {
    if kind.Script? then [0x73, 0x63, 0x72, 0x69, 0x70, 0x74] else [0x69, 0x66, 0x72, 0x61, 0x6D, 0x65]
  }

  /** An element of the kind whose last src attribute is url. */
  ghost predicate Provides(browser: Browser, part: Node, kind: Kind, url: Text) {
    part.Element? && browser.lower(part.name) == TagOf(kind) && LastSource(browser, part.attributes, url)
  }

  lemma Names()
    ensures U("src") == [0x73, 0x72, 0x63]
    ensures U("script") == TagOf(Script) && U("iframe") == TagOf(Iframe) && TagOf(Script) != TagOf(Iframe)
  {
    assert TagOf(Script)[0] != TagOf(Iframe)[0];
  }

  lemma LastSourceNext(browser: Browser, attributes: seq<Attribute>, i: nat)
    requires attributes != []
    ensures var init, last := attributes[..|attributes| - 1], attributes[|attributes| - 1];
            LastSourceAt(browser, attributes, i) <==>
            if browser.lower(last.name) == [0x73, 0x72, 0x63] then i == |init| else LastSourceAt(browser, init, i)
  {
    var init := attributes[..|attributes| - 1];
    assert forall j | 0 <= j < |init| :: attributes[j] == init[j];
  }

  lemma {:induction false} SourceOfIsLast(browser: Browser, attributes: seq<Attribute>, url: Text)
    ensures SourceOf(browser, attributes) == Some(url) <==> LastSource(browser, attributes, url)
  {
    Names();
    if attributes != [] {
      var init, last := attributes[..|attributes| - 1], attributes[|attributes| - 1];
      SourceOfIsLast(browser, init, url);
      forall i: nat ensures LastSourceAt(browser, attributes, i) <==>
                            if browser.lower(last.name) == U("src") then i == |init| else LastSourceAt(browser, init, i) {
        LastSourceNext(browser, attributes, i);
      }
      if browser.lower(last.name) == U("src") {
        assert LastSourceAt(browser, attributes, |init|);
      } else {
        assert forall i: nat | LastSourceAt(browser, init, i) :: attributes[i] == init[i];
      }
    }
  }

  lemma {:induction false} SourcesInAllHas(browser: Browser, nodes: seq<Node>, kind: Kind, url: Text)
    ensures url in SourcesInAll(browser, nodes, kind) <==> exists i | 0 <= i < |nodes| :: url in SourcesIn(browser, nodes[i], kind)
    decreases |nodes|
  {
    if nodes != [] {
      SourcesInAllHas(browser, nodes[1..], kind, url);
      assert forall i | 1 <= i < |nodes| :: nodes[i] == nodes[1..][i - 1];
    }
  }

  lemma OwnSourceMeans(browser: Browser, node: Node, kind: Kind, url: Text)
    requires node.Element?
    ensures KindOf(browser.lower(node.name)) == Some(kind) && SourceOf(browser, node.attributes) == Some(url)
       <==> Provides(browser, node, kind, url)
  {
    Names();
    SourceOfIsLast(browser, node.attributes, url);
  }

  /** A URL is a source of a document exactly if a script, or iframe, element somewhere in it provides it. */
  lemma {:induction false} SourcesMean(browser: Browser, node: Node, kind: Kind, url: Text)
    ensures url in SourcesIn(browser, node, kind) <==> exists part :: Under(part, node) && Provides(browser, part, kind, url)
    decreases node
  {
    match node
    case Element(_, _, children) =>
      SourcesInAllHas(browser, children, kind, url);
      OwnSourceMeans(browser, node, kind, url);
      forall i | 0 <= i < |children|
        ensures url in SourcesIn(browser, children[i], kind) <==>
                exists part :: Under(part, children[i]) && Provides(browser, part, kind, url)
      {
        SourcesMean(browser, children[i], kind, url);
      }
      ChildrenProvide(browser, node, children, kind, url);
      assert Under(node, node);
    case Other(children) =>
      SourcesInAllHas(browser, children, kind, url);
      forall i | 0 <= i < |children|
        ensures url in SourcesIn(browser, children[i], kind) <==>
                exists part :: Under(part, children[i]) && Provides(browser, part, kind, url)
      {
        SourcesMean(browser, children[i], kind, url);
      }
      ChildrenProvide(browser, node, children, kind, url);
    case _ =>
  }

  lemma ChildrenProvide(browser: Browser, node: Node, children: seq<Node>, kind: Kind, url: Text)
    requires (node.Element? || node.Other?) && node.children == children
    ensures (exists part :: Under(part, node) && Provides(browser, part, kind, url)) <==>
            Provides(browser, node, kind, url)
            || exists i | 0 <= i < |children| :: exists part :: Under(part, children[i]) && Provides(browser, part, kind, url)
  {
    if part :| Under(part, node) && Provides(browser, part, kind, url) {
      if part != node {
        var i :| 0 <= i < |children| && Under(part, children[i]);
      }
    }
    if i, part :| 0 <= i < |children| && Under(part, children[i]) && Provides(browser, part, kind, url) {
      assert Under(part, node);
    }
    assert Under(node, node);
  }

  // ----- Which of them are collected -----

  /** Both the URL as written and the URL it resolves to are short enough. */
  ghost predicate FitsBothWays(browser: Browser, limits: Limits, raw: Text, url: Text) {
    && |raw| <= limits.maxURLBytes && Utf8Length(raw) <= limits.maxURLBytes + 1
    && browser.resolve(raw) == Some(url)
    && |url| <= limits.maxURLBytes && Utf8Length(url) <= limits.maxURLBytes + 1
  }

  /** The URL as written, or the URL it resolves to, is too long. */
  ghost predicate TooLong(browser: Browser, limits: Limits, raw: Text) {
    || |raw| > limits.maxURLBytes || Utf8Length(raw) > limits.maxURLBytes + 1
    || (browser.resolve(raw).Some?
        && (|browser.resolve(raw).value| > limits.maxURLBytes
            || Utf8Length(browser.resolve(raw).value) > limits.maxURLBytes + 1))
  }

  lemma FateMeans(browser: Browser, limits: Limits, raw: Text)
    ensures FateOf(browser, limits, raw).Oversized? <==> TooLong(browser, limits, raw)
    ensures forall url :: FateOf(browser, limits, raw) == Wanted(url) <==> FitsBothWays(browser, limits, raw, url)
  {
    FitsURLExactly(limits, raw);
    if browser.resolve(raw).Some? { FitsURLExactly(limits, browser.resolve(raw).value); }
  }

  /** A URL is wanted exactly if some source resolves to it and both are short enough; something is dropped otherwise. */
  lemma {:induction false} WantedMean(browser: Browser, limits: Limits, sources: seq<Text>, url: Text)
    ensures url in WantedOf(browser, limits, sources) <==> exists raw :: raw in sources && FitsBothWays(browser, limits, raw, url)
    ensures AnyOversized(browser, limits, sources) <==> exists raw :: raw in sources && TooLong(browser, limits, raw)
  {
    if sources != [] {
      var init, last := sources[..|sources| - 1], sources[|sources| - 1];
      WantedMean(browser, limits, init, url);
      FateMeans(browser, limits, last);
      assert forall raw :: raw in sources <==> raw in init || raw == last by { assert sources == init + [last]; }
    }
  }
}
