/** The bounded serializer against a plain recursive one. */
module DomLaws {
  import opened Model
  import opened Utf16
  import opened DomModel

  // ----- The plain serializer -----

  function AttributeText(a: Attribute): Text {
    U(" ") + a.name + U("=\"") + Escape(a.value, true) + U("\"")
  }

  function AttributesText(attributes: seq<Attribute>): Text {
    if attributes == [] then []
    else AttributesText(attributes[..|attributes| - 1]) + AttributeText(attributes[|attributes| - 1])
  }

  function StartTag(name: Text, attributes: seq<Attribute>): Text {
    U("<") + name + AttributesText(attributes) + U(">")
  }

  function EndTag(name: Text): Text {
    if IsVoid(name) then [] else U("</") + name + U(">")
  }

  function Serialize(browser: Browser, node: Node, raw: bool): Text
    decreases node, 1
  {
    match node
    case Element(localName, attributes, children) =>
      var name := browser.lower(localName);
      StartTag(name, attributes) + SerializeAll(browser, children, IsRawText(name)) + EndTag(name)
    case TextNode(data) => if raw then data else Escape(data, false)
    case CDataSection(data) => U("<![CDATA[") + data + U("]]>")
    case Instruction(target, data) => U("<?") + target + U(" ") + data + U("?>")
    case Comment(data) => U("<!--") + data + U("-->")
    case Doctype(name) => U("<!DOCTYPE ") + name + U(">")
    case Other(children) => SerializeAll(browser, children, false)
  }

  function SerializeAll(browser: Browser, nodes: seq<Node>, raw: bool): Text
    decreases nodes, 0
  {
    if nodes == [] then [] else Serialize(browser, nodes[0], raw) + SerializeAll(browser, nodes[1..], raw)
  }

  /** One item of work for every node and for every attribute. */
  function WorkOf(node: Node): nat
    decreases node, 1
  {
    match node
    case Element(_, attributes, children) => 1 + |attributes| + WorkOfAll(children)
    case Other(children) => 1 + WorkOfAll(children)
    case _ => 1
  }

  function WorkOfAll(nodes: seq<Node>): nat
    decreases nodes, 0
  {
    if nodes == [] then 0 else WorkOf(nodes[0]) + WorkOfAll(nodes[1..])
  }

  /** The sources of one kind of element, in document order. */
  function SourcesIn(browser: Browser, node: Node, kind: Kind): seq<Text>
    decreases node, 1
  {
    match node
    case Element(localName, attributes, children) =>
      (if KindOf(browser.lower(localName)) == Some(kind) && SourceOf(browser, attributes).Some?
       then [SourceOf(browser, attributes).value] else [])
      + SourcesInAll(browser, children, kind)
    case Other(children) => SourcesInAll(browser, children, kind)
    case _ => []
  }

  function SourcesInAll(browser: Browser, nodes: seq<Node>, kind: Kind): seq<Text>
    decreases nodes, 0
  {
    if nodes == [] then [] else SourcesIn(browser, nodes[0], kind) + SourcesInAll(browser, nodes[1..], kind)
  }

  // ----- What tokens stand for -----

  function TokenText(token: Token): Text {
    match token
    case Raw(text) => text
    case Escaped(value, attribute) => Escape(value, attribute)
    case _ => []
  }

  function TextOf(tokens: seq<Token>): Text {
    if tokens == [] then [] else TextOf(tokens[..|tokens| - 1]) + TokenText(tokens[|tokens| - 1])
  }

  function Ticks(tokens: seq<Token>): nat {
    if tokens == [] then 0 else Ticks(tokens[..|tokens| - 1]) + if tokens[|tokens| - 1].Tick? then 1 else 0
  }

  function TokenSource(token: Token, kind: Kind): seq<Text> {
    if token.Source? && token.kind == kind then [token.url] else []
  }

  function SourcesOf(tokens: seq<Token>, kind: Kind): seq<Text> {
    if tokens == [] then [] else SourcesOf(tokens[..|tokens| - 1], kind) + TokenSource(tokens[|tokens| - 1], kind)
  }

  lemma JoinRight<T>(a: seq<T>, b: seq<T>, c: seq<T>)
    ensures (a + b) + c == a + (b + c)
  {
  }

  lemma LastText(whole: seq<Token>, init: seq<Token>, last: Token)
    requires whole == init + [last]
    ensures TextOf(whole) == TextOf(init) + TokenText(last)
  {
    assert whole[..|init|] == init;
  }

  lemma LastSource(whole: seq<Token>, init: seq<Token>, last: Token, kind: Kind)
    requires whole == init + [last]
    ensures SourcesOf(whole, kind) == SourcesOf(init, kind) + TokenSource(last, kind)
  {
    assert whole[..|init|] == init;
  }

  lemma {:induction false} TextConcat(whole: seq<Token>, a: seq<Token>, b: seq<Token>)
    requires whole == a + b
    ensures TextOf(whole) == TextOf(a) + TextOf(b)
    decreases |b|
  {
    if b == [] {
      assert whole == a;
    } else {
      var init, last := b[..|b| - 1], b[|b| - 1];
      TextConcat(a + init, a, init);
      LastText(whole, a + init, last);
      LastText(b, init, last);
      JoinRight(TextOf(a), TextOf(init), TokenText(last));
    }
  }

  lemma {:induction false} TicksConcat(a: seq<Token>, b: seq<Token>)
    ensures Ticks(a + b) == Ticks(a) + Ticks(b)
  {
    if b == [] {
      assert a + b == a;
    } else {
      assert (a + b)[..|a + b| - 1] == a + b[..|b| - 1];
      TicksConcat(a, b[..|b| - 1]);
    }
  }

  lemma {:induction false} SourcesConcat(whole: seq<Token>, a: seq<Token>, b: seq<Token>, kind: Kind)
    requires whole == a + b
    ensures SourcesOf(whole, kind) == SourcesOf(a, kind) + SourcesOf(b, kind)
    decreases |b|
  {
    if b == [] {
      assert whole == a;
    } else {
      var init, last := b[..|b| - 1], b[|b| - 1];
      SourcesConcat(a + init, a, init, kind);
      LastSource(whole, a + init, last, kind);
      LastSource(b, init, last, kind);
      JoinRight(SourcesOf(a, kind), SourcesOf(init, kind), TokenSource(last, kind));
    }
  }

  lemma NoTokens(kind: Kind)
    ensures TextOf([]) == [] && Ticks([]) == 0 && SourcesOf([], kind) == []
  {
  }

  lemma Concat(a: seq<Token>, b: seq<Token>, kind: Kind)
    ensures TextOf(a + b) == TextOf(a) + TextOf(b)
    ensures Ticks(a + b) == Ticks(a) + Ticks(b)
    ensures SourcesOf(a + b, kind) == SourcesOf(a, kind) + SourcesOf(b, kind)
  {
    TextConcat(a + b, a, b);
    TicksConcat(a, b);
    SourcesConcat(a + b, a, b, kind);
  }

  lemma One(token: Token, kind: Kind)
    ensures TextOf([token]) == TokenText(token)
    ensures Ticks([token]) == if token.Tick? then 1 else 0
    ensures SourcesOf([token], kind) == TokenSource(token, kind)
  {
    assert [token][..0] == [];
    NoTokens(kind);
    assert [] + TokenText(token) == TokenText(token);
    assert [] + TokenSource(token, kind) == TokenSource(token, kind);
  }

  /** What one more token in front adds. */
  lemma Front(token: Token, rest: seq<Token>, kind: Kind)
    ensures TextOf([token] + rest) == TokenText(token) + TextOf(rest)
    ensures Ticks([token] + rest) == (if token.Tick? then 1 else 0) + Ticks(rest)
    ensures SourcesOf([token] + rest, kind) == TokenSource(token, kind) + SourcesOf(rest, kind)
  {
    One(token, kind);
    Concat([token], rest, kind);
  }

  /** A list of tokens stands for a text, an amount of work, and sources. */
  ghost predicate Means(tokens: seq<Token>, kind: Kind, text: Text, ticks: nat, sources: seq<Text>) {
    TextOf(tokens) == text && Ticks(tokens) == ticks && SourcesOf(tokens, kind) == sources
  }

  lemma MeansBoth(
      a: seq<Token>, b: seq<Token>, kind: Kind, s: Text, t: Text, m: nat, n: nat, u: seq<Text>, v: seq<Text>)
    requires Means(a, kind, s, m, u) && Means(b, kind, t, n, v)
    ensures Means(a + b, kind, s + t, m + n, u + v)
  {
    Concat(a, b, kind);
  }

  lemma RawMeans(text: Text, kind: Kind)
    ensures Means([Raw(text)], kind, text, 0, [])
  {
    One(Raw(text), kind);
  }

  lemma TickMeans(kind: Kind)
    ensures Means([Tick], kind, [], 1, [])
  {
    One(Tick, kind);
  }

  /** Three lists in a row, of which the last two count no work and hold no sources. */
  lemma MeansInARow(
      whole: seq<Token>, a: seq<Token>, b: seq<Token>, c: seq<Token>, kind: Kind, s: Text, t: Text, u: Text, work: nat)
    requires whole == a + b + c
    requires Means(a, kind, s, work, []) && Means(b, kind, t, 0, []) && Means(c, kind, u, 0, [])
    ensures Means(whole, kind, s + t + u, work, [])
  {
    MeansBoth(a, b, kind, s, t, work, 0, [], []);
    MeansBoth(a + b, c, kind, s + t, u, work, 0, [], []);
  }

  lemma CountedRawMeans(text: Text, kind: Kind)
    ensures Means([Tick, Raw(text)], kind, text, 1, [])
  {
    TickMeans(kind);
    RawMeans(text, kind);
    MeansBoth([Tick], [Raw(text)], kind, [], text, 1, 0, [], []);
    assert [Tick] + [Raw(text)] == [Tick, Raw(text)] && [] + text == text;
  }

  lemma AttributeMeans(a: Attribute, kind: Kind)
    ensures Means(AttributeTokens(a), kind, AttributeText(a), 1, [])
  {
    var opening, quote := U(" ") + a.name + U("=\""), U("\"");
    CountedRawMeans(opening, kind);
    One(Escaped(a.value, true), kind);
    RawMeans(quote, kind);
    MeansInARow(AttributeTokens(a), [Tick, Raw(opening)], [Escaped(a.value, true)], [Raw(quote)], kind, opening,
                Escape(a.value, true), quote, 1);
  }

  lemma {:induction false} AttributesMean(attributes: seq<Attribute>, kind: Kind)
    ensures Means(AttributesTokens(attributes), kind, AttributesText(attributes), |attributes|, [])
  {
    if attributes != [] {
      var init, last := attributes[..|attributes| - 1], attributes[|attributes| - 1];
      AttributesMean(init, kind);
      AttributeMeans(last, kind);
      Concat(AttributesTokens(init), AttributeTokens(last), kind);
    }
  }

  lemma ThreeMean(a: Text, b: Text, c: Text, kind: Kind)
    ensures Means([Tick, Raw(a), Raw(b), Raw(c)], kind, a + b + c, 1, [])
  {
    CountedRawMeans(a, kind);
    RawMeans(b, kind);
    RawMeans(c, kind);
    MeansInARow([Tick, Raw(a), Raw(b), Raw(c)], [Tick, Raw(a)], [Raw(b)], [Raw(c)], kind, a, b, c, 1);
  }

  lemma LeafMeans(browser: Browser, node: Node, raw: bool, kind: Kind)
    requires !node.Element? && !node.Other?
    ensures Means(Tokens(browser, node, raw), kind, Serialize(browser, node, raw), 1, [])
  {
    var enter := EnterTokens(browser, node, raw);
    assert Tokens(browser, node, raw) == enter;
    match node {
    case TextNode(data) =>
      var token := if raw then Raw(data) else Escaped(data, false);
      assert enter == [Tick] + ([token] + []);
      Front(token, [], kind);
      Front(Tick, [token] + [], kind);
    case CDataSection(data) => ThreeMean(U("<![CDATA["), data, U("]]>"), kind);
    case Instruction(target, data) => ThreeMean(U("<?") + target + U(" "), data, U("?>"), kind);
    case Comment(data) => ThreeMean(U("<!--"), data, U("-->"), kind);
    case Doctype(name) => ThreeMean(U("<!DOCTYPE "), name, U(">"), kind);
    }
  }

  function OwnSources(browser: Browser, node: Node, kind: Kind): seq<Text>
    requires node.Element?
  {
    if KindOf(browser.lower(node.name)) == Some(kind) && SourceOf(browser, node.attributes).Some?
    then [SourceOf(browser, node.attributes).value] else []
  }

  lemma StartTagMeans(name: Text, attributes: seq<Attribute>, kind: Kind)
    ensures Means([Tick, Raw(U("<") + name)] + AttributesTokens(attributes) + [Raw(U(">"))], kind,
                  StartTag(name, attributes), 1 + |attributes|, [])
  {
    var tag, inner := U("<") + name, AttributesText(attributes);
    CountedRawMeans(tag, kind);
    AttributesMean(attributes, kind);
    MeansBoth([Tick, Raw(tag)], AttributesTokens(attributes), kind, tag, inner, 1, |attributes|, [], []);
    RawMeans(U(">"), kind);
    MeansBoth([Tick, Raw(tag)] + AttributesTokens(attributes), [Raw(U(">"))], kind, tag + inner, U(">"),
              1 + |attributes|, 0, [], []);
  }

  lemma EnterElementMeans(browser: Browser, node: Node, raw: bool, kind: Kind)
    requires node.Element?
    ensures Means(EnterTokens(browser, node, raw), kind, StartTag(browser.lower(node.name), node.attributes),
                  1 + |node.attributes|, OwnSources(browser, node, kind))
  {
    var name := browser.lower(node.name);
    StartTagMeans(name, node.attributes, kind);
    SourceMeans(browser, node, kind);
    MeansBoth([Tick, Raw(U("<") + name)] + AttributesTokens(node.attributes) + [Raw(U(">"))],
              SourceTokens(browser, name, node.attributes), kind, StartTag(name, node.attributes), [],
              1 + |node.attributes|, 0, [], OwnSources(browser, node, kind));
    assert StartTag(name, node.attributes) + [] == StartTag(name, node.attributes);
    assert [] + OwnSources(browser, node, kind) == OwnSources(browser, node, kind);
  }

  lemma SourceMeans(browser: Browser, node: Node, kind: Kind)
    requires node.Element?
    ensures Means(SourceTokens(browser, browser.lower(node.name), node.attributes), kind, [], 0, OwnSources(browser, node, kind))
  {
    var tokens := SourceTokens(browser, browser.lower(node.name), node.attributes);
    if tokens != [] {
      assert tokens == [tokens[0]] + [];
      Front(tokens[0], [], kind);
    }
  }

  lemma CloseMeans(closes: bool, name: Text, kind: Kind)
    ensures Means(CloseTokens(closes, name), kind, if closes then U("</") + name + U(">") else [], 0, [])
  {
    if closes {
      var token := Raw(U("</") + name + U(">"));
      assert CloseTokens(closes, name) == [token] + [];
      Front(token, [], kind);
    }
  }

  lemma ElementMeans(browser: Browser, node: Node, raw: bool, kind: Kind, inner: Text, work: nat, sources: seq<Text>)
    requires node.Element?
    requires Means(ChildTokens(browser, node.children, HoldsRawText(browser, node)), kind, inner, work, sources)
    ensures var name := browser.lower(node.name);
            Means(Tokens(browser, node, raw), kind, StartTag(name, node.attributes) + inner + EndTag(name),
                  1 + |node.attributes| + work, OwnSources(browser, node, kind) + sources)
  {
    var name := browser.lower(node.name);
    var enter, close := EnterTokens(browser, node, raw), CloseTokens(Closes(browser, node), name);
    var middle := ChildTokens(browser, node.children, HoldsRawText(browser, node));
    var start, own := StartTag(name, node.attributes), OwnSources(browser, node, kind);
    EnterElementMeans(browser, node, raw, kind);
    CloseMeans(Closes(browser, node), name, kind);
    MeansBoth(enter, middle, kind, start, inner, 1 + |node.attributes|, work, own, sources);
    MeansBoth(enter + middle, close, kind, start + inner, EndTag(name), 1 + |node.attributes| + work, 0, own + sources, []);
    assert (own + sources) + [] == own + sources;
  }

  lemma ElementParts(browser: Browser, node: Node, raw: bool, kind: Kind)
    requires node.Element?
    ensures var name := browser.lower(node.name);
            && Serialize(browser, node, raw)
               == StartTag(name, node.attributes) + SerializeAll(browser, node.children, HoldsRawText(browser, node)) + EndTag(name)
            && WorkOf(node) == 1 + |node.attributes| + WorkOfAll(node.children)
            && SourcesIn(browser, node, kind) == OwnSources(browser, node, kind) + SourcesInAll(browser, node.children, kind)
  {
  }

  lemma OtherMeans(browser: Browser, node: Node, raw: bool, kind: Kind)
    requires node.Other?
    requires Means(ChildTokens(browser, node.children, false), kind, SerializeAll(browser, node.children, false),
                   WorkOfAll(node.children), SourcesInAll(browser, node.children, kind))
    ensures Means(Tokens(browser, node, raw), kind, Serialize(browser, node, raw), WorkOf(node),
                  SourcesIn(browser, node, kind))
  {
    Front(Tick, ChildTokens(browser, node.children, false), kind);
    assert Tokens(browser, node, raw) == [Tick] + ChildTokens(browser, node.children, false);
  }

  /** The tokens of a document write its plain serialization, count its nodes and attributes, and list its sources. */
  lemma {:induction false} DocumentMeans(browser: Browser, node: Node, raw: bool, kind: Kind)
    ensures Means(Tokens(browser, node, raw), kind, Serialize(browser, node, raw), WorkOf(node),
                  SourcesIn(browser, node, kind))
    decreases node, 1
  {
    match node {
    case Element(_, _, children) =>
      ChildrenMean(browser, children, HoldsRawText(browser, node), kind);
      ElementMeans(browser, node, raw, kind, SerializeAll(browser, children, HoldsRawText(browser, node)),
                   WorkOfAll(children), SourcesInAll(browser, children, kind));
      ElementParts(browser, node, raw, kind);
    case Other(children) =>
      ChildrenMean(browser, children, false, kind);
      OtherMeans(browser, node, raw, kind);
    case _ =>
      LeafMeans(browser, node, raw, kind);
    }
  }

  lemma {:induction false} ChildrenMean(browser: Browser, nodes: seq<Node>, raw: bool, kind: Kind)
    ensures Means(ChildTokens(browser, nodes, raw), kind, SerializeAll(browser, nodes, raw), WorkOfAll(nodes),
                  SourcesInAll(browser, nodes, kind))
    decreases nodes, 0
  {
    if nodes != [] {
      DocumentMeans(browser, nodes[0], raw, kind);
      ChildrenMean(browser, nodes[1..], raw, kind);
      Concat(Tokens(browser, nodes[0], raw), ChildTokens(browser, nodes[1..], raw), kind);
    }
  }
}
