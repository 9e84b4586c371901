/** What a truncated DOM is worth: when it is a prefix of the plain serialization, in terms of the document. */
module DomTruncation {
  import opened Utf16
  import opened DomModel
  import opened DomLaws
  import opened DomPieces
  import opened DomBounds
  import opened DomPrefix
  import opened Escaping

  // ----- Texts without lone surrogates -----

  predicate IsLow(u: Unit) { 0xDC00 <= u < 0xE000 }

  predicate IsHigh(u: Unit) { 0xD800 <= u < 0xDC00 }

  /** Every surrogate belongs to a pair. */
  predicate WellPaired(s: Text)
    decreases |s|
  {
    s == [] || ((IsPair(s) || !(IsHigh(s[0]) || IsLow(s[0]))) && WellPaired(s[FirstUnits(s)..]))
  }

  /** What is left of such a text after cutting it anywhere. */
  predicate WellPairedTail(s: Text) {
    WellPaired(s) || (s != [] && IsLow(s[0]) && WellPaired(s[1..]))
  }

  lemma {:induction false} TailOfPaired(s: Text, n: nat)
    requires WellPaired(s) && n <= |s|
    ensures WellPairedTail(s[n..])
    decreases |s|
  {
    if n == 0 {
      assert s[0..] == s;
    } else if FirstUnits(s) <= n {
      TailOfPaired(s[FirstUnits(s)..], n - FirstUnits(s));
      RestOfRest(s, FirstUnits(s), n - FirstUnits(s));
    } else {
      assert s[1..][1..] == s[2..] && s[1..][0] == s[1];
    }
  }

  lemma TailOfTail(s: Text, n: nat)
    requires WellPairedTail(s) && 0 < n <= |s|
    ensures WellPairedTail(s[n..])
  {
    if WellPaired(s) {
      TailOfPaired(s, n);
    } else {
      TailOfPaired(s[1..], n - 1);
      RestOfRest(s, 1, n - 1);
    }
  }

  lemma PartBeginsPaired(value: Text, n: nat, attribute: bool)
    requires WellPairedTail(value) && value != [] && n == PartLength(value)
    ensures !BeginsUnpaired(Escape(value[..n], attribute))
  {
    var part := value[..n];
    EscapeBegins(part, attribute);
    if IsHigh(value[0]) {
      assert IsPair(value) && n >= 2;
      EscapeBegins(part[1..], attribute);
      assert part[1..][0] == value[1];
    }
  }

  lemma {:induction false} PartsBeginPaired(value: Text, attribute: bool)
    requires WellPairedTail(value)
    ensures forall i | 0 <= i < |EscapedPieces(value, attribute)| :: !BeginsUnpaired(EscapedPieces(value, attribute)[i])
    decreases |value|
  {
    if value != [] {
      var n := PartLength(value);
      PartBeginsPaired(value, n, attribute);
      TailOfTail(value, n);
      PartsBeginPaired(value[n..], attribute);
    }
  }

  // ----- Documents without lone surrogates -----

  /** Everything that a document can bring to the beginning of a piece is free of lone surrogates. */
  predicate PairedDocument(node: Node)
    decreases node, 1
  {
    match node
    case Element(_, attributes, children) =>
      (forall i | 0 <= i < |attributes| :: WellPaired(attributes[i].value)) && PairedDocuments(children)
    case TextNode(data) => WellPaired(data)
    case CDataSection(data) => WellPaired(data)
    case Instruction(_, data) => WellPaired(data)
    case Comment(data) => WellPaired(data)
    case Doctype(name) => WellPaired(name)
    case Other(children) => PairedDocuments(children)
  }

  predicate PairedDocuments(nodes: seq<Node>)
    decreases nodes, 0
  {
    nodes == [] || (PairedDocument(nodes[0]) && PairedDocuments(nodes[1..]))
  }

  predicate PairedToken(token: Token) {
    match token
    case Raw(text) => !BeginsUnpaired(text)
    case Escaped(value, _) => WellPaired(value)
    case _ => true
  }

  ghost predicate PairedTokens(tokens: seq<Token>) {
    forall i | 0 <= i < |tokens| :: PairedToken(tokens[i])
  }

  lemma {:induction false} PairedPieces(tokens: seq<Token>)
    requires PairedTokens(tokens)
    ensures forall i | 0 <= i < |Pieces(tokens)| :: !BeginsUnpaired(Pieces(tokens)[i])
  {
    if tokens != [] {
      var last := tokens[|tokens| - 1];
      PairedPieces(tokens[..|tokens| - 1]);
      assert PairedToken(last);
      if last.Escaped? { PartsBeginPaired(last.value, last.attribute); }
    }
  }

  lemma {:induction false} PairedAttributes(attributes: seq<Attribute>)
    requires forall i | 0 <= i < |attributes| :: WellPaired(attributes[i].value)
    ensures PairedTokens(AttributesTokens(attributes))
  {
    if attributes != [] {
      PairedAttributes(attributes[..|attributes| - 1]);
      var tokens := AttributeTokens(attributes[|attributes| - 1]);
      assert forall i | 0 <= i < |tokens| :: PairedToken(tokens[i]);
    }
  }

  lemma PairedBegins(data: Text)
    requires WellPaired(data)
    ensures !BeginsUnpaired(data)
  {
  }

  lemma PairedLeaf(browser: Browser, node: Node, raw: bool)
    requires !node.Element? && PairedDocument(node)
    ensures PairedTokens(EnterTokens(browser, node, raw))
  {
    match node {
    case TextNode(data) => PairedBegins(data);
    case CDataSection(data) => PairedBegins(data);
    case Instruction(_, data) => PairedBegins(data);
    case Comment(data) => PairedBegins(data);
    case Doctype(name) => PairedBegins(name);
    case Other(_) =>
    }
  }

  lemma PairedEnter(browser: Browser, node: Node, raw: bool)
    requires node.Element? && PairedDocument(node)
    ensures PairedTokens(EnterTokens(browser, node, raw))
  {
    var name := browser.lower(node.name);
    PairedAttributes(node.attributes);
    var open, rest := [Tick, Raw(U("<") + name)], [Raw(U(">"))] + SourceTokens(browser, name, node.attributes);
    assert PairedTokens(open) && PairedTokens(rest);
    PairedConcat(open, AttributesTokens(node.attributes));
    PairedConcat(open + AttributesTokens(node.attributes), rest);
    assert EnterTokens(browser, node, raw) == (open + AttributesTokens(node.attributes)) + rest;
  }

  lemma PairedConcat(a: seq<Token>, b: seq<Token>)
    requires PairedTokens(a) && PairedTokens(b)
    ensures PairedTokens(a + b)
  {
  }

  lemma PairedClose(closes: bool, name: Text)
    ensures PairedTokens(CloseTokens(closes, name))
  {
  }

  lemma {:induction false} DocumentPaired(browser: Browser, node: Node, raw: bool)
    requires PairedDocument(node)
    ensures PairedTokens(Tokens(browser, node, raw))
    decreases node, 1
  {
    var enter, close := EnterTokens(browser, node, raw), CloseTokens(Closes(browser, node), NameOf(browser, node));
    PairedClose(Closes(browser, node), NameOf(browser, node));
    if node.Element? { PairedEnter(browser, node, raw); } else { PairedLeaf(browser, node, raw); }
    match node {
    case Element(_, _, children) =>
      ChildrenPaired(browser, children, HoldsRawText(browser, node));
      PairedConcat(enter, ChildTokens(browser, children, HoldsRawText(browser, node)));
      PairedConcat(enter + ChildTokens(browser, children, HoldsRawText(browser, node)), close);
    case Other(children) =>
      ChildrenPaired(browser, children, false);
      PairedConcat(enter, ChildTokens(browser, children, false));
      PairedConcat(enter + ChildTokens(browser, children, false), close);
    case _ =>
      PairedConcat(enter, []);
      PairedConcat(enter + [], close);
    }
  }

  lemma {:induction false} ChildrenPaired(browser: Browser, nodes: seq<Node>, raw: bool)
    requires PairedDocuments(nodes)
    ensures PairedTokens(ChildTokens(browser, nodes, raw))
    decreases nodes, 0
  {
    if nodes != [] {
      DocumentPaired(browser, nodes[0], raw);
      ChildrenPaired(browser, nodes[1..], raw);
      PairedConcat(Tokens(browser, nodes[0], raw), ChildTokens(browser, nodes[1..], raw));
    }
  }

  // ----- Prefixes of the plain serialization -----

  lemma {:induction false} WholeOfPrefix(a: seq<Token>, b: seq<Token>)
    requires a <= b
    ensures TextOf(a) <= TextOf(b) && Pieces(a) <= Pieces(b)
    decreases |b|
  {
    if |a| < |b| {
      var init := b[..|b| - 1];
      WholeOfPrefix(a, init);
      assert TextOf(init) <= TextOf(b) && Pieces(init) <= Pieces(b);
    } else {
      assert a == b;
    }
  }

  lemma ShorterPrefix(text: Text, part: Text, whole: Text)
    requires part <= whole && |text| <= |part|
    ensures text <= part <==> text <= whole
  {
    if text <= whole {
      assert text == whole[..|text|] == part[..|text|];
    }
  }

  /** The walk's text against the plain serialization, in terms of the pieces that the walk got to. */
  lemma ResultIsPrefix(browser: Browser, limits: Limits, document: Node)
    ensures var ps := ReachedPieces(browser, limits, document);
            && Result(browser, limits, document).dom == Feed(limits, Empty(), ps).text
            && (Result(browser, limits, document).dom <= Serialize(browser, document, false)
                <==> Feed(limits, Empty(), ps).text <= Whole(ps))
  {
    var tokens := Tokens(browser, document, false);
    var reached := Reached(tokens, limits.maxWork);
    ReachedFeeds(browser, limits, tokens);
    ReachedIsPrefix(tokens, limits.maxWork);
    WholeOfPrefix(reached, tokens);
    PiecesAreWhole(reached);
    DocumentMeans(browser, document, false, Script);
    FeedIsShorter(limits, Pieces(reached));
    ShorterPrefix(Feed(limits, Empty(), Pieces(reached)).text, TextOf(reached), TextOf(tokens));
  }

  /**
   * For every document the serialized text is a prefix of the plain serialization if and only if, behind the first piece
   * that is cut, no piece still fits, or the first one that does begins with the code unit that was cut off.
   */
  lemma PrefixExactly(browser: Browser, limits: Limits, document: Node)
    ensures Result(browser, limits, document).dom <= Serialize(browser, document, false)
       <==> GoesOn(limits, ReachedPieces(browser, limits, document))
  {
    ResultIsPrefix(browser, limits, document);
    PiecesStayPrefix(limits, ReachedPieces(browser, limits, document));
  }

  /**
   * On documents without lone surrogates this means: behind the first piece that is cut, no piece begins with a scalar
   * value that still fits into the bytes left.
   */
  lemma PairedPrefixExactly(browser: Browser, limits: Limits, document: Node)
    requires PairedDocument(document)
    ensures Result(browser, limits, document).dom <= Serialize(browser, document, false)
       <==> NothingFollows(limits, ReachedPieces(browser, limits, document))
  {
    var tokens := Tokens(browser, document, false);
    PrefixExactly(browser, limits, document);
    DocumentPaired(browser, document, false);
    ReachedIsPrefix(tokens, limits.maxWork);
    PairedPieces(Reached(tokens, limits.maxWork));
    PairedGoOnIff(limits, ReachedPieces(browser, limits, document));
  }

  // ----- ASCII -----

  predicate Ascii(s: Text) {
    forall i | 0 <= i < |s| :: s[i] < 0x80
  }

  lemma {:induction false} PartsOfAscii(ps: seq<Text>, i: nat)
    requires Ascii(Whole(ps)) && i < |ps|
    ensures Ascii(ps[i])
  {
    var init, last := ps[..|ps| - 1], ps[|ps| - 1];
    assert Whole(ps) == Whole(init) + last;
    if i < |init| {
      assert Ascii(Whole(init)) by { assert forall k | 0 <= k < |Whole(init)| :: Whole(init)[k] == Whole(ps)[k]; }
      PartsOfAscii(init, i);
    } else {
      assert forall k | 0 <= k < |last| :: last[k] == Whole(ps)[|Whole(init)| + k];
    }
  }

  /** Where every scalar value is one byte, a cut means that the buffer is full. */
  lemma AsciiFollowsNothing(limits: Limits, ps: seq<Text>)
    requires forall i | 0 <= i < |ps| :: Ascii(ps[i])
    ensures NothingFollows(limits, ps)
  {
    forall c: nat, j: nat | CutAt(limits, ps, c) && c < j < |ps| ensures NothingFits(ps[j], RoomAfter(limits, ps, c)) {
      var k := CutTakes(limits, ps, c);
      assert ps[c][k..][0] == ps[c][k] < 0x80;
    }
  }

  lemma ReachedIsAscii(browser: Browser, limits: Limits, document: Node)
    requires Ascii(Serialize(browser, document, false))
    ensures Ascii(Whole(ReachedPieces(browser, limits, document)))
  {
    var tokens := Tokens(browser, document, false);
    ReachedIsPrefix(tokens, limits.maxWork);
    WholeOfPrefix(Reached(tokens, limits.maxWork), tokens);
    DocumentMeans(browser, document, false, Script);
    PiecesAreWhole(Reached(tokens, limits.maxWork));
    AsciiPrefix(Whole(ReachedPieces(browser, limits, document)), TextOf(tokens));
  }

  lemma AsciiPrefix(s: Text, t: Text)
    requires s <= t && Ascii(t)
    ensures Ascii(s)
  {
    assert forall k | 0 <= k < |s| :: s[k] == t[k];
  }

  /** A document whose plain serialization is ASCII is always cut to a prefix. */
  lemma AsciiIsCutToPrefix(browser: Browser, limits: Limits, document: Node)
    requires Ascii(Serialize(browser, document, false))
    ensures Result(browser, limits, document).dom <= Serialize(browser, document, false)
  {
    var ps := ReachedPieces(browser, limits, document);
    ReachedIsAscii(browser, limits, document);
    forall i | 0 <= i < |ps| ensures Ascii(ps[i]) && !BeginsUnpaired(ps[i]) { PartsOfAscii(ps, i); }
    AsciiFollowsNothing(limits, ps);
    PairedGoOnIff(limits, ps);
    PrefixExactly(browser, limits, document);
  }

  // ----- A document for every budget -----

  /** What the browser allows as a document: no text of its own, one element, one doctype. */
  ghost predicate IsDocument(node: Node) {
    && node.Other?
    && (forall child | child in node.children :: child.Element? || child.Comment? || child.Instruction? || child.Doctype?)
    && (forall i, j | 0 <= i < j < |node.children| && node.children[i].Element? :: !node.children[j].Element?)
    && (forall i, j | 0 <= i < j < |node.children| && node.children[i].Doctype? :: !node.children[j].Doctype?)
  }

  const EURO: Unit := 0x20AC
  const LETTER: Unit := 0x61

  function Letters(n: nat): (r: Text)
    ensures |r| == n && forall i | 0 <= i < n :: r[i] == LETTER
  {
    seq(n, i => LETTER)
  }

  /** Letters, and a character of three bytes. */
  function WideEnd(n: nat): (r: Text)
    ensures |r| == n + 1
  {
    Letters(n) + [EURO]
  }

  /** A comment that ends, one byte below the budget, in a character of three bytes. */
  function AlmostFull(maxBytes: nat): Node
    requires maxBytes >= 5
  {
    Other([Comment(WideEnd(maxBytes - 5))])
  }

  function AlmostFullPieces(maxBytes: nat): seq<Text>
    requires maxBytes >= 5
  {
    [U("<!--"), WideEnd(maxBytes - 5), U("-->")]
  }

  lemma {:induction false} WideEndIsCut(n: nat)
    ensures EncodeInto(WideEnd(n), n + 1) == Progress(n, n) && Utf8Length(WideEnd(n)) == n + 3
  {
    if n == 0 {
      assert WideEnd(0) == [EURO];
    } else {
      assert WideEnd(n)[1..] == WideEnd(n - 1) && WideEnd(n)[0] == LETTER;
      WideEndIsCut(n - 1);
    }
  }

  lemma {:induction false} NarrowCost(s: Text)
    requires Ascii(s)
    ensures Utf8Length(s) == |s|
  {
    if s != [] { NarrowCost(s[1..]); }
  }

  lemma CommentTokens(browser: Browser, data: Text)
    ensures var tokens := [Tick, Tick, Raw(U("<!--")), Raw(data), Raw(U("-->"))];
            Tokens(browser, Other([Comment(data)]), false) == tokens
  {
    var inner := [Tick, Raw(U("<!--")), Raw(data), Raw(U("-->"))];
    assert Tokens(browser, Comment(data), false) == inner;
    assert [Comment(data)][1..] == [];
    assert ChildTokens(browser, [Comment(data)], false) == inner + [];
    assert Tokens(browser, Other([Comment(data)]), false) == [Tick] + inner;
  }

  lemma ThreePieces(a: Text, b: Text, c: Text)
    ensures Pieces([Tick, Tick, Raw(a), Raw(b), Raw(c)]) == [a, b, c]
  {
    var two, three, four := [Tick, Tick], [Tick, Tick, Raw(a)], [Tick, Tick, Raw(a), Raw(b)];
    PiecesNext([Tick], [], Tick);
    PiecesNext(two, [Tick], Tick);
    PiecesNext(three, two, Raw(a));
    PiecesNext(four, three, Raw(b));
    PiecesNext([Tick, Tick, Raw(a), Raw(b), Raw(c)], four, Raw(c));
    assert [Tick, Tick, Raw(a), Raw(b), Raw(c)][..4] == four && four[..3] == three && three[..2] == two;
    assert two[..1] == [Tick] && [Tick][..0] == [];
  }

  lemma TwoTicks(a: Text, b: Text, c: Text)
    ensures Ticks([Tick, Tick, Raw(a), Raw(b), Raw(c)]) == 2
  {
    var two, texts := [Tick, Tick], [Raw(a), Raw(b), Raw(c)];
    assert [Tick, Tick, Raw(a), Raw(b), Raw(c)] == two + texts;
    TicksConcat(two, texts);
    assert two[..1] == [Tick] && [Tick][..0] == [];
    assert texts[..2] == [Raw(a), Raw(b)] && texts[..2][..1] == [Raw(a)] && [Raw(a)][..0] == [];
    assert Ticks([Raw(a)]) == 0;
    assert Ticks(texts[..2]) == 0;
  }

  lemma AlmostFullIsPieces(browser: Browser, limits: Limits)
    requires limits.maxBytes >= 5 && limits.maxWork >= 2
    ensures ReachedPieces(browser, limits, AlmostFull(limits.maxBytes)) == AlmostFullPieces(limits.maxBytes)
    ensures Ticks(Tokens(browser, AlmostFull(limits.maxBytes), false)) == 2
  {
    CommentTokens(browser, WideEnd(limits.maxBytes - 5));
    ThreePieces(U("<!--"), WideEnd(limits.maxBytes - 5), U("-->"));
    TwoTicks(U("<!--"), WideEnd(limits.maxBytes - 5), U("-->"));
  }

  /** The wide character is cut off with one byte left. */
  lemma WideEndIsFirstCut(limits: Limits)
    requires limits.maxBytes >= 5
    ensures var ps := AlmostFullPieces(limits.maxBytes);
            CutAt(limits, ps, 1) && RoomAfter(limits, ps, 1) == 1 && CutUnit(limits, ps, 1) == EURO
  {
    var n := limits.maxBytes - 5;
    var ps := AlmostFullPieces(limits.maxBytes);
    assert ps[..1] == [U("<!--")] && ps[..2] == [U("<!--")] + [WideEnd(n)];
    NarrowCost(U("<!--"));
    WholeOne(U("<!--"));
    WholeOne(WideEnd(n));
    CostConcat(ps[..2], [U("<!--")], [WideEnd(n)]);
    WideEndIsCut(n);
  }

  /** For every budget from five bytes up: a document whose truncated text is not a prefix of the whole. */
  lemma TruncatedTextIsNoPrefix(browser: Browser, limits: Limits)
    requires limits.maxBytes >= 5 && limits.maxWork >= 2
    ensures IsDocument(AlmostFull(limits.maxBytes))
    ensures var r := Result(browser, limits, AlmostFull(limits.maxBytes));
            && r.domTruncated && !r.traversalTruncated
            && !(r.dom <= Serialize(browser, AlmostFull(limits.maxBytes), false))
  {
    var document, ps := AlmostFull(limits.maxBytes), AlmostFullPieces(limits.maxBytes);
    AlmostFullIsPieces(browser, limits);
    WideEndIsFirstCut(limits);
    assert ps[2][0] == '-' as int && FirstFit(limits, ps, 1, 2);
    PrefixExactly(browser, limits, document);
    WorkIsCounted(browser, limits, Tokens(browser, document, false));
    TextIsExact(browser, limits, document);
  }

  /** The limits that the script runs with are no exception. */
  lemma ProductionTextIsNoPrefix(browser: Browser)
    ensures var document := AlmostFull(MAX_DOM_BYTES);
            && IsDocument(document)
            && !(Result(browser, PRODUCTION_LIMITS, document).dom <= Serialize(browser, document, false))
  {
    TruncatedTextIsNoPrefix(browser, PRODUCTION_LIMITS);
  }
}
