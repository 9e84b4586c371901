/** The text of a document as the pieces that are appended one after the other, and what the byte budget takes of them. */
module DomPieces {
  import opened Utf16
  import opened DomModel
  import opened DomLaws

  // ----- Pieces -----

  /** The parts in which a value is escaped and appended. */
  function EscapedPieces(value: Text, attribute: bool): seq<Text>
    decreases |value|
  {
    if value == [] then []
    else
      var n := PartLength(value);
      [Escape(value[..n], attribute)] + EscapedPieces(value[n..], attribute)
  }

  function PiecesOf(token: Token): seq<Text> {
    match token
    case Raw(text) => [text]
    case Escaped(value, attribute) => EscapedPieces(value, attribute)
    case _ => []
  }

  function Pieces(tokens: seq<Token>): seq<Text> {
    if tokens == [] then [] else Pieces(tokens[..|tokens| - 1]) + PiecesOf(tokens[|tokens| - 1])
  }

  function Whole(ps: seq<Text>): Text {
    if ps == [] then [] else Whole(ps[..|ps| - 1]) + ps[|ps| - 1]
  }

  /** The bytes of all pieces, each encoded by itself. */
  function Cost(ps: seq<Text>): nat {
    if ps == [] then 0 else Cost(ps[..|ps| - 1]) + Utf8Length(ps[|ps| - 1])
  }

  /** Appends one piece after the other. */
  function Feed(limits: Limits, out: Output, ps: seq<Text>): Output {
    if ps == [] then out else AppendRaw(limits, Feed(limits, out, ps[..|ps| - 1]), ps[|ps| - 1])
  }

  function Empty(): Output { Output([], 0, false) }

  // ----- Lists of pieces -----

  lemma {:induction false} WholeConcat(all: seq<Text>, a: seq<Text>, b: seq<Text>)
    requires all == a + b
    ensures Whole(all) == Whole(a) + Whole(b)
    decreases |b|
  {
    if b == [] {
      assert all == a;
    } else {
      var init, last := b[..|b| - 1], b[|b| - 1];
      WholeConcat(a + init, a, init);
      WholeNext(all, a + init, last);
      WholeNext(b, init, last);
      JoinRight(Whole(a), Whole(init), last);
    }
  }

  lemma WholeNext(all: seq<Text>, init: seq<Text>, last: Text)
    requires all == init + [last]
    ensures Whole(all) == Whole(init) + last
  {
    assert all[..|init|] == init;
  }

  lemma {:induction false} CostConcat(all: seq<Text>, a: seq<Text>, b: seq<Text>)
    requires all == a + b
    ensures Cost(all) == Cost(a) + Cost(b)
    decreases |b|
  {
    if b == [] {
      assert all == a;
    } else {
      CostConcat(a + b[..|b| - 1], a, b[..|b| - 1]);
      assert all[..|all| - 1] == a + b[..|b| - 1];
    }
  }

  lemma {:induction false} FeedConcat(limits: Limits, out: Output, all: seq<Text>, a: seq<Text>, b: seq<Text>)
    requires all == a + b
    ensures Feed(limits, out, all) == Feed(limits, Feed(limits, out, a), b)
    decreases |b|
  {
    if b == [] {
      assert all == a;
    } else {
      FeedConcat(limits, out, a + b[..|b| - 1], a, b[..|b| - 1]);
      assert all[..|all| - 1] == a + b[..|b| - 1];
    }
  }

  lemma FeedOne(limits: Limits, out: Output, p: Text)
    ensures Feed(limits, out, [p]) == AppendRaw(limits, out, p)
  {
    assert [p][..0] == [];
  }

  lemma WholeOne(p: Text)
    ensures Whole([p]) == p && Cost([p]) == Utf8Length(p)
  {
    assert [p][..0] == [];
  }

  /** A full buffer takes nothing more. */
  lemma {:induction false} FeedFull(limits: Limits, out: Output, ps: seq<Text>)
    requires out.bytes >= limits.maxBytes && ps != []
    ensures Feed(limits, out, ps) == out.(truncated := true)
  {
    if |ps| > 1 { FeedFull(limits, out, ps[..|ps| - 1]); }
  }

  lemma {:induction false} EscapedPiecesAreWhole(value: Text, attribute: bool)
    ensures Whole(EscapedPieces(value, attribute)) == Escape(value, attribute)
    decreases |value|
  {
    if value != [] {
      var n := PartLength(value);
      var part, rest := Escape(value[..n], attribute), EscapedPieces(value[n..], attribute);
      EscapedPiecesAreWhole(value[n..], attribute);
      WholeConcat(EscapedPieces(value, attribute), [part], rest);
      WholeOne(part);
      EscapeConcat(value, value[..n], value[n..], attribute);
    }
  }

  lemma EscapeNext(whole: Text, s: Text, u: Unit, attribute: bool)
    requires whole == s + [u]
    ensures Escape(whole, attribute) == Escape(s, attribute) + EscapeUnit(u, attribute)
  {
    assert whole[..|s|] == s;
  }

  lemma {:induction false} EscapeConcat(whole: Text, s: Text, t: Text, attribute: bool)
    requires whole == s + t
    ensures Escape(whole, attribute) == Escape(s, attribute) + Escape(t, attribute)
    decreases |t|
  {
    if t == [] {
      assert whole == s;
    } else {
      var init, last := t[..|t| - 1], t[|t| - 1];
      EscapeConcat(s + init, s, init, attribute);
      EscapeNext(whole, s + init, last, attribute);
      EscapeNext(t, init, last, attribute);
      JoinRight(Escape(s, attribute), Escape(init, attribute), EscapeUnit(last, attribute));
    }
  }

  lemma {:induction false} EscapeGrows(s: Text, attribute: bool)
    ensures |Escape(s, attribute)| >= |s|
  {
    if s != [] { EscapeGrows(s[..|s| - 1], attribute); }
  }

  lemma {:induction false} EscapedPiecesNotEmpty(value: Text, attribute: bool)
    ensures forall i | 0 <= i < |EscapedPieces(value, attribute)| :: EscapedPieces(value, attribute)[i] != []
    ensures value != [] ==> EscapedPieces(value, attribute) != []
    decreases |value|
  {
    if value != [] {
      var n := PartLength(value);
      EscapeGrows(value[..n], attribute);
      EscapedPiecesNotEmpty(value[n..], attribute);
    }
  }

  // ----- Tokens feed pieces -----

  lemma {:induction false} EscapedFeeds(limits: Limits, out: Output, value: Text, attribute: bool)
    ensures AppendEscaped(limits, out, value, attribute) == Feed(limits, out, EscapedPieces(value, attribute))
    decreases |value|
  {
    if value != [] {
      var n := PartLength(value);
      var part, rest := Escape(value[..n], attribute), EscapedPieces(value[n..], attribute);
      if out.bytes >= limits.maxBytes {
        FeedFull(limits, out, EscapedPieces(value, attribute));
      } else {
        EscapedFeeds(limits, AppendRaw(limits, out, part), value[n..], attribute);
        FeedConcat(limits, out, EscapedPieces(value, attribute), [part], rest);
        FeedOne(limits, out, part);
      }
    }
  }

  lemma TokenFeeds(browser: Browser, limits: Limits, s: Progression, token: Token)
    requires !s.halted
    ensures Process(browser, limits, s, token).out == Feed(limits, s.out, PiecesOf(token))
  {
    match token
    case Raw(text) => FeedOne(limits, s.out, text);
    case Escaped(value, attribute) => EscapedFeeds(limits, s.out, value, attribute);
    case _ =>
  }

  /** Until the walk is halted, the output is what the pieces make of it. */
  lemma {:induction false} TokensFeed(browser: Browser, limits: Limits, tokens: seq<Token>)
    requires !ProcessAll(browser, limits, Fresh(), tokens).halted
    ensures ProcessAll(browser, limits, Fresh(), tokens).out == Feed(limits, Empty(), Pieces(tokens))
  {
    if tokens != [] {
      var init, last := tokens[..|tokens| - 1], tokens[|tokens| - 1];
      TokensFeed(browser, limits, init);
      TokenFeeds(browser, limits, ProcessAll(browser, limits, Fresh(), init), last);
      FeedConcat(limits, Empty(), Pieces(tokens), Pieces(init), PiecesOf(last));
    }
  }

  lemma {:induction false} PiecesAreWhole(tokens: seq<Token>)
    ensures Whole(Pieces(tokens)) == TextOf(tokens)
  {
    if tokens != [] {
      var init, last := tokens[..|tokens| - 1], tokens[|tokens| - 1];
      PiecesAreWhole(init);
      WholeConcat(Pieces(tokens), Pieces(init), PiecesOf(last));
      match last
      case Raw(text) => WholeOne(text);
      case Escaped(value, attribute) => EscapedPiecesAreWhole(value, attribute);
      case _ =>
    }
  }

  lemma {:induction false} PiecesConcat(all: seq<Token>, a: seq<Token>, b: seq<Token>)
    requires all == a + b
    ensures Pieces(all) == Pieces(a) + Pieces(b)
    decreases |b|
  {
    if b == [] {
      assert all == a;
    } else {
      var init, last := b[..|b| - 1], b[|b| - 1];
      var joined := a + init;
      PiecesConcat(joined, a, init);
      assert all == joined + [last] by { Regrouped(all, joined, b, a, init, [last]); }
      assert Pieces(all) == Pieces(joined) + PiecesOf(last) by { PiecesNext(all, joined, last); }
      assert Pieces(b) == Pieces(init) + PiecesOf(last) by { PiecesNext(b, init, last); }
      Regrouped(Pieces(all), Pieces(joined), Pieces(b), Pieces(a), Pieces(init), PiecesOf(last));
    }
  }

  lemma Regrouped<T>(whole: seq<T>, left: seq<T>, right: seq<T>, a: seq<T>, b: seq<T>, c: seq<T>)
    requires left == a + b && right == b + c
    ensures whole == left + c <==> whole == a + right
  {
    assert left + c == a + right;
  }

  lemma PiecesNext(all: seq<Token>, init: seq<Token>, last: Token)
    requires all == init + [last]
    ensures Pieces(all) == Pieces(init) + PiecesOf(last)
  {
    assert all[..|init|] == init;
  }

  // ----- A walk that is halted -----

  /** The tokens before the work runs out. */
  function Reached(tokens: seq<Token>, maxWork: nat): seq<Token> {
    if Ticks(tokens) <= maxWork then tokens else Reached(tokens[..|tokens| - 1], maxWork)
  }

  lemma {:induction false} ReachedIsPrefix(tokens: seq<Token>, maxWork: nat)
    ensures Reached(tokens, maxWork) <= tokens && Ticks(Reached(tokens, maxWork)) <= maxWork
  {
    if Ticks(tokens) > maxWork { ReachedIsPrefix(tokens[..|tokens| - 1], maxWork); }
  }

  /** The walk is halted exactly when there is more work than the ceiling allows, and one item later. */
  lemma {:induction false} WorkIsCounted(browser: Browser, limits: Limits, tokens: seq<Token>)
    ensures var s := ProcessAll(browser, limits, Fresh(), tokens);
            && (s.halted <==> Ticks(tokens) > limits.maxWork)
            && s.work == (if s.halted then limits.maxWork + 1 else Ticks(tokens))
  {
    if tokens != [] { WorkIsCounted(browser, limits, tokens[..|tokens| - 1]); }
  }

  /** In any case the output is that of the tokens before the work ran out. */
  lemma {:induction false} ReachedFeeds(browser: Browser, limits: Limits, tokens: seq<Token>)
    ensures ProcessAll(browser, limits, Fresh(), tokens).out
         == Feed(limits, Empty(), Pieces(Reached(tokens, limits.maxWork)))
  {
    WorkIsCounted(browser, limits, tokens);
    if Ticks(tokens) <= limits.maxWork {
      TokensFeed(browser, limits, tokens);
    } else {
      ReachedFeeds(browser, limits, tokens[..|tokens| - 1]);
      WorkIsCounted(browser, limits, tokens[..|tokens| - 1]);
    }
  }

  // ----- What the budget takes -----

  /** The text costs at most what has been charged, and that at most the budget. */
  ghost predicate WithinBudget(limits: Limits, out: Output) {
    Utf8Length(out.text) <= out.bytes <= limits.maxBytes
  }

  /** One more piece: as many of its leading scalar values as fit are taken and charged. */
  lemma PieceTaken(limits: Limits, out: Output, p: Text)
    requires out.bytes <= limits.maxBytes
    ensures var q := EncodeInto(p, limits.maxBytes - out.bytes);
            && AppendRaw(limits, out, p).text == out.text + p[..q.units]
            && AppendRaw(limits, out, p).bytes == out.bytes + q.bytes
  {
    if out.bytes == limits.maxBytes {
      EncodeNothing(p, 0);
      assert out.text + p[..0] == out.text;
    }
  }

  lemma PieceWithinBudget(limits: Limits, out: Output, p: Text)
    requires WithinBudget(limits, out)
    ensures WithinBudget(limits, AppendRaw(limits, out, p))
  {
    PieceTaken(limits, out, p);
    var q := EncodeInto(p, limits.maxBytes - out.bytes);
    EncodedBytes(p, limits.maxBytes - out.bytes, q);
    ConcatCostsNoMore(out.text, p[..q.units]);
  }

  lemma {:induction false} FeedWithinBudget(limits: Limits, ps: seq<Text>)
    ensures WithinBudget(limits, Feed(limits, Empty(), ps))
  {
    if ps != [] {
      FeedWithinBudget(limits, ps[..|ps| - 1]);
      PieceWithinBudget(limits, Feed(limits, Empty(), ps[..|ps| - 1]), ps[|ps| - 1]);
    }
  }

  /** out is what pieces of the given cost and text leave behind. */
  ghost predicate ChargesExactly(limits: Limits, out: Output, cost: nat, text: Text, endsFull: bool) {
    && out.bytes <= limits.maxBytes
    && (!out.truncated ==> out.text == text && out.bytes == cost)
    && (cost > limits.maxBytes ==> out.truncated)
    && (out.truncated ==> cost >= limits.maxBytes)
    && (out.truncated && endsFull ==> cost > limits.maxBytes)
  }

  lemma PieceAccounts(limits: Limits, out: Output, p: Text, cost: nat, text: Text, endsFull: bool)
    requires ChargesExactly(limits, out, cost, text, endsFull)
    ensures ChargesExactly(limits, AppendRaw(limits, out, p), cost + Utf8Length(p), text + p, p != [])
  {
    if out.bytes < limits.maxBytes {
      var room := limits.maxBytes - out.bytes;
      EncodedBytes(p, room, EncodeInto(p, room));
      AllEncoded(p, room);
      if EncodeInto(p, room).units == |p| { assert p[..|p|] == p; }
    }
  }

  ghost predicate EndsFull(ps: seq<Text>) {
    ps == [] || ps[|ps| - 1] != []
  }

  /**
   * Without truncation everything is there and charged for exactly. If the last piece is not empty, truncation means
   * that the pieces cost more than the budget.
   */
  lemma {:induction false} FeedIsExact(limits: Limits, ps: seq<Text>)
    ensures ChargesExactly(limits, Feed(limits, Empty(), ps), Cost(ps), Whole(ps), EndsFull(ps))
  {
    if ps != [] {
      var init, last := ps[..|ps| - 1], ps[|ps| - 1];
      FeedIsExact(limits, init);
      PieceAccounts(limits, Feed(limits, Empty(), init), last, Cost(init), Whole(init), EndsFull(init));
    }
  }

  // ----- The pieces of a document end with text -----

  lemma EndsFullConcat(all: seq<Text>, a: seq<Text>, b: seq<Text>)
    requires all == a + b && EndsFull(b) && (b == [] ==> EndsFull(a))
    ensures EndsFull(all)
  {
    if b == [] { assert all == a; } else { assert all[|all| - 1] == b[|b| - 1]; }
  }

  lemma EscapedEndsFull(value: Text, attribute: bool)
    ensures EndsFull(EscapedPieces(value, attribute))
  {
    EscapedPiecesNotEmpty(value, attribute);
  }

  lemma LastTokenEndsFull(tokens: seq<Token>)
    requires tokens != [] && tokens[|tokens| - 1].Raw? && tokens[|tokens| - 1].text != []
    ensures EndsFull(Pieces(tokens)) && Pieces(tokens) != []
  {
  }

  /** No void element holds raw text. */
  lemma VoidHoldsNoRawText(name: Text)
    ensures !(IsVoid(name) && IsRawText(name))
  {
    if IsRawText(name) {
      if name == U("script") { NamesDiffer(name, U("source"), 1); }
      else if name == U("style") { FiveLetters(name); }
      else if name == U("xmp") { NamesDiffer(name, U("col"), 0); NamesDiffer(name, U("img"), 0); NamesDiffer(name, U("wbr"), 0); }
      else if name == U("iframe") { NamesDiffer(name, U("source"), 0); }
    }
  }

  lemma NamesDiffer(a: Text, b: Text, k: nat)
    requires k < |a| && k < |b| && a[k] != b[k]
    ensures a != b
  {
  }

  lemma FiveLetters(name: Text)
    requires name == U("style")
    ensures name != U("embed") && name != U("input") && name != U("param") && name != U("track")
  {
    NamesDiffer(name, U("embed"), 0);
    NamesDiffer(name, U("input"), 0);
    NamesDiffer(name, U("param"), 0);
    NamesDiffer(name, U("track"), 0);
  }

  lemma EnterEndsFull(browser: Browser, node: Node, raw: bool)
    requires node.Element?
    ensures EndsFull(Pieces(EnterTokens(browser, node, raw)))
  {
    var name := browser.lower(node.name);
    var tag := [Tick, Raw(U("<") + name)] + AttributesTokens(node.attributes) + [Raw(U(">"))];
    var source := SourceTokens(browser, name, node.attributes);
    LastTokenEndsFull(tag);
    PiecesConcat(EnterTokens(browser, node, raw), tag, source);
    if source != [] { assert Pieces(source) == [] by { assert source[..0] == []; } }
    EndsFullConcat(Pieces(EnterTokens(browser, node, raw)), Pieces(tag), Pieces(source));
  }

  lemma ElementEndsFull(browser: Browser, node: Node, raw: bool, children: seq<Token>)
    requires node.Element? && children == ChildTokens(browser, node.children, HoldsRawText(browser, node))
    requires !HoldsRawText(browser, node) ==> EndsFull(Pieces(children))
    ensures EndsFull(Pieces(Tokens(browser, node, raw)))
  {
    var enter := EnterTokens(browser, node, raw);
    var close := CloseTokens(Closes(browser, node), NameOf(browser, node));
    assert Tokens(browser, node, raw) == (enter + children) + close;
    if Closes(browser, node) {
      LastTokenEndsFull(Tokens(browser, node, raw));
    } else {
      VoidHoldsNoRawText(NameOf(browser, node));
      EnterEndsFull(browser, node, raw);
      PiecesConcat(enter + children, enter, children);
      EndsFullConcat(Pieces(enter + children), Pieces(enter), Pieces(children));
      assert Tokens(browser, node, raw) == enter + children;
    }
  }

  lemma LeafEndsFull(browser: Browser, node: Node)
    requires !node.Element? && !node.Other?
    ensures EndsFull(Pieces(Tokens(browser, node, false)))
  {
    var tokens := EnterTokens(browser, node, false);
    assert Tokens(browser, node, false) == tokens;
    if node.TextNode? {
      assert tokens == [Tick] + [Escaped(node.data, false)];
      PiecesConcat(tokens, [Tick], [Escaped(node.data, false)]);
      assert [Tick][..0] == [] && [Escaped(node.data, false)][..0] == [];
      assert Pieces(tokens) == EscapedPieces(node.data, false);
      EscapedEndsFull(node.data, false);
    } else {
      LastTokenEndsFull(tokens);
    }
  }

  lemma {:induction false} DocumentEndsFull(browser: Browser, node: Node)
    ensures EndsFull(Pieces(Tokens(browser, node, false)))
    decreases node, 1
  {
    match node {
    case Element(_, _, children) =>
      if !HoldsRawText(browser, node) { ChildrenEndFull(browser, children); }
      ElementEndsFull(browser, node, false, ChildTokens(browser, children, HoldsRawText(browser, node)));
    case Other(children) =>
      ChildrenEndFull(browser, children);
      var inner := ChildTokens(browser, children, false);
      assert Tokens(browser, node, false) == [Tick] + inner;
      PiecesConcat(Tokens(browser, node, false), [Tick], inner);
      assert [Tick][..0] == [];
      EndsFullConcat(Pieces(Tokens(browser, node, false)), Pieces([Tick]), Pieces(inner));
    case _ =>
      LeafEndsFull(browser, node);
    }
  }

  lemma {:induction false} ChildrenEndFull(browser: Browser, nodes: seq<Node>)
    ensures EndsFull(Pieces(ChildTokens(browser, nodes, false)))
    decreases nodes, 0
  {
    if nodes != [] {
      DocumentEndsFull(browser, nodes[0]);
      ChildrenEndFull(browser, nodes[1..]);
      var first, rest := Tokens(browser, nodes[0], false), ChildTokens(browser, nodes[1..], false);
      PiecesConcat(ChildTokens(browser, nodes, false), first, rest);
      EndsFullConcat(Pieces(ChildTokens(browser, nodes, false)), Pieces(first), Pieces(rest));
    }
  }

  // ----- Cost and length -----

  lemma {:induction false} CostBounds(ps: seq<Text>)
    ensures Utf8Length(Whole(ps)) <= Cost(ps) <= 3 * |Whole(ps)|
  {
    if ps != [] {
      CostBounds(ps[..|ps| - 1]);
      ConcatCostsNoMore(Whole(ps[..|ps| - 1]), ps[|ps| - 1]);
    }
  }
}
