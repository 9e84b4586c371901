/** Documents, and what serializing one of them within bounds means: token after token. */
module DomModel {
  import opened Model
  import opened Utf16

  // ----- Documents -----

  datatype Attribute = Attribute(name: Text, value: Text)

  /** A node; Other stands for documents, fragments, and every type that is not written itself. */
  datatype Node =
    | Element(name: Text, attributes: seq<Attribute>, children: seq<Node>)
    | TextNode(data: Text)
    | CDataSection(data: Text)
    | Instruction(target: Text, data: Text)
    | Comment(data: Text)
    | Doctype(name: Text)
    | Other(children: seq<Node>)

  const MAX_DOM_BYTES := 2097152
  const MAX_DOM_WORK_ITEMS := 100000
  const MAX_RESOURCES := 4096
  const MAX_DOM_URL_BYTES := 8192
  const SCRATCH_BYTES := 65536
  const ESCAPE_PART := 4096
  const CHUNK_UNITS := 16384

  datatype Limits = Limits(maxBytes: nat, maxWork: nat, maxResources: nat, maxURLBytes: nat)

  const PRODUCTION_LIMITS := Limits(MAX_DOM_BYTES, MAX_DOM_WORK_ITEMS, MAX_RESOURCES, MAX_DOM_URL_BYTES)

  /** Browser behaviour: lower-casing, and resolving a URL against the base to an http or https one. */
  datatype Browser = Browser(lower: Text -> Text, resolve: Text -> Option<Text>)

  // ----- Names with a meaning -----

  predicate IsVoid(name: Text) {
    name in {
      U("area"), U("base"), U("br"), U("col"), U("embed"), U("hr"), U("img"), U("input"), U("link"), U("meta"),
      U("param"), U("source"), U("track"), U("wbr")
    }
  }

  predicate IsRawText(name: Text) {
    name in { U("script"), U("style"), U("xmp"), U("iframe"), U("noembed"), U("noframes"), U("plaintext") }
  }

  datatype Kind = Script | Iframe

  function KindOf(name: Text): Option<Kind> {
    if name == U("script") then Some(Script) else if name == U("iframe") then Some(Iframe) else None
  }

  // ----- Text -----

  function EscapeUnit(u: Unit, attribute: bool): (r: Text)
    ensures 1 <= |r| <= 6
  {
    if u == '&' as int then U("&amp;")
    else if u == '<' as int then U("&lt;")
    else if u == '>' as int then U("&gt;")
    else if attribute && u == '"' as int then U("&quot;")
    else [u]
  }

  function Escape(s: Text, attribute: bool): Text {
    if s == [] then [] else Escape(s[..|s| - 1], attribute) + EscapeUnit(s[|s| - 1], attribute)
  }

  // ----- Bounded output -----

  /** The serialized text, the bytes charged for it, and whether something was left out. */
  datatype Output = Output(text: Text, bytes: nat, truncated: bool)

  /** As many leading scalar values as fit. A full buffer is reported as truncation even when nothing is to be added. */
  function AppendRaw(limits: Limits, out: Output, input: Text): Output {
    if out.bytes >= limits.maxBytes then out.(truncated := true)
    else
      var p := EncodeInto(input, limits.maxBytes - out.bytes);
      Output(out.text + input[..p.units], out.bytes + p.bytes, out.truncated || p.units < |input|)
  }

  function PartLength(value: Text): (n: nat)
    ensures n <= |value| && (value != [] ==> n > 0)
  {
    if |value| <= ESCAPE_PART then |value| else ESCAPE_PART
  }

  /** Escapes and appends part after part, until the buffer is full. */
  function AppendEscaped(limits: Limits, out: Output, value: Text, attribute: bool): Output
    decreases |value|
  {
    if value == [] then out
    else if out.bytes >= limits.maxBytes then out.(truncated := true)
    else
      var n := PartLength(value);
      AppendEscaped(limits, AppendRaw(limits, out, Escape(value[..n], attribute)), value[n..], attribute)
  }

  // ----- Bounded resources -----

  datatype Found = Found(
    scripts: seq<Text>, iframes: seq<Text>, scriptTruncated: bool, iframeTruncated: bool, urlTruncated: bool)

  /** The scratch buffer has room for one byte more than the ceiling. */
  predicate FitsURL(limits: Limits, value: Text) {
    |value| <= limits.maxURLBytes && EncodeInto(value, limits.maxURLBytes + 1).units == |value|
  }

  function MarkTruncated(f: Found, kind: Kind): Found {
    if kind.Script? then f.(scriptTruncated := true) else f.(iframeTruncated := true)
  }

  function URLsFound(f: Found, kind: Kind): seq<Text> {
    if kind.Script? then f.scripts else f.iframes
  }

  function AddResource(f: Found, kind: Kind, url: Text): Found {
    if kind.Script? then f.(scripts := f.scripts + [url]) else f.(iframes := f.iframes + [url])
  }

  function CollectResource(browser: Browser, limits: Limits, f: Found, kind: Kind, rawURL: Text): Found {
    if !FitsURL(limits, rawURL) then MarkTruncated(f, kind).(urlTruncated := true)
    else
      match browser.resolve(rawURL)
      case None => f
      case Some(resolved) =>
        if !FitsURL(limits, resolved) then MarkTruncated(f, kind).(urlTruncated := true)
        else if |URLsFound(f, kind)| == limits.maxResources then MarkTruncated(f, kind)
        else AddResource(f, kind, resolved)
  }

  // ----- Tokens -----

  /** What the walk of a document does, in order: it counts work, writes, and collects resources. */
  datatype Token = Tick | Raw(text: Text) | Escaped(value: Text, attribute: bool) | Source(kind: Kind, url: Text)

  datatype Progression = Progression(out: Output, found: Found, work: nat, halted: bool)

  function Fresh(): Progression {
    Progression(Output([], 0, false), Found([], [], false, false, false), 0, false)
  }

  /** One token; work beyond the ceiling halts the walk for good. */
  function Process(browser: Browser, limits: Limits, s: Progression, token: Token): Progression {
    if s.halted then s
    else
      match token
      case Tick => s.(work := s.work + 1, halted := s.work + 1 > limits.maxWork)
      case Raw(text) => s.(out := AppendRaw(limits, s.out, text))
      case Escaped(value, attribute) => s.(out := AppendEscaped(limits, s.out, value, attribute))
      case Source(kind, url) => s.(found := CollectResource(browser, limits, s.found, kind, url))
  }

  function ProcessAll(browser: Browser, limits: Limits, s: Progression, tokens: seq<Token>): Progression {
    if tokens == [] then s
    else Process(browser, limits, ProcessAll(browser, limits, s, tokens[..|tokens| - 1]), tokens[|tokens| - 1])
  }

  lemma {:induction false} ProcessConcat(browser: Browser, limits: Limits, s: Progression, a: seq<Token>, b: seq<Token>)
    ensures ProcessAll(browser, limits, s, a + b)
         == ProcessAll(browser, limits, ProcessAll(browser, limits, s, a), b)
  {
    if b == [] {
      assert a + b == a;
    } else {
      assert (a + b)[..|a + b| - 1] == a + b[..|b| - 1];
      ProcessConcat(browser, limits, s, a, b[..|b| - 1]);
    }
  }

  lemma ProcessOne(browser: Browser, limits: Limits, s: Progression, token: Token)
    ensures ProcessAll(browser, limits, s, [token]) == Process(browser, limits, s, token)
  {
    assert [token][..0] == [];
  }

  lemma ProcessNext(browser: Browser, limits: Limits, s: Progression, tokens: seq<Token>, token: Token)
    ensures ProcessAll(browser, limits, s, tokens + [token])
         == Process(browser, limits, ProcessAll(browser, limits, s, tokens), token)
  {
    assert (tokens + [token])[..|tokens|] == tokens;
  }

  /** Three tokens, one at a time. */
  lemma ProcessThree(browser: Browser, limits: Limits, s: Progression, a: Token, b: Token, c: Token)
    ensures ProcessAll(browser, limits, s, [a, b, c])
         == Process(browser, limits, Process(browser, limits, Process(browser, limits, s, a), b), c)
  {
    ProcessOne(browser, limits, s, a);
    ProcessNext(browser, limits, s, [a], b);
    assert [a] + [b] == [a, b];
    ProcessNext(browser, limits, s, [a, b], c);
    assert [a, b] + [c] == [a, b, c];
  }

  lemma {:induction false} HaltedStays(browser: Browser, limits: Limits, s: Progression, tokens: seq<Token>)
    requires s.halted
    ensures ProcessAll(browser, limits, s, tokens) == s
  {
    if tokens != [] { HaltedStays(browser, limits, s, tokens[..|tokens| - 1]); }
  }

  // ----- The tokens of a document -----

  function AttributeTokens(a: Attribute): seq<Token> {
    [Tick, Raw(U(" ") + a.name + U("=\"")), Escaped(a.value, true), Raw(U("\""))]
  }

  function AttributesTokens(attributes: seq<Attribute>): seq<Token> {
    if attributes == [] then []
    else AttributesTokens(attributes[..|attributes| - 1]) + AttributeTokens(attributes[|attributes| - 1])
  }

  /** The value of the last src attribute. */
  function SourceOf(browser: Browser, attributes: seq<Attribute>): Option<Text> {
    if attributes == [] then None
    else
      var last := attributes[|attributes| - 1];
      if browser.lower(last.name) == U("src") then Some(last.value)
      else SourceOf(browser, attributes[..|attributes| - 1])
  }

  function SourceTokens(browser: Browser, name: Text, attributes: seq<Attribute>): seq<Token> {
    if KindOf(name).Some? && SourceOf(browser, attributes).Some? then
      [Source(KindOf(name).value, SourceOf(browser, attributes).value)]
    else []
  }

  /** What is done on entering a node, before its children. */
  function EnterTokens(browser: Browser, node: Node, raw: bool): seq<Token> {
    match node
    case Element(localName, attributes, _) =>
      var name := browser.lower(localName);
      [Tick, Raw(U("<") + name)] + AttributesTokens(attributes) + [Raw(U(">"))] + SourceTokens(browser, name, attributes)
    case TextNode(data) => [Tick, if raw then Raw(data) else Escaped(data, false)]
    case CDataSection(data) => [Tick, Raw(U("<![CDATA[")), Raw(data), Raw(U("]]>"))]
    case Instruction(target, data) => [Tick, Raw(U("<?") + target + U(" ")), Raw(data), Raw(U("?>"))]
    case Comment(data) => [Tick, Raw(U("<!--")), Raw(data), Raw(U("-->"))]
    case Doctype(name) => [Tick, Raw(U("<!DOCTYPE ")), Raw(name), Raw(U(">"))]
    case Other(_) => [Tick]
  }

  function CloseTokens(closes: bool, name: Text): seq<Token> {
    if closes then [Raw(U("</") + name + U(">"))] else []
  }

  function Children(node: Node): seq<Node> {
    match node
    case Element(_, _, children) => children
    case Other(children) => children
    case _ => []
  }

  function NameOf(browser: Browser, node: Node): Text {
    if node.Element? then browser.lower(node.name) else []
  }

  predicate Closes(browser: Browser, node: Node) {
    node.Element? && !IsVoid(NameOf(browser, node))
  }

  predicate HoldsRawText(browser: Browser, node: Node) {
    node.Element? && IsRawText(NameOf(browser, node))
  }

  function Tokens(browser: Browser, node: Node, raw: bool): seq<Token>
    decreases node, 1
  {
    EnterTokens(browser, node, raw) + (
      match node
      case Element(_, _, children) => ChildTokens(browser, children, HoldsRawText(browser, node))
      case Other(children) => ChildTokens(browser, children, false)
      case _ => []
    ) + CloseTokens(Closes(browser, node), NameOf(browser, node))
  }

  function ChildTokens(browser: Browser, nodes: seq<Node>, raw: bool): seq<Token>
    decreases nodes, 0
  {
    if nodes == [] then [] else Tokens(browser, nodes[0], raw) + ChildTokens(browser, nodes[1..], raw)
  }

  // ----- The result -----

  datatype Snapshot = Snapshot(
    dom: Text, scriptURLs: seq<Text>, iframeURLs: seq<Text>, domTruncated: bool, scriptTruncated: bool,
    iframeTruncated: bool, traversalTruncated: bool, urlTruncated: bool)

  /** Work beyond the ceiling always leaves a truncated text. */
  function SnapshotOf(s: Progression): Snapshot {
    Snapshot(s.out.text, s.found.scripts, s.found.iframes, s.out.truncated || s.halted, s.found.scriptTruncated,
             s.found.iframeTruncated, s.halted, s.found.urlTruncated)
  }
}
