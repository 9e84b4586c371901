/** Reading a serialized document: the markup determines what was serialized, node by node and character by character. */
module Readback {
  import opened Model
  import opened Utf16
  import opened DomModel
  import opened DomLaws
  import opened DomPieces
  import opened Escaping

  // ----- What can be read -----

  /** What a reader of markup sees, in order. Text is seen character by character, since adjacent text nodes run together. */
  datatype Markup =
    | Start(name: Text, attributes: seq<Attribute>)
    | End(name: Text)
    | Char(unit: Unit)
    | Section(data: Text)
    | Processing(target: Text, data: Text)
    | Remark(data: Text)
    | DocumentType(name: Text)

  function Chars(data: Text): seq<Markup> {
    seq(|data|, i requires 0 <= i < |data| => Char(data[i]))
  }

  /** What there is to see of a node. */
  function Sights(browser: Browser, node: Node): seq<Markup>
    decreases node, 1
  {
    match node
    case Element(localName, attributes, children) =>
      var name := browser.lower(localName);
      [Start(name, attributes)] + SightsOfAll(browser, children) + if IsVoid(name) then [] else [End(name)]
    case TextNode(data) => Chars(data)
    case CDataSection(data) => [Section(data)]
    case Instruction(target, data) => [Processing(target, data)]
    case Comment(data) => [Remark(data)]
    case Doctype(name) => [DocumentType(name)]
    case Other(children) => SightsOfAll(browser, children)
  }

  function SightsOfAll(browser: Browser, nodes: seq<Node>): seq<Markup>
    decreases nodes, 0
  {
    if nodes == [] then [] else Sights(browser, nodes[0]) + SightsOfAll(browser, nodes[1..])
  }

  // ----- The reader -----

  const COMMENT_OPEN: Text := [0x3C, 0x21, 0x2D, 0x2D]
  const COMMENT_CLOSE: Text := [0x2D, 0x2D, 0x3E]
  const SECTION_OPEN: Text := [0x3C, 0x21, 0x5B, 0x43, 0x44, 0x41, 0x54, 0x41, 0x5B]
  const SECTION_CLOSE: Text := [0x5D, 0x5D, 0x3E]
  const DOCTYPE_OPEN: Text := [0x3C, 0x21, 0x44, 0x4F, 0x43, 0x54, 0x59, 0x50, 0x45, 0x20]
  const PROCESSING_OPEN: Text := [0x3C, 0x3F]
  const PROCESSING_CLOSE: Text := [0x3F, 0x3E]
  const END_OPEN: Text := [0x3C, 0x2F]
  const VALUE_OPEN: Text := [0x3D, 0x22]
  const VALUE_CLOSE: Text := [0x22]
  const TAG_CLOSE: Text := [0x3E]
  const BLANK: Text := [0x20]

  function Drop(s: Text, n: nat): (r: Text)
    ensures n > 0 && s != [] ==> |r| < |s|
    ensures |r| <= |s|
  {
    if n <= |s| then s[n..] else []
  }

  /** The position of the first occurrence of stop. */
  function FirstAt(s: Text, stop: Text): (n: nat)
    ensures n <= |s|
  {
    if s == [] || stop <= s then 0 else 1 + FirstAt(s[1..], stop)
  }

  /** What comes before the first occurrence of stop, and what comes behind it. */
  function Take(s: Text, stop: Text): (r: (Text, Text))
    ensures |r.0| <= |s| && |r.1| <= |s|
  {
    var n := FirstAt(s, stop);
    (s[..n], Drop(s, n + |stop|))
  }

  function NameLength(s: Text): (n: nat)
    ensures n <= |s|
  {
    if s == [] || s[0] == 0x20 || s[0] == 0x3E then 0 else 1 + NameLength(s[1..])
  }

  /** Attributes up to the end of a start tag, and what comes behind it. */
  function ReadAttributes(s: Text): (r: (seq<Attribute>, Text))
    ensures |r.1| <= |s|
    decreases |s|
  {
    if s == [] || s[0] != 0x20 then ([], Drop(s, 1))
    else
      var name := Take(s[1..], VALUE_OPEN);
      var value := Take(name.1, VALUE_CLOSE);
      var more := ReadAttributes(value.1);
      ([Attribute(name.0, Unescape(value.0))] + more.0, more.1)
  }

  /** The element whose raw text is being read, if any. */
  type RawIn = Option<Text>

  function RawOf(name: Text): RawIn {
    if IsRawText(name) then Some(name) else None
  }

  function ClosingTag(name: Text): Text {
    END_OPEN + name + TAG_CLOSE
  }

  /** Reads markup to the end. Raw text goes on to the end tag of its element, and holds no entities. */
  function Read(s: Text, raw: RawIn): seq<Markup>
    decreases |s|
  {
    if s == [] then []
    else if raw.Some? then
      if ClosingTag(raw.value) <= s then [End(raw.value)] + Read(s[|ClosingTag(raw.value)|..], None)
      else [Char(s[0])] + Read(s[1..], raw)
    else if END_OPEN <= s then
      var name := Take(s[2..], TAG_CLOSE);
      [End(name.0)] + Read(name.1, None)
    else if COMMENT_OPEN <= s then
      var data := Take(s[|COMMENT_OPEN|..], COMMENT_CLOSE);
      [Remark(data.0)] + Read(data.1, None)
    else if SECTION_OPEN <= s then
      var data := Take(s[|SECTION_OPEN|..], SECTION_CLOSE);
      [Section(data.0)] + Read(data.1, None)
    else if DOCTYPE_OPEN <= s then
      var name := Take(s[|DOCTYPE_OPEN|..], TAG_CLOSE);
      [DocumentType(name.0)] + Read(name.1, None)
    else if PROCESSING_OPEN <= s then
      var target := Take(s[|PROCESSING_OPEN|..], BLANK);
      var data := Take(target.1, PROCESSING_CLOSE);
      [Processing(target.0, data.0)] + Read(data.1, None)
    else if s[0] == 0x3C then
      var n := NameLength(s[1..]);
      var attributes := ReadAttributes(s[1 + n..]);
      [Start(s[1..1 + n], attributes.0)] + Read(attributes.1, RawOf(s[1..1 + n]))
    else if AMPERSAND <= s then [Char(0x26)] + Read(s[|AMPERSAND|..], None)
    else if LESS <= s then [Char(0x3C)] + Read(s[|LESS|..], None)
    else if GREATER <= s then [Char(0x3E)] + Read(s[|GREATER|..], None)
    else [Char(s[0])] + Read(s[1..], None)
  }

  // ----- Which documents can be read -----

  /** Behind data, stop is found where it is put and no earlier. */
  predicate Clear(data: Text, stop: Text) {
    forall i | 0 <= i < |data| :: !(stop <= (data + stop)[i..])
  }

  /** A tag name is not empty, does not look like other markup, and ends at white space or at the end of the tag. */
  predicate ReadableName(name: Text) {
    && name != [] && name[0] != 0x21 && name[0] != 0x2F && name[0] != 0x3F
    && forall i | 0 <= i < |name| :: name[i] != 0x20 && name[i] != 0x3E
  }

  /** Raw text in which the end tag of its element neither occurs nor begins. */
  predicate ReadableRaw(data: Text, name: Text) {
    forall i | 0 <= i < |data| :: !(ClosingTag(name) <= data[i..]) && !(data[i..] <= ClosingTag(name))
  }

  /** Every piece of the document ends where its own delimiter says so, and raw text is all that raw elements hold. */
  predicate Readable(browser: Browser, node: Node, raw: RawIn)
    decreases node, 1
  {
    match node
    case Element(localName, attributes, children) =>
      && raw.None? && ReadableName(browser.lower(localName))
      && (forall i | 0 <= i < |attributes| :: Clear(attributes[i].name, VALUE_OPEN))
      && AllReadable(browser, children, RawOf(browser.lower(localName)))
    case TextNode(data) => raw.Some? ==> ReadableRaw(data, raw.value)
    case CDataSection(data) => raw.None? && Clear(data, SECTION_CLOSE)
    case Instruction(target, data) => raw.None? && Clear(target, BLANK) && Clear(data, PROCESSING_CLOSE)
    case Comment(data) => raw.None? && Clear(data, COMMENT_CLOSE)
    case Doctype(name) => raw.None? && Clear(name, TAG_CLOSE)
    case Other(children) => raw.None? && AllReadable(browser, children, None)
  }

  predicate AllReadable(browser: Browser, nodes: seq<Node>, raw: RawIn)
    decreases nodes, 0
  {
    nodes == [] || (Readable(browser, nodes[0], raw) && AllReadable(browser, nodes[1..], raw))
  }

  // ----- Delimiters -----

  lemma Delimiters()
    ensures U("<!--") == COMMENT_OPEN && U("-->") == COMMENT_CLOSE
    ensures U("<![CDATA[") == SECTION_OPEN && U("]]>") == SECTION_CLOSE
    ensures U("<!DOCTYPE ") == DOCTYPE_OPEN && U(">") == TAG_CLOSE
    ensures U("<?") == PROCESSING_OPEN && U("?>") == PROCESSING_CLOSE && U(" ") == BLANK
    ensures U("</") == END_OPEN && U("<") == [0x3C] && U("=\"") == VALUE_OPEN && U("\"") == VALUE_CLOSE
  {
  }

  lemma ClearRest(data: Text, stop: Text)
    requires data != [] && Clear(data, stop)
    ensures Clear(data[1..], stop)
  {
    forall i | 0 <= i < |data[1..]| ensures !(stop <= (data[1..] + stop)[i..]) {
      assert (data[1..] + stop)[i..] == (data + stop)[i + 1..];
    }
  }

  lemma {:induction false} FirstAtStop(data: Text, stop: Text, rest: Text, s: Text)
    requires stop != [] && Clear(data, stop) && s == data + stop + rest
    ensures FirstAt(s, stop) == |data|
    decreases |data|
  {
    if data == [] {
      assert s == stop + rest;
    } else {
      ClearRest(data, stop);
      assert s[1..] == data[1..] + stop + rest;
      FirstAtStop(data[1..], stop, rest, s[1..]);
      NotYet(data, stop, rest, s);
    }
  }

  lemma PrefixOfFront(stop: Text, front: Text, rest: Text)
    ensures |stop| <= |front| ==> (stop <= front + rest <==> stop <= front)
  {
    if |stop| <= |front| { assert (front + rest)[..|stop|] == front[..|stop|]; }
  }

  lemma NotYet(data: Text, stop: Text, rest: Text, s: Text)
    requires data != [] && Clear(data, stop) && s == data + stop + rest
    ensures !(stop <= s)
  {
    var front := data + stop;
    assert front[0..] == front;
    PrefixOfFront(stop, front, rest);
  }

  /** A text is taken up to its delimiter. */
  lemma TakeFinds(data: Text, stop: Text, rest: Text, s: Text)
    requires stop != [] && Clear(data, stop) && s == data + stop + rest
    ensures Take(s, stop) == (data, rest)
  {
    FirstAtStop(data, stop, rest, s);
    assert s[..|data|] == data && s[|data| + |stop|..] == rest;
  }

  lemma {:induction false} NameFinds(name: Text, rest: Text, s: Text)
    requires (forall i | 0 <= i < |name| :: name[i] != 0x20 && name[i] != 0x3E)
    requires rest != [] && (rest[0] == 0x20 || rest[0] == 0x3E) && s == name + rest
    ensures NameLength(s) == |name|
    decreases |name|
  {
    if name == [] {
      assert s == rest;
    } else {
      assert s[1..] == name[1..] + rest;
      NameFinds(name[1..], rest, s[1..]);
    }
  }

  // ----- Attributes -----

  /** An attribute value, once escaped, contains no quotation mark. */
  lemma EscapedIsClear(value: Text)
    ensures Clear(Escape(value, true), VALUE_CLOSE)
  {
    var data := Escape(value, true);
    EscapeMeans(value, true);
    forall i | 0 <= i < |data| ensures !(VALUE_CLOSE <= (data + VALUE_CLOSE)[i..]) {
      assert (data + VALUE_CLOSE)[i..][0] == data[i];
    }
  }

  /** The attributes, first to last. */
  function AttributesFrom(attributes: seq<Attribute>): Text {
    if attributes == [] then [] else AttributeText(attributes[0]) + AttributesFrom(attributes[1..])
  }

  lemma {:induction false} AttributesFromFirst(attributes: seq<Attribute>)
    ensures AttributesText(attributes) == AttributesFrom(attributes)
    decreases |attributes|
  {
    if |attributes| > 1 {
      var init, last, rest := attributes[..|attributes| - 1], attributes[|attributes| - 1], attributes[1..];
      AttributesFromFirst(init);
      AttributesFromFirst(rest);
      AttributesFromFirst(rest[..|rest| - 1]);
      assert init[1..] == rest[..|rest| - 1] && init[0] == attributes[0] && rest[|rest| - 1] == last;
      Associates(AttributeText(attributes[0]), AttributesText(init[1..]), AttributeText(last));
    } else if |attributes| == 1 {
      assert attributes[..0] == [] && attributes[1..] == [];
      assert AttributesText(attributes) == [] + AttributeText(attributes[0]);
      assert AttributesFrom(attributes) == AttributeText(attributes[0]) + [];
    }
  }

  lemma Associates(a: Text, b: Text, c: Text)
    ensures (a + b) + c == a + (b + c)
  {
  }

  /** One attribute is read back. */
  lemma AttributeIsRead(a: Attribute, rest: Text, s: Text)
    requires Clear(a.name, VALUE_OPEN) && s == AttributeText(a) + rest
    ensures var more := ReadAttributes(rest); ReadAttributes(s) == ([a] + more.0, more.1)
  {
    Delimiters();
    var value := Escape(a.value, true);
    var behind := value + VALUE_CLOSE + rest;
    assert s == BLANK + (a.name + VALUE_OPEN + behind);
    assert s[0] == 0x20 && s[1..] == a.name + VALUE_OPEN + behind;
    TakeFinds(a.name, VALUE_OPEN, behind, s[1..]);
    EscapedIsClear(a.value);
    TakeFinds(value, VALUE_CLOSE, rest, behind);
    EscapeMeans(a.value, true);
  }

  lemma {:induction false} AttributesAreRead(attributes: seq<Attribute>, rest: Text, s: Text)
    requires forall i | 0 <= i < |attributes| :: Clear(attributes[i].name, VALUE_OPEN)
    requires s == AttributesFrom(attributes) + TAG_CLOSE + rest
    ensures ReadAttributes(s) == (attributes, rest)
    decreases |attributes|
  {
    if attributes == [] {
      assert s == TAG_CLOSE + rest && s[0] == 0x3E && s[1..] == rest;
    } else {
      var more := AttributesFrom(attributes[1..]) + TAG_CLOSE + rest;
      assert s == AttributeText(attributes[0]) + more;
      AttributeIsRead(attributes[0], more, s);
      AttributesAreRead(attributes[1..], rest, more);
      assert attributes == [attributes[0]] + attributes[1..];
    }
  }

  lemma AttributesBegin(attributes: seq<Attribute>, rest: Text)
    ensures var s := AttributesFrom(attributes) + TAG_CLOSE + rest; s[0] == 0x20 || s[0] == 0x3E
  {
    Delimiters();
    if attributes != [] { assert AttributeText(attributes[0])[0] == 0x20; }
  }

  // ----- Tags -----

  lemma StartIsRead(name: Text, attributes: seq<Attribute>, rest: Text, s: Text)
    requires ReadableName(name) && forall i | 0 <= i < |attributes| :: Clear(attributes[i].name, VALUE_OPEN)
    requires s == StartTag(name, attributes) + rest
    ensures Read(s, None) == [Start(name, attributes)] + Read(rest, RawOf(name))
  {
    var behind := AttributesFrom(attributes) + TAG_CLOSE + rest;
    StartTagParts(name, attributes, rest, s, behind);
    AttributesBegin(attributes, rest);
    NameFinds(name, behind, s[1..]);
    AttributesAreRead(attributes, rest, behind);
    TagIsRead(name, attributes, behind, rest, s);
  }

  lemma TagIsRead(name: Text, attributes: seq<Attribute>, behind: Text, rest: Text, s: Text)
    requires |s| >= 2 && s[0] == 0x3C && s[1] != 0x21 && s[1] != 0x2F && s[1] != 0x3F
    requires 1 + |name| <= |s| && NameLength(s[1..]) == |name| && s[1..1 + |name|] == name && s[1 + |name|..] == behind
    requires ReadAttributes(behind) == (attributes, rest)
    ensures Read(s, None) == [Start(name, attributes)] + Read(rest, RawOf(name))
  {
    NotOtherMarkup(s);
  }

  /** Five parts, regrouped behind the first. */
  lemma FiveParts(open: Text, name: Text, attributes: Text, close: Text, rest: Text)
    ensures (open + name + attributes + close) + rest == open + (name + (attributes + close + rest))
  {
  }

  lemma BehindFirst(u: Unit, name: Text, behind: Text, s: Text)
    requires name != [] && s == [u] + (name + behind)
    ensures |s| >= 2 && s[0] == u && s[1] == name[0] && s[1..] == name + behind
    ensures 1 + |name| <= |s| && s[1..1 + |name|] == name && s[1 + |name|..] == behind
  {
  }

  lemma StartTagParts(name: Text, attributes: seq<Attribute>, rest: Text, s: Text, behind: Text)
    requires name != [] && s == StartTag(name, attributes) + rest
    requires behind == AttributesFrom(attributes) + TAG_CLOSE + rest
    ensures |s| >= 2 && s[0] == 0x3C && s[1] == name[0] && s[1..] == name + behind
    ensures 1 + |name| <= |s| && s[1..1 + |name|] == name && s[1 + |name|..] == behind
  {
    Delimiters();
    AttributesFromFirst(attributes);
    FiveParts([0x3C], name, AttributesFrom(attributes), TAG_CLOSE, rest);
    BehindFirst(0x3C, name, behind, s);
  }

  lemma NotOtherMarkup(s: Text)
    requires |s| >= 2 && s[0] == 0x3C && s[1] != 0x21 && s[1] != 0x2F && s[1] != 0x3F
    ensures !(END_OPEN <= s) && !(COMMENT_OPEN <= s) && !(SECTION_OPEN <= s) && !(DOCTYPE_OPEN <= s) && !(PROCESSING_OPEN <= s)
  {
    assert END_OPEN[1] == 0x2F && COMMENT_OPEN[1] == 0x21 && SECTION_OPEN[1] == 0x21 && DOCTYPE_OPEN[1] == 0x21;
    assert PROCESSING_OPEN[1] == 0x3F;
  }

  lemma NameIsClear(name: Text)
    requires ReadableName(name)
    ensures Clear(name, TAG_CLOSE)
  {
    forall i | 0 <= i < |name| ensures !(TAG_CLOSE <= (name + TAG_CLOSE)[i..]) {
      assert (name + TAG_CLOSE)[i..][0] == name[i];
    }
  }

  lemma EndIsRead(name: Text, rest: Text, s: Text)
    requires ReadableName(name) && s == ClosingTag(name) + rest
    ensures Read(s, None) == [End(name)] + Read(rest, None)
    ensures Read(s, Some(name)) == [End(name)] + Read(rest, None)
  {
    assert s == END_OPEN + (name + TAG_CLOSE + rest);
    assert END_OPEN <= s && s[2..] == name + TAG_CLOSE + rest;
    NameIsClear(name);
    TakeFinds(name, TAG_CLOSE, rest, s[2..]);
    assert s[|ClosingTag(name)|..] == rest;
  }

  // ----- Text -----

  lemma PlainUnitIsRead(u: Unit, rest: Text, s: Text)
    requires u != 0x26 && u != 0x3C && s == [u] + rest
    ensures Read(s, None) == [Char(u)] + Read(rest, None)
  {
    assert s[0] == u && s[1..] == rest;
    assert END_OPEN[0] == 0x3C && COMMENT_OPEN[0] == 0x3C && SECTION_OPEN[0] == 0x3C && DOCTYPE_OPEN[0] == 0x3C;
    assert PROCESSING_OPEN[0] == 0x3C && AMPERSAND[0] == 0x26 && LESS[0] == 0x26 && GREATER[0] == 0x26;
  }

  lemma EntityIsRead(entity: Text, rest: Text, s: Text)
    requires entity == AMPERSAND || entity == LESS || entity == GREATER
    requires s == entity + rest
    ensures Read(s, None)
         == [Char(if entity == AMPERSAND then 0x26 else if entity == LESS then 0x3C else 0x3E)] + Read(rest, None)
  {
    assert s[|entity|..] == rest && s[0] == 0x26 && s[1] == entity[1];
    assert END_OPEN[0] == 0x3C && COMMENT_OPEN[0] == 0x3C && SECTION_OPEN[0] == 0x3C && DOCTYPE_OPEN[0] == 0x3C;
    assert PROCESSING_OPEN[0] == 0x3C;
    assert AMPERSAND <= s ==> s[1] == AMPERSAND[1];
    assert LESS <= s ==> s[1] == LESS[1];
    assert GREATER <= s ==> s[1] == GREATER[1];
  }

  /** The first character, and the others. */
  lemma CharsJoin(data: Text, all: seq<Markup>, others: seq<Markup>, last: seq<Markup>)
    requires data != [] && all == [Char(data[0])] + others && others == Chars(data[1..]) + last
    ensures all == Chars(data) + last
  {
    assert Chars(data) == [Char(data[0])] + Chars(data[1..]);
  }

  lemma EscapedUnitIsRead(u: Unit, rest: Text, s: Text)
    requires s == EscapeUnit(u, false) + rest
    ensures Read(s, None) == [Char(u)] + Read(rest, None)
  {
    UnitMeans(u, false);
    if IsEntity(EscapeUnit(u, false)) {
      EntityIsRead(EscapeUnit(u, false), rest, s);
    } else {
      PlainUnitIsRead(u, rest, s);
    }
  }

  lemma {:induction false} EscapedIsRead(data: Text, rest: Text, s: Text)
    requires s == Escape(data, false) + rest
    ensures Read(s, None) == Chars(data) + Read(rest, None)
    decreases |data|
  {
    if data == [] {
      assert s == rest;
    } else {
      var behind := Escape(data[1..], false) + rest;
      EscapeBegins(data, false);
      Associates(EscapeUnit(data[0], false), Escape(data[1..], false), rest);
      EscapedUnitIsRead(data[0], behind, s);
      EscapedIsRead(data[1..], rest, behind);
      CharsJoin(data, Read(s, None), Read(behind, None), Read(rest, None));
    }
  }

  lemma {:induction false} RawIsRead(data: Text, name: Text, rest: Text, s: Text)
    requires ReadableRaw(data, name) && s == data + rest
    ensures Read(s, Some(name)) == Chars(data) + Read(rest, Some(name))
    decreases |data|
  {
    if data == [] {
      assert s == rest;
    } else {
      var behind := data[1..] + rest;
      assert s == [data[0]] + behind && s[0] == data[0] && s[1..] == behind;
      assert data[0..] == data;
      NoClosingYet(data, ClosingTag(name), rest);
      assert forall i | 0 <= i < |data| - 1 :: data[1..][i..] == data[i + 1..];
      RawIsRead(data[1..], name, rest, behind);
      CharsJoin(data, Read(s, Some(name)), Read(behind, Some(name)), Read(rest, Some(name)));
    }
  }

  /** A text that neither begins with stop nor begins stop does not begin with it, whatever follows. */
  lemma NoClosingYet(data: Text, stop: Text, rest: Text)
    requires !(stop <= data) && !(data <= stop)
    ensures !(stop <= data + rest)
  {
    PrefixOfFront(stop, data, rest);
    if |stop| > |data| { PrefixOfFront(data, stop, []); ShorterOfTwo(data, stop, rest); }
  }

  lemma ShorterOfTwo(data: Text, stop: Text, rest: Text)
    requires |stop| > |data|
    ensures stop <= data + rest ==> data <= stop
  {
    if stop <= data + rest { assert stop[..|data|] == (data + rest)[..|stop|][..|data|]; }
  }

  // ----- Other nodes -----

  lemma RemarkIsRead(data: Text, rest: Text, s: Text)
    requires Clear(data, COMMENT_CLOSE) && s == COMMENT_OPEN + data + COMMENT_CLOSE + rest
    ensures Read(s, None) == [Remark(data)] + Read(rest, None)
  {
    assert COMMENT_OPEN <= s && s[|COMMENT_OPEN|..] == data + COMMENT_CLOSE + rest;
    assert s[1] == 0x21 && END_OPEN[1] == 0x2F;
    TakeFinds(data, COMMENT_CLOSE, rest, s[|COMMENT_OPEN|..]);
  }

  lemma SectionIsRead(data: Text, rest: Text, s: Text)
    requires Clear(data, SECTION_CLOSE) && s == SECTION_OPEN + data + SECTION_CLOSE + rest
    ensures Read(s, None) == [Section(data)] + Read(rest, None)
  {
    assert SECTION_OPEN <= s && s[|SECTION_OPEN|..] == data + SECTION_CLOSE + rest;
    assert s[1] == 0x21 && s[2] == 0x5B && END_OPEN[1] == 0x2F && COMMENT_OPEN[2] == 0x2D;
    TakeFinds(data, SECTION_CLOSE, rest, s[|SECTION_OPEN|..]);
  }

  lemma DoctypeIsRead(name: Text, rest: Text, s: Text)
    requires Clear(name, TAG_CLOSE) && s == DOCTYPE_OPEN + name + TAG_CLOSE + rest
    ensures Read(s, None) == [DocumentType(name)] + Read(rest, None)
  {
    assert DOCTYPE_OPEN <= s && s[|DOCTYPE_OPEN|..] == name + TAG_CLOSE + rest;
    assert s[1] == 0x21 && s[2] == 0x44 && END_OPEN[1] == 0x2F && COMMENT_OPEN[2] == 0x2D && SECTION_OPEN[2] == 0x5B;
    TakeFinds(name, TAG_CLOSE, rest, s[|DOCTYPE_OPEN|..]);
  }

  lemma ProcessingOnly(s: Text)
    requires PROCESSING_OPEN <= s
    ensures !(END_OPEN <= s) && !(COMMENT_OPEN <= s) && !(SECTION_OPEN <= s) && !(DOCTYPE_OPEN <= s)
  {
    assert s[1] == 0x3F && END_OPEN[1] == 0x2F && COMMENT_OPEN[1] == 0x21 && SECTION_OPEN[1] == 0x21 && DOCTYPE_OPEN[1] == 0x21;
  }

  lemma ProcessingIsRead(target: Text, data: Text, rest: Text, s: Text)
    requires Clear(target, BLANK) && Clear(data, PROCESSING_CLOSE)
    requires s == PROCESSING_OPEN + target + BLANK + data + PROCESSING_CLOSE + rest
    ensures Read(s, None) == [Processing(target, data)] + Read(rest, None)
  {
    var behind := data + PROCESSING_CLOSE + rest;
    assert PROCESSING_OPEN <= s && s[|PROCESSING_OPEN|..] == target + BLANK + behind;
    ProcessingOnly(s);
    TakeFinds(target, BLANK, behind, s[|PROCESSING_OPEN|..]);
    TakeFinds(data, PROCESSING_CLOSE, rest, behind);
  }

  lemma LeafIsRead(browser: Browser, node: Node, raw: RawIn, rest: Text, s: Text)
    requires !node.Element? && !node.Other? && Readable(browser, node, raw) && s == Serialize(browser, node, raw.Some?) + rest
    ensures Read(s, raw) == Sights(browser, node) + Read(rest, raw)
  {
    Delimiters();
    match node {
    case TextNode(data) => if raw.Some? { RawIsRead(data, raw.value, rest, s); } else { EscapedIsRead(data, rest, s); }
    case CDataSection(data) => SectionIsRead(data, rest, s);
    case Instruction(target, data) => ProcessingIsRead(target, data, rest, s);
    case Comment(data) => RemarkIsRead(data, rest, s);
    case Doctype(name) => DoctypeIsRead(name, rest, s);
    }
  }

  // ----- Documents -----

  lemma ElementJoins(s: Text, start: Text, inner: Text, end: Text, rest: Text)
    requires s == (start + inner + end) + rest
    ensures s == start + (inner + (end + rest))
  {
  }

  lemma SightsJoin(
      all: seq<Markup>, start: Markup, inner: seq<Markup>, end: seq<Markup>, last: seq<Markup>,
      behindStart: seq<Markup>, behindInner: seq<Markup>)
    requires all == [start] + behindStart && behindStart == inner + behindInner && behindInner == end + last
    ensures all == ([start] + inner + end) + last
  {
  }

  lemma {:induction false} ElementIsRead(browser: Browser, node: Node, rest: Text, s: Text)
    requires node.Element? && Readable(browser, node, None) && s == Serialize(browser, node, false) + rest
    ensures Read(s, None) == Sights(browser, node) + Read(rest, None)
    decreases node, 1
  {
    var name := browser.lower(node.name);
    var raw := RawOf(name);
    var start, inner, end := StartTag(name, node.attributes), SerializeAll(browser, node.children, raw.Some?), EndTag(name);
    ElementJoins(s, start, inner, end, rest);
    StartIsRead(name, node.attributes, inner + (end + rest), s);
    NodesAreRead(browser, node.children, raw, end + rest, inner + (end + rest));
    EndTagIsRead(name, rest, end + rest);
    SightsJoin(Read(s, None), Start(name, node.attributes), SightsOfAll(browser, node.children),
               if IsVoid(name) then [] else [End(name)], Read(rest, None),
               Read(inner + (end + rest), raw), Read(end + rest, raw));
  }

  /** Whatever follows, a readable node is read back as what there is to see of it. */
  lemma {:induction false} NodeIsRead(browser: Browser, node: Node, raw: RawIn, rest: Text, s: Text)
    requires Readable(browser, node, raw) && s == Serialize(browser, node, raw.Some?) + rest
    ensures Read(s, raw) == Sights(browser, node) + Read(rest, raw)
    decreases node, 2
  {
    match node {
    case Element(_, _, _) => ElementIsRead(browser, node, rest, s);
    case Other(children) => NodesAreRead(browser, children, None, rest, s);
    case _ => LeafIsRead(browser, node, raw, rest, s);
    }
  }

  lemma EndTagIsRead(name: Text, rest: Text, s: Text)
    requires ReadableName(name) && s == EndTag(name) + rest
    ensures Read(s, RawOf(name)) == (if IsVoid(name) then [] else [End(name)]) + Read(rest, None)
  {
    Delimiters();
    if IsVoid(name) {
      VoidHoldsNoRawText(name);
      assert s == rest;
    } else {
      assert s == ClosingTag(name) + rest;
      EndIsRead(name, rest, s);
    }
  }

  lemma RunsJoin(all: seq<Markup>, a: seq<Markup>, b: seq<Markup>, last: seq<Markup>, behind: seq<Markup>)
    requires all == a + behind && behind == b + last
    ensures all == (a + b) + last
  {
  }

  lemma {:induction false} NodesAreRead(browser: Browser, nodes: seq<Node>, raw: RawIn, rest: Text, s: Text)
    requires AllReadable(browser, nodes, raw) && s == SerializeAll(browser, nodes, raw.Some?) + rest
    ensures Read(s, raw) == SightsOfAll(browser, nodes) + Read(rest, raw)
    decreases nodes, 0
  {
    if nodes == [] {
      assert s == rest;
    } else {
      var behind := SerializeAll(browser, nodes[1..], raw.Some?) + rest;
      Associates(Serialize(browser, nodes[0], raw.Some?), SerializeAll(browser, nodes[1..], raw.Some?), rest);
      NodeIsRead(browser, nodes[0], raw, behind, s);
      NodesAreRead(browser, nodes[1..], raw, rest, behind);
      RunsJoin(Read(s, raw), Sights(browser, nodes[0]), SightsOfAll(browser, nodes[1..]), Read(rest, raw), Read(behind, raw));
    }
  }

  /** Reading the plain serialization of a readable document gives back its elements, attributes, texts and other nodes. */
  lemma DocumentIsRead(browser: Browser, document: Node)
    requires Readable(browser, document, None)
    ensures Read(Serialize(browser, document, false), None) == Sights(browser, document)
  {
    var s := Serialize(browser, document, false);
    assert s == s + [];
    NodeIsRead(browser, document, None, [], s);
  }
}
