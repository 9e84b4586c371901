/** The bounded serializer: an explicit-stack walk that processes exactly the tokens of its document. */
module DomSerializer {
  import opened Model
  import opened Utf16
  import opened DomModel
  import DomLaws
  import DomBounds

  // ----- Encoding through a scratch buffer -----

  /** What the scratch buffer is offered: at most as many code units as it has bytes. */
  function Candidate(value: Text, offset: nat, capacity: nat): Text
    requires offset <= |value|
  {
    value[offset..Min(offset + capacity, |value|)]
  }

  lemma CandidateEncodes(value: Text, offset: nat, capacity: nat)
    requires offset <= |value|
    ensures EncodeInto(Candidate(value, offset, capacity), capacity) == EncodeInto(value[offset..], capacity)
  {
    var s := value[offset..];
    if capacity <= |s| {
      assert Candidate(value, offset, capacity) == s[..capacity];
      SliceIsEnough(s, capacity, capacity);
    } else {
      assert Candidate(value, offset, capacity) == s;
    }
  }

  /** One pass of the loop in appendRaw takes what the whole remaining buffer would take first. */
  lemma ScratchIsInvisible(s: Text, room: nat, scratch: nat, p: Progress, q: Progress)
    requires s != [] && room > 0 && (scratch >= room || scratch >= 4)
    requires p == EncodeInto(s, Min(room, scratch)) && q == EncodeInto(s[p.units..], room - p.bytes)
    ensures Resumes(s, p, q, room)
    ensures p.units == 0 ==> FirstBytes(s) > room
  {
    EncodingResumes(s, Min(room, scratch), room, p, q);
  }

  function Join(chunks: seq<Text>): Text {
    if chunks == [] then [] else Join(chunks[..|chunks| - 1]) + chunks[|chunks| - 1]
  }

  lemma JoinAppend(chunks: seq<Text>, chunk: Text)
    ensures Join(chunks + [chunk]) == Join(chunks) + chunk
  {
    assert (chunks + [chunk])[..|chunks|] == chunks;
  }

  function Scratch(limits: Limits): nat { Min(limits.maxBytes, SCRATCH_BYTES) }

  /** What the loop of appendRaw still has to do with the rest of its input. */
  function Continue(limits: Limits, out: Output, rest: Text): Output {
    if rest == [] then out else AppendRaw(limits, out, rest)
  }

  function Advanced(now: Output, s: Text, p: Progress): Output
    requires p.units <= |s|
  {
    Output(now.text + s[..p.units], now.bytes + p.bytes, now.truncated)
  }

  lemma TextsJoin(text: Text, s: Text, m: nat, n: nat)
    requires m + n <= |s|
    ensures text + s[..m + n] == (text + s[..m]) + s[m..][..n]
  {
  }

  /** The output after taking p of s, and nothing more. */
  function Finish(out: Output, s: Text, p: Progress): Output
    requires p.units <= |s|
  {
    Output(out.text + s[..p.units], out.bytes + p.bytes, out.truncated || p.units < |s|)
  }

  lemma ContinueIsFinish(limits: Limits, out: Output, s: Text)
    requires out.bytes <= limits.maxBytes
    ensures Continue(limits, out, s) == Finish(out, s, EncodeInto(s, limits.maxBytes - out.bytes))
  {
    if s == [] || out.bytes == limits.maxBytes {
      EncodeNothing(s, limits.maxBytes - out.bytes);
      assert out.text + s[..0] == out.text;
    }
  }

  lemma FinishTwice(now: Output, s: Text, p: Progress, q: Progress)
    requires p.units + q.units <= |s|
    ensures Finish(now, s, Progress(p.units + q.units, p.bytes + q.bytes)) == Finish(Advanced(now, s, p), s[p.units..], q)
  {
    TextsJoin(now.text, s, p.units, q.units);
  }

  lemma RawStepFinishes(limits: Limits, now: Output, s: Text, p: Progress, q: Progress, next: Output, t: Text, room: nat)
    requires now.bytes <= limits.maxBytes && room == limits.maxBytes - now.bytes
    requires p.bytes <= room && p.units + q.units <= |s| && t == s[p.units..]
    requires next == Advanced(now, s, p) && q == EncodeInto(t, room - p.bytes)
    requires Resumes(s, p, q, room)
    ensures Continue(limits, now, s) == Continue(limits, next, t)
  {
    assert limits.maxBytes - next.bytes == room - p.bytes;
    ContinueIsFinish(limits, now, s);
    ContinueIsFinish(limits, next, t);
    FinishTwice(now, s, p, q);
  }

  /** One pass of the loop of appendRaw. */
  lemma RawStep(limits: Limits, now: Output, s: Text, p: Progress, next: Output, t: Text)
    requires s != [] && now.bytes < limits.maxBytes
    requires p == EncodeInto(s, Min(limits.maxBytes - now.bytes, Scratch(limits)))
    requires next == Advanced(now, s, p) && t == s[p.units..]
    ensures Continue(limits, now, s) == Continue(limits, next, t)
    ensures p.units == 0 ==> FirstBytes(s) > limits.maxBytes - now.bytes
  {
    var room := limits.maxBytes - now.bytes;
    var q := EncodeInto(t, room - p.bytes);
    ScratchIsInvisible(s, room, Scratch(limits), p, q);
    RawStepFinishes(limits, now, s, p, q, next, t, room);
  }

  /** Without progress nothing more fits, and the rest is truncated. */
  lemma RawStuck(limits: Limits, now: Output, s: Text)
    requires s != [] && now.bytes < limits.maxBytes && FirstBytes(s) > limits.maxBytes - now.bytes
    ensures Continue(limits, now, s) == now.(truncated := true)
  {
    EncodeNothing(s, limits.maxBytes - now.bytes);
    ContinueIsFinish(limits, now, s);
    assert now.text + s[..0] == now.text;
  }

  /** One pass of the loop of appendEscaped. */
  lemma EscapedStep(limits: Limits, out: Output, value: Text, offset: nat, part: Text, attribute: bool)
    requires offset < |value| && out.bytes < limits.maxBytes
    requires part == value[offset..Min(offset + ESCAPE_PART, |value|)]
    ensures DomModel.AppendEscaped(limits, out, value[offset..], attribute)
         == DomModel.AppendEscaped(limits, DomModel.AppendRaw(limits, out, Escape(part, attribute)),
                                   value[offset + |part|..], attribute)
  {
    var rest := value[offset..];
    assert part == rest[..PartLength(rest)];
    RestOfRest(value, offset, |part|);
  }

  // ----- The serializer -----

  /** rest is what the child pointer still has to visit. */
  datatype Frame = Frame(node: Node, entered: bool, rest: seq<Node>, name: Text, closes: bool, rawText: bool)

  // ----- Attributes -----

  lemma AttributesNext(browser: Browser, limits: Limits, s: Progression, attributes: seq<Attribute>, i: nat)
    requires i < |attributes|
    ensures ProcessAll(browser, limits, s, AttributesTokens(attributes[..i + 1]))
         == ProcessAll(browser, limits, ProcessAll(browser, limits, s, AttributesTokens(attributes[..i])),
                       AttributeTokens(attributes[i]))
  {
    assert attributes[..i + 1][..i] == attributes[..i];
    ProcessConcat(browser, limits, s, AttributesTokens(attributes[..i]), AttributeTokens(attributes[i]));
  }

  /** Attributes after a halt change nothing. */
  lemma {:induction false} AttributesAfterHalt(
      browser: Browser, limits: Limits, s: Progression, attributes: seq<Attribute>, i: nat, n: nat)
    requires i <= n <= |attributes|
    requires ProcessAll(browser, limits, s, AttributesTokens(attributes[..i])).halted
    ensures ProcessAll(browser, limits, s, AttributesTokens(attributes[..n]))
         == ProcessAll(browser, limits, s, AttributesTokens(attributes[..i]))
    decreases n
  {
    if i < n {
      AttributesAfterHalt(browser, limits, s, attributes, i, n - 1);
      AttributesNext(browser, limits, s, attributes, n - 1);
      HaltedStays(browser, limits, ProcessAll(browser, limits, s, AttributesTokens(attributes[..n - 1])),
                  AttributeTokens(attributes[n - 1]));
    }
  }

  lemma SourceNext(browser: Browser, attributes: seq<Attribute>, i: nat)
    requires i < |attributes|
    ensures SourceOf(browser, attributes[..i + 1])
         == if browser.lower(attributes[i].name) == U("src") then Some(attributes[i].value)
            else SourceOf(browser, attributes[..i])
  {
    assert attributes[..i + 1][..i] == attributes[..i];
  }

  // ----- Elements -----

  function ElementRest(browser: Browser, name: Text, attributes: seq<Attribute>): seq<Token> {
    [Raw(U(">"))] + SourceTokens(browser, name, attributes)
  }

  lemma ElementTokens(browser: Browser, limits: Limits, s: Progression, node: Node, raw: bool)
    requires node.Element?
    ensures var name := browser.lower(node.name);
            var opened' := Process(browser, limits, Process(browser, limits, s, Tick), Raw(U("<") + name));
            var written := ProcessAll(browser, limits, opened', AttributesTokens(node.attributes));
            ProcessAll(browser, limits, s, EnterTokens(browser, node, raw))
            == ProcessAll(browser, limits, written, ElementRest(browser, name, node.attributes))
  {
    var name := browser.lower(node.name);
    var first := [Tick] + [Raw(U("<") + name)];
    var middle, last := AttributesTokens(node.attributes), ElementRest(browser, name, node.attributes);
    assert EnterTokens(browser, node, raw) == (first + middle) + last;
    ProcessConcat(browser, limits, s, first + middle, last);
    ProcessConcat(browser, limits, s, first, middle);
    ProcessNext(browser, limits, s, [Tick], Raw(U("<") + name));
    ProcessOne(browser, limits, s, Tick);
  }

  // ----- The stack -----

  /** What a frame still has to do. */
  function FrameTokens(browser: Browser, frame: Frame, raw: bool): seq<Token> {
    if !frame.entered then Tokens(browser, frame.node, raw)
    else ChildTokens(browser, frame.rest, frame.rawText) + CloseTokens(frame.closes, frame.name)
  }

  predicate ParentRaw(stack: seq<Frame>) {
    |stack| > 1 && stack[|stack| - 2].rawText
  }

  /** What the whole stack still has to do, from the top down. */
  function StackTokens(browser: Browser, stack: seq<Frame>): seq<Token> {
    if stack == [] then []
    else FrameTokens(browser, stack[|stack| - 1], ParentRaw(stack)) + StackTokens(browser, stack[..|stack| - 1])
  }

  function OpenFrame(node: Node): Frame {
    Frame(node, false, [], [], false, false)
  }

  function Entered(browser: Browser, node: Node): Frame {
    Frame(node, true, Children(node), NameOf(browser, node), Closes(browser, node), HoldsRawText(browser, node))
  }

  lemma TokensOfEntered(browser: Browser, node: Node, raw: bool, parentRaw: bool)
    ensures Tokens(browser, node, raw)
         == EnterTokens(browser, node, raw) + FrameTokens(browser, Entered(browser, node), parentRaw)
  {
    var enter, close := EnterTokens(browser, node, raw), CloseTokens(Closes(browser, node), NameOf(browser, node));
    var middle := ChildTokens(browser, Children(node), HoldsRawText(browser, node));
    assert Tokens(browser, node, raw) == (enter + middle) + close;
    assert (enter + middle) + close == enter + (middle + close);
  }

  lemma StackAfterTop(browser: Browser, stack: seq<Frame>, frame: Frame)
    requires stack != []
    ensures StackTokens(browser, stack[|stack| - 1 := frame])
         == FrameTokens(browser, frame, ParentRaw(stack)) + StackTokens(browser, stack[..|stack| - 1])
  {
    assert stack[|stack| - 1 := frame][..|stack| - 1] == stack[..|stack| - 1];
  }

  lemma Regroup<T>(whole: seq<T>, enter: seq<T>, frame: seq<T>, below: seq<T>)
    requires whole == enter + frame
    ensures whole + below == enter + (frame + below)
  {
  }

  /** Entering the top node leaves its children and its end. */
  lemma EnterTop(browser: Browser, stack: seq<Frame>, node: Node, raw: bool)
    requires stack != [] && !stack[|stack| - 1].entered
    requires node == stack[|stack| - 1].node && raw == ParentRaw(stack)
    ensures StackTokens(browser, stack)
         == EnterTokens(browser, node, raw) + StackTokens(browser, stack[|stack| - 1 := Entered(browser, node)])
  {
    StackAfterTop(browser, stack, Entered(browser, node));
    TokensOfEntered(browser, node, raw, raw);
    Regroup(Tokens(browser, node, raw), EnterTokens(browser, node, raw),
            FrameTokens(browser, Entered(browser, node), raw), StackTokens(browser, stack[..|stack| - 1]));
  }

  lemma StackPushed(browser: Browser, stack: seq<Frame>, frame: Frame)
    requires stack != []
    ensures StackTokens(browser, stack + [frame])
         == FrameTokens(browser, frame, stack[|stack| - 1].rawText) + StackTokens(browser, stack)
  {
    var pushed := stack + [frame];
    PushedParts(stack, frame, pushed);
    assert ParentRaw(pushed) == stack[|stack| - 1].rawText;
  }

  lemma PushedParts(stack: seq<Frame>, frame: Frame, pushed: seq<Frame>)
    requires stack != [] && pushed == stack + [frame]
    ensures |pushed| == |stack| + 1 && pushed[|pushed| - 1] == frame && pushed[|pushed| - 2] == stack[|stack| - 1]
    ensures pushed[..|pushed| - 1] == stack
  {
  }

  lemma NextChild(browser: Browser, top: Frame, raw: bool)
    requires top.entered && top.rest != []
    ensures FrameTokens(browser, top, raw)
         == Tokens(browser, top.rest[0], top.rawText) + FrameTokens(browser, top.(rest := top.rest[1..]), raw)
  {
    Regroup(ChildTokens(browser, top.rest, top.rawText), Tokens(browser, top.rest[0], top.rawText),
            ChildTokens(browser, top.rest[1..], top.rawText), CloseTokens(top.closes, top.name));
  }

  /** Moving to the next child leaves the same to do. */
  lemma PushChild(browser: Browser, stack: seq<Frame>, top: Frame)
    requires stack != [] && top == stack[|stack| - 1] && top.entered && top.rest != []
    ensures StackTokens(browser, stack)
         == StackTokens(browser, stack[|stack| - 1 := top.(rest := top.rest[1..])] + [OpenFrame(top.rest[0])])
  {
    var after := top.(rest := top.rest[1..]);
    StackAfterTop(browser, stack, after);
    StackPushed(browser, stack[|stack| - 1 := after], OpenFrame(top.rest[0]));
    NextChild(browser, top, ParentRaw(stack));
    Regroup(FrameTokens(browser, top, ParentRaw(stack)), Tokens(browser, top.rest[0], top.rawText),
            FrameTokens(browser, after, ParentRaw(stack)), StackTokens(browser, stack[..|stack| - 1]));
  }

  lemma PopTop(browser: Browser, stack: seq<Frame>)
    requires stack != [] && stack[|stack| - 1].entered && stack[|stack| - 1].rest == []
    ensures var top := stack[|stack| - 1];
            StackTokens(browser, stack)
            == CloseTokens(top.closes, top.name) + StackTokens(browser, stack[..|stack| - 1])
  {
    var top := stack[|stack| - 1];
    assert [] + CloseTokens(top.closes, top.name) == CloseTokens(top.closes, top.name);
  }

  lemma StartTokens(browser: Browser, document: Node)
    ensures StackTokens(browser, [OpenFrame(document)]) == Tokens(browser, document, false)
  {
    assert [OpenFrame(document)][..0] == [];
  }

  /** Only the top of the stack can still be waiting to be entered. */
  ghost predicate BelowEntered(stack: seq<Frame>) {
    forall i | 0 <= i < |stack| - 1 :: stack[i].entered
  }

  /** The top has been popped, or a child is waiting on it. */
  ghost predicate Moved(stack: seq<Frame>, moved: seq<Frame>)
    requires stack != []
  {
    || moved == stack[..|stack| - 1]
    || (&& |moved| == |stack| + 1
        && moved[..|stack| - 1] == stack[..|stack| - 1]
        && moved[|stack| - 1].entered
        && !moved[|stack|].entered)
  }

  /** Every round of the walk uses up one unit. */
  function Potential(limits: Limits, work: nat, stack: seq<Frame>): int {
    2 * (limits.maxWork + 1 - work) + |stack| - if stack != [] && !stack[|stack| - 1].entered then 2 else 0
  }

  lemma BelowStaysEntered(stack: seq<Frame>, moved: seq<Frame>)
    requires stack != [] && BelowEntered(stack) && Moved(stack, moved)
    ensures BelowEntered(moved)
  {
    forall i | 0 <= i < |moved| - 1 ensures moved[i].entered {
      if i < |stack| - 1 { assert moved[i] == moved[..|stack| - 1][i] == stack[i]; }
    }
  }

  /** A round costs one: entering a node is paid for by its work, and a child that is pushed pays in advance. */
  lemma RoundCostsOne(limits: Limits, before: nat, after: nat, stack: seq<Frame>, entered: seq<Frame>, moved: seq<Frame>)
    requires stack != [] && BelowEntered(stack)
    requires |entered| == |stack| && entered[..|stack| - 1] == stack[..|stack| - 1] && entered[|stack| - 1].entered
    requires after >= before + (if stack[|stack| - 1].entered then 0 else 1) && after <= limits.maxWork
    requires Moved(entered, moved)
    ensures 0 <= Potential(limits, after, moved) < Potential(limits, before, stack)
    ensures BelowEntered(moved)
  {
    forall i | 0 <= i < |entered| - 1 ensures entered[i].entered {
      assert entered[i] == entered[..|stack| - 1][i] == stack[i];
    }
    BelowStaysEntered(entered, moved);
    if moved == entered[..|entered| - 1] && moved != [] {
      assert moved[|moved| - 1] == entered[|moved| - 1];
    }
  }

  class BoundedSerializer {
    const browser: Browser
    const limits: Limits
    var chunks: seq<Text>
    var currentChunk: Text
    var scripts: seq<Text>
    var iframes: seq<Text>
    var bytes: nat
    var work: nat
    var domTruncated: bool
    var traversalTruncated: bool
    var scriptTruncated: bool
    var iframeTruncated: bool
    var urlTruncated: bool

    ghost function Out(): Output
      reads this
    {
      Output(Join(chunks) + currentChunk, bytes, domTruncated)
    }

    ghost function FoundSoFar(): Found
      reads this
    {
      Found(scripts, iframes, scriptTruncated, iframeTruncated, urlTruncated)
    }

    ghost function State(): Progression
      reads this
    {
      Progression(Out(), FoundSoFar(), work, traversalTruncated)
    }

    constructor (browser: Browser, limits: Limits)
      ensures this.browser == browser && this.limits == limits && State() == Fresh()
    {
      this.browser, this.limits := browser, limits;
      chunks, currentChunk, scripts, iframes := [], [], [], [];
      bytes, work := 0, 0;
      domTruncated, traversalTruncated := false, false;
      scriptTruncated, iframeTruncated, urlTruncated := false, false, false;
    }

    /** Text goes to the current chunk, which is closed when it is long enough. */
    method AppendChunk(text: Text)
      modifies this`chunks, this`currentChunk
      ensures Join(chunks) + currentChunk == old(Join(chunks) + currentChunk) + text
    {
      ghost var was := Join(chunks);
      ghost var current := currentChunk;
      currentChunk := currentChunk + text;
      assert was + currentChunk == (was + current) + text;
      if |currentChunk| >= CHUNK_UNITS {
        JoinAppend(chunks, currentChunk);
        chunks := chunks + [currentChunk];
        currentChunk := [];
        assert Join(chunks) + currentChunk == Join(chunks);
      }
    }

    /** Encodes one candidate into the scratch buffer, and takes over what was read of it. */
    method AppendCandidate(value: Text, offset: nat) returns (units: nat)
      requires offset <= |value| && bytes <= limits.maxBytes
      modifies this`chunks, this`currentChunk, this`bytes
      ensures var p := EncodeInto(value[offset..], Min(limits.maxBytes - old(bytes), Scratch(limits)));
              units == p.units && Out() == Advanced(old(Out()), value[offset..], p)
    {
      var capacity := Min(limits.maxBytes - bytes, Scratch(limits));
      var candidate := Candidate(value, offset, capacity);
      var progress := EncodeInto(candidate, capacity);
      CandidateEncodes(value, offset, capacity);
      units := progress.units;
      assert candidate[..units] == value[offset..][..units];
      AppendChunk(candidate[..units]);
      bytes := bytes + progress.bytes;
    }

    method AppendRaw(value: Text)
      modifies this`chunks, this`currentChunk, this`bytes, this`domTruncated
      ensures Out() == DomModel.AppendRaw(limits, old(Out()), value)
    {
      if bytes >= limits.maxBytes {
        domTruncated := true;
        return;
      }
      AppendWithRoom(value);
    }

    /** The loop of appendRaw. */
    method AppendWithRoom(value: Text)
      modifies this`chunks, this`currentChunk, this`bytes, this`domTruncated
      ensures Out() == Continue(limits, old(Out()), value)
    {
      var offset := 0;
      assert value[0..] == value;
      while offset < |value| && bytes < limits.maxBytes
        invariant offset <= |value|
        invariant Continue(limits, old(Out()), value) == Continue(limits, Out(), value[offset..])
        decreases |value| - offset
      {
        var units := StepCandidate(value, offset);
        if units == 0 {
          domTruncated := true;
          return;
        }
        offset := offset + units;
      }
      if offset < |value| {
        domTruncated := true;
      }
    }

    method StepCandidate(value: Text, offset: nat) returns (units: nat)
      requires offset < |value| && bytes < limits.maxBytes
      modifies this`chunks, this`currentChunk, this`bytes
      ensures offset + units <= |value| && domTruncated == old(domTruncated)
      ensures Continue(limits, old(Out()), value[offset..]) == Continue(limits, Out(), value[offset + units..])
      ensures units == 0 ==> Continue(limits, Out(), value[offset..]) == Out().(truncated := true)
    {
      ghost var p := EncodeInto(value[offset..], Min(limits.maxBytes - bytes, Scratch(limits)));
      ghost var now := Out();
      RestOfRest(value, offset, p.units);
      units := AppendCandidate(value, offset);
      RawStep(limits, now, value[offset..], p, Out(), value[offset + units..]);
      if units == 0 {
        RawStuck(limits, Out(), value[offset..]);
      }
    }

    method AppendEscaped(value: Text, attribute: bool)
      modifies this`chunks, this`currentChunk, this`bytes, this`domTruncated
      ensures Out() == DomModel.AppendEscaped(limits, old(Out()), value, attribute)
    {
      var offset := 0;
      assert value[0..] == value;
      while offset < |value| && bytes < limits.maxBytes
        invariant offset <= |value|
        invariant DomModel.AppendEscaped(limits, old(Out()), value, attribute)
               == DomModel.AppendEscaped(limits, Out(), value[offset..], attribute)
        decreases |value| - offset
      {
        var part := value[offset..Min(offset + ESCAPE_PART, |value|)];
        EscapedStep(limits, Out(), value, offset, part, attribute);
        AppendRaw(Escape(part, attribute));
        offset := offset + |part|;
      }
      if offset < |value| {
        domTruncated := true;
      }
    }

    method CollectResource(kind: Kind, rawURL: Text)
      modifies this`scripts, this`iframes, this`scriptTruncated, this`iframeTruncated, this`urlTruncated
      ensures FoundSoFar() == DomModel.CollectResource(browser, limits, old(FoundSoFar()), kind, rawURL)
      ensures urlTruncated == (old(urlTruncated) || DomBounds.FateOf(browser, limits, rawURL).Oversized?)
      ensures var fate, before := DomBounds.FateOf(browser, limits, rawURL), URLsFound(old(FoundSoFar()), kind);
              URLsFound(FoundSoFar(), kind)
              == before + if fate.Wanted? && |before| != limits.maxResources then [fate.url] else []
    {
      if !FitsURL(limits, rawURL) {
        MarkResourceURLTruncated(kind);
        urlTruncated := true;
        return;
      }
      var parsed := browser.resolve(rawURL);
      if parsed.None? {
        return;
      }
      var resolved := parsed.value;
      if !FitsURL(limits, resolved) {
        MarkResourceURLTruncated(kind);
        urlTruncated := true;
        return;
      }
      if |if kind.Script? then scripts else iframes| == limits.maxResources {
        MarkResourceURLTruncated(kind);
        return;
      }
      if kind.Script? {
        scripts := scripts + [resolved];
      } else {
        iframes := iframes + [resolved];
      }
    }

    method MarkResourceURLTruncated(kind: Kind)
      modifies this`scriptTruncated, this`iframeTruncated
      ensures scriptTruncated == (old(scriptTruncated) || kind.Script?)
      ensures iframeTruncated == (old(iframeTruncated) || kind.Iframe?)
    {
      if kind.Script? {
        scriptTruncated := true;
      } else {
        iframeTruncated := true;
      }
    }

    // ----- Tokens, as the walk emits them -----

    /** Counts one item of work; beyond the ceiling the walk is over. */
    method CountWork()
      requires !traversalTruncated
      modifies this`work, this`traversalTruncated
      ensures State() == Process(browser, limits, old(State()), Tick)
      ensures work == old(work) + 1 && (traversalTruncated <==> work > limits.maxWork)
    {
      work := work + 1;
      if work > limits.maxWork {
        traversalTruncated := true;
      }
    }

    method Write(text: Text)
      requires !traversalTruncated
      modifies this`chunks, this`currentChunk, this`bytes, this`domTruncated
      ensures State() == Process(browser, limits, old(State()), Raw(text))
    {
      AppendRaw(text);
    }

    method WriteEscaped(value: Text, attribute: bool)
      requires !traversalTruncated
      modifies this`chunks, this`currentChunk, this`bytes, this`domTruncated
      ensures State() == Process(browser, limits, old(State()), Escaped(value, attribute))
    {
      AppendEscaped(value, attribute);
    }

    method WriteThree(a: Text, b: Text, c: Text)
      requires !traversalTruncated
      modifies this`chunks, this`currentChunk, this`bytes, this`domTruncated
      ensures State() == ProcessAll(browser, limits, old(State()), [Raw(a), Raw(b), Raw(c)])
    {
      ProcessThree(browser, limits, State(), Raw(a), Raw(b), Raw(c));
      Write(a);
      Write(b);
      Write(c);
    }

    method AppendAttributeText(a: Attribute)
      requires !traversalTruncated
      modifies this`chunks, this`currentChunk, this`bytes, this`domTruncated
      ensures State() == ProcessAll(browser, limits, old(State()), AttributeTokens(a)[1..])
    {
      var opening := U(" ") + a.name + U("=\"");
      ProcessThree(browser, limits, State(), Raw(opening), Escaped(a.value, true), Raw(U("\"")));
      assert AttributeTokens(a)[1..] == [Raw(opening), Escaped(a.value, true), Raw(U("\""))];
      Write(opening);
      WriteEscaped(a.value, true);
      Write(U("\""));
    }

    method AppendAttribute(a: Attribute)
      requires !traversalTruncated
      modifies this
      ensures State() == ProcessAll(browser, limits, old(State()), AttributeTokens(a))
      ensures work == old(work) + 1 && (traversalTruncated <==> work > limits.maxWork)
    {
      assert AttributeTokens(a) == [Tick] + AttributeTokens(a)[1..];
      ProcessConcat(browser, limits, State(), [Tick], AttributeTokens(a)[1..]);
      ProcessOne(browser, limits, State(), Tick);
      CountWork();
      if traversalTruncated {
        HaltedStays(browser, limits, State(), AttributeTokens(a)[1..]);
        return;
      }
      AppendAttributeText(a);
    }

    /** All attributes of an element, or those up to the ceiling; the last src is remembered. */
    method AppendAttributes(attributes: seq<Attribute>) returns (source: Option<Text>)
      requires !traversalTruncated
      modifies this
      ensures State() == ProcessAll(browser, limits, old(State()), AttributesTokens(attributes))
      ensures work >= old(work) && (traversalTruncated ==> work > limits.maxWork)
      ensures !traversalTruncated ==> source == SourceOf(browser, attributes)
      ensures !traversalTruncated && old(work) <= limits.maxWork ==> work <= limits.maxWork
    {
      source := None;
      for i := 0 to |attributes|
        invariant !traversalTruncated
        invariant State() == ProcessAll(browser, limits, old(State()), AttributesTokens(attributes[..i]))
        invariant work >= old(work) && source == SourceOf(browser, attributes[..i])
        invariant old(work) <= limits.maxWork ==> work <= limits.maxWork
      {
        AttributesNext(browser, limits, old(State()), attributes, i);
        AppendAttribute(attributes[i]);
        if traversalTruncated {
          AttributesAfterHalt(browser, limits, old(State()), attributes, i + 1, |attributes|);
          assert attributes[..|attributes|] == attributes;
          return;
        }
        SourceNext(browser, attributes, i);
        if browser.lower(attributes[i].name) == U("src") {
          source := Some(attributes[i].value);
        }
      }
      assert attributes[..|attributes|] == attributes;
    }

    method CloseStartTag(name: Text, attributes: seq<Attribute>, source: Option<Text>)
      requires !traversalTruncated && source == SourceOf(browser, attributes)
      modifies this
      ensures State() == ProcessAll(browser, limits, old(State()), ElementRest(browser, name, attributes))
      ensures work == old(work) && !traversalTruncated
    {
      ProcessOne(browser, limits, State(), Raw(U(">")));
      Write(U(">"));
      if source.Some? && KindOf(name).Some? {
        ProcessNext(browser, limits, old(State()), [Raw(U(">"))], Source(KindOf(name).value, source.value));
        CollectResource(KindOf(name).value, source.value);
      }
    }

    method EnterElement(node: Node, raw: bool)
      requires node.Element? && !traversalTruncated && work <= limits.maxWork
      modifies this
      ensures State() == ProcessAll(browser, limits, old(State()), EnterTokens(browser, node, raw))
      ensures work > old(work) && (traversalTruncated <==> work > limits.maxWork)
    {
      var name := browser.lower(node.name);
      ElementTokens(browser, limits, State(), node, raw);
      CountWork();
      if traversalTruncated {
        ghost var s := State();
        assert Process(browser, limits, s, Raw(U("<") + name)) == s;
        HaltedStays(browser, limits, s, AttributesTokens(node.attributes));
        HaltedStays(browser, limits, s, ElementRest(browser, name, node.attributes));
        return;
      }
      Write(U("<") + name);
      var source := AppendAttributes(node.attributes);
      if traversalTruncated {
        HaltedStays(browser, limits, State(), ElementRest(browser, name, node.attributes));
        return;
      }
      CloseStartTag(name, node.attributes, source);
    }

    /** The part of a node other than an element that comes after counting it. */
    method WriteLeaf(node: Node, raw: bool)
      requires !node.Element? && !traversalTruncated
      modifies this
      ensures State() == ProcessAll(browser, limits, old(State()), EnterTokens(browser, node, raw)[1..])
      ensures work == old(work) && !traversalTruncated
    {
      match node {
      case TextNode(data) =>
        ProcessOne(browser, limits, State(), if raw then Raw(data) else Escaped(data, false));
        if raw {
          Write(data);
        } else {
          WriteEscaped(data, false);
        }
      case CDataSection(data) =>
        WriteThree(U("<![CDATA["), data, U("]]>"));
      case Instruction(target, data) =>
        WriteThree(U("<?") + target + U(" "), data, U("?>"));
      case Comment(data) =>
        WriteThree(U("<!--"), data, U("-->"));
      case Doctype(name) =>
        WriteThree(U("<!DOCTYPE "), name, U(">"));
      case Other(_) =>
      }
    }

    method EnterNode(node: Node, raw: bool)
      requires !traversalTruncated && work <= limits.maxWork
      modifies this
      ensures State() == ProcessAll(browser, limits, old(State()), EnterTokens(browser, node, raw))
      ensures work > old(work) && (traversalTruncated <==> work > limits.maxWork)
    {
      if node.Element? {
        EnterElement(node, raw);
        return;
      }
      ghost var rest := EnterTokens(browser, node, raw)[1..];
      assert EnterTokens(browser, node, raw) == [Tick] + rest;
      ProcessConcat(browser, limits, State(), [Tick], rest);
      ProcessOne(browser, limits, State(), Tick);
      CountWork();
      if traversalTruncated {
        HaltedStays(browser, limits, State(), rest);
        return;
      }
      WriteLeaf(node, raw);
    }

    // ----- The walk -----

    /** Enters the top of the stack if that is still to be done. */
    method Visit(stack: seq<Frame>) returns (entered: seq<Frame>)
      requires stack != [] && !traversalTruncated && work <= limits.maxWork
      modifies this
      ensures ProcessAll(browser, limits, old(State()), StackTokens(browser, stack))
           == ProcessAll(browser, limits, State(), StackTokens(browser, entered))
      ensures |entered| == |stack| && entered[..|stack| - 1] == stack[..|stack| - 1]
      ensures entered[|stack| - 1].entered
      ensures work >= old(work) + (if stack[|stack| - 1].entered then 0 else 1)
      ensures traversalTruncated <==> work > limits.maxWork
    {
      entered := stack;
      var top := stack[|stack| - 1];
      if !top.entered {
        EnterTop(browser, stack, top.node, ParentRaw(stack));
        entered := stack[|stack| - 1 := Entered(browser, top.node)];
        ProcessConcat(browser, limits, State(), EnterTokens(browser, top.node, ParentRaw(stack)),
                      StackTokens(browser, entered));
        EnterNode(top.node, ParentRaw(stack));
      }
    }

    /** Pushes the next child of the top, or closes and pops it. */
    method Move(stack: seq<Frame>) returns (moved: seq<Frame>)
      requires stack != [] && stack[|stack| - 1].entered && !traversalTruncated
      modifies this
      ensures ProcessAll(browser, limits, old(State()), StackTokens(browser, stack))
           == ProcessAll(browser, limits, State(), StackTokens(browser, moved))
      ensures work == old(work) && !traversalTruncated
      ensures Moved(stack, moved)
    {
      var last := |stack| - 1;
      var top := stack[last];
      if top.rest != [] {
        PushChild(browser, stack, top);
        moved := stack[last := top.(rest := top.rest[1..])] + [OpenFrame(top.rest[0])];
        return;
      }
      PopTop(browser, stack);
      moved := stack[..last];
      ProcessConcat(browser, limits, State(), CloseTokens(top.closes, top.name), StackTokens(browser, moved));
      if top.closes {
        ProcessOne(browser, limits, State(), Raw(U("</") + top.name + U(">")));
        Write(U("</") + top.name + U(">"));
      }
    }

    /** Walks the document. Rounds counts the passes of the loop, and stays within twice the work. */
    method Walk(document: Node) returns (ghost rounds: nat)
      requires State() == Fresh()
      modifies this
      ensures State() == ProcessAll(browser, limits, Fresh(), Tokens(browser, document, false))
      ensures rounds <= 2 * limits.maxWork + 2
    {
      var stack := [OpenFrame(document)];
      rounds := 0;
      StartTokens(browser, document);
      while |stack| > 0
        invariant !traversalTruncated && work <= limits.maxWork
        invariant ProcessAll(browser, limits, Fresh(), Tokens(browser, document, false))
               == ProcessAll(browser, limits, State(), StackTokens(browser, stack))
        invariant BelowEntered(stack)
        invariant rounds + Potential(limits, work, stack) <= 2 * limits.maxWork + 1
        decreases Potential(limits, work, stack)
      {
        rounds := rounds + 1;
        ghost var before := work;
        var entered := Visit(stack);
        if traversalTruncated {
          HaltedStays(browser, limits, State(), StackTokens(browser, entered));
          return;
        }
        var moved := Move(entered);
        RoundCostsOne(limits, before, work, stack, entered, moved);
        stack := moved;
      }
    }

    /** The snapshot of a document, within the round bound; unless flagged, its text is the plain serialization. */
    method Serialize(document: Node) returns (snapshot: Snapshot, ghost rounds: nat)
      requires State() == Fresh()
      modifies this
      ensures snapshot == DomBounds.Result(browser, limits, document)
      ensures !snapshot.domTruncated ==> snapshot.dom == DomLaws.Serialize(browser, document, false)
      ensures Utf8Length(snapshot.dom) <= limits.maxBytes
      ensures snapshot.traversalTruncated <==> DomLaws.WorkOf(document) > limits.maxWork
      ensures snapshot.domTruncated <==>
        DomLaws.WorkOf(document) > limits.maxWork || DomBounds.CostOf(browser, document) > limits.maxBytes
      ensures rounds <= 2 * limits.maxWork + 2
    {
      DomBounds.TextIsExact(browser, limits, document);
      DomBounds.TraversalIsExact(browser, limits, document);
      DomBounds.TruncationIsExact(browser, limits, document);
      rounds := Walk(document);
      if traversalTruncated {
        domTruncated := true;
      }
      var dom := JoinAll(chunks);
      snapshot := Snapshot(dom + currentChunk, scripts, iframes, domTruncated, scriptTruncated, iframeTruncated,
                           traversalTruncated, urlTruncated);
    }
  }

  method JoinAll(chunks: seq<Text>) returns (text: Text)
    ensures text == Join(chunks)
  {
    text := [];
    for i := 0 to |chunks|
      invariant text == Join(chunks[..i])
    {
      assert chunks[..i + 1][..i] == chunks[..i];
      text := text + chunks[i];
    }
    assert chunks[..|chunks|] == chunks;
  }
}
