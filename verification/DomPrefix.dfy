/** Exactly when a truncated text is still a prefix of the whole, and a document for every budget where it is not. */
module DomPrefix {
  import opened Utf16
  import opened DomModel
  import opened DomPieces

  // ----- The first cut -----

  /** Piece c is the first that does not fit any more. */
  predicate CutAt(limits: Limits, ps: seq<Text>, c: nat) {
    c < |ps| && Cost(ps[..c]) <= limits.maxBytes < Cost(ps[..c + 1])
  }

  /** The bytes left after what is taken of the piece that is cut. */
  function RoomAfter(limits: Limits, ps: seq<Text>, c: nat): nat
    requires CutAt(limits, ps, c)
  {
    var room := limits.maxBytes - Cost(ps[..c]);
    room - EncodeInto(ps[c], room).bytes
  }

  /** The code units that are taken of the piece that is cut. */
  function CutUnits(limits: Limits, ps: seq<Text>, c: nat): nat
    requires CutAt(limits, ps, c)
  {
    EncodeInto(ps[c], limits.maxBytes - Cost(ps[..c])).units
  }

  /** The code unit at which it is cut. */
  function CutUnit(limits: Limits, ps: seq<Text>, c: nat): Unit
    requires CutAt(limits, ps, c)
  {
    CutIsInside(limits, ps, c);
    ps[c][CutUnits(limits, ps, c)]
  }

  lemma CutIsInside(limits: Limits, ps: seq<Text>, c: nat)
    requires CutAt(limits, ps, c)
    ensures CutUnits(limits, ps, c) < |ps[c]|
  {
    assert ps[..c + 1][..c] == ps[..c];
    AllEncoded(ps[c], limits.maxBytes - Cost(ps[..c]));
  }

  /** The piece is empty, or begins with a scalar value of more bytes than are left. */
  predicate NothingFits(p: Text, room: nat) {
    p == [] || FirstBytes(p) > room
  }

  lemma FeedNext(limits: Limits, ps: seq<Text>, n: nat)
    requires n < |ps|
    ensures Feed(limits, Empty(), ps[..n + 1]) == AppendRaw(limits, Feed(limits, Empty(), ps[..n]), ps[n])
    ensures Whole(ps[..n + 1]) == Whole(ps[..n]) + ps[n]
    ensures Cost(ps[..n + 1]) == Cost(ps[..n]) + Utf8Length(ps[n])
    ensures Feed(limits, Empty(), ps[..n]).bytes <= limits.maxBytes
  {
    assert ps[..n + 1][..n] == ps[..n];
    FeedWithinBudget(limits, ps[..n]);
  }

  /** Encoding stops where the next scalar value does not fit. */
  lemma {:induction false} EncodingStops(s: Text, capacity: nat, p: Progress)
    requires p == EncodeInto(s, capacity) && p.units < |s|
    ensures FirstBytes(s[p.units..]) > capacity - p.bytes
    decreases |s|
  {
    if FirstBytes(s) > capacity {
      EncodeNothing(s, capacity);
      assert s[0..] == s;
    } else {
      var n, b := FirstUnits(s), FirstBytes(s);
      var rest := EncodeInto(s[n..], capacity - b);
      EncodeUnfold(s, capacity);
      RestOfRest(s, n, rest.units);
      EncodingStops(s[n..], capacity - b, rest);
    }
  }

  /** Pieces within the budget are taken whole. */
  lemma {:induction false} AffordableIsWhole(limits: Limits, ps: seq<Text>)
    requires Cost(ps) <= limits.maxBytes
    ensures Feed(limits, Empty(), ps).text == Whole(ps) && Feed(limits, Empty(), ps).bytes == Cost(ps)
  {
    if ps != [] {
      var init, last := ps[..|ps| - 1], ps[|ps| - 1];
      AffordableIsWhole(limits, init);
      var room := limits.maxBytes - Cost(init);
      PieceTaken(limits, Feed(limits, Empty(), init), last);
      EncodedBytes(last, room, EncodeInto(last, room));
      AllEncoded(last, room);
      assert last[..|last|] == last;
    }
  }

  /** What is taken of the piece that is cut, and what would have come next. */
  lemma CutTakes(limits: Limits, ps: seq<Text>, c: nat) returns (k: nat)
    requires CutAt(limits, ps, c)
    ensures k == CutUnits(limits, ps, c) < |ps[c]|
    ensures Feed(limits, Empty(), ps[..c + 1]).text == Whole(ps[..c]) + ps[c][..k]
    ensures Feed(limits, Empty(), ps[..c + 1]).bytes == limits.maxBytes - RoomAfter(limits, ps, c)
    ensures FirstBytes(ps[c][k..]) > RoomAfter(limits, ps, c)
  {
    AffordableIsWhole(limits, ps[..c]);
    FeedNext(limits, ps, c);
    var room := limits.maxBytes - Cost(ps[..c]);
    var p := EncodeInto(ps[c], room);
    k := p.units;
    PieceTaken(limits, Feed(limits, Empty(), ps[..c]), ps[c]);
    AllEncoded(ps[c], room);
    EncodingStops(ps[c], room, p);
  }

  // ----- Nothing fits any more -----

  lemma {:induction false} NothingMore(limits: Limits, ps: seq<Text>, c: nat, n: nat)
    requires CutAt(limits, ps, c) && c < n <= |ps|
    requires forall j | c < j < n :: NothingFits(ps[j], RoomAfter(limits, ps, c))
    ensures Feed(limits, Empty(), ps[..n]).text == Feed(limits, Empty(), ps[..c + 1]).text
    ensures Feed(limits, Empty(), ps[..n]).bytes == limits.maxBytes - RoomAfter(limits, ps, c)
    decreases n
  {
    if n == c + 1 {
      var k := CutTakes(limits, ps, c);
    } else {
      NothingMore(limits, ps, c, n - 1);
      FeedNext(limits, ps, n - 1);
      var out := Feed(limits, Empty(), ps[..n - 1]);
      assert NothingFits(ps[n - 1], RoomAfter(limits, ps, c));
      NothingTaken(limits, out, ps[n - 1]);
    }
  }

  lemma NothingTaken(limits: Limits, out: Output, p: Text)
    requires out.bytes <= limits.maxBytes && NothingFits(p, limits.maxBytes - out.bytes)
    ensures AppendRaw(limits, out, p).text == out.text && AppendRaw(limits, out, p).bytes == out.bytes
  {
    PieceTaken(limits, out, p);
    EncodeNothing(p, limits.maxBytes - out.bytes);
    assert out.text + p[..0] == out.text;
  }

  lemma SomethingTaken(limits: Limits, out: Output, p: Text)
    requires out.bytes <= limits.maxBytes && !NothingFits(p, limits.maxBytes - out.bytes)
    ensures var text := AppendRaw(limits, out, p).text;
            out.text <= text && |text| > |out.text| && text[|out.text|] == p[0]
  {
    PieceTaken(limits, out, p);
    EncodeUnfold(p, limits.maxBytes - out.bytes);
  }

  lemma PrefixTransitive(a: Text, b: Text, c: Text)
    requires a <= b && b <= c
    ensures a <= c
  {
  }

  lemma PieceOnlyAdds(limits: Limits, ps: seq<Text>, n: nat)
    requires n < |ps|
    ensures Feed(limits, Empty(), ps[..n]).text <= Feed(limits, Empty(), ps[..n + 1]).text
  {
    FeedNext(limits, ps, n);
    PieceTaken(limits, Feed(limits, Empty(), ps[..n]), ps[n]);
  }

  lemma {:induction false} FeedOnlyGrows(limits: Limits, ps: seq<Text>, m: nat, n: nat)
    requires m <= n <= |ps|
    ensures Feed(limits, Empty(), ps[..m]).text <= Feed(limits, Empty(), ps[..n]).text
    decreases n - m
  {
    if m < n {
      PieceOnlyAdds(limits, ps, m);
      FeedOnlyGrows(limits, ps, m + 1, n);
      PrefixTransitive(Feed(limits, Empty(), ps[..m]).text, Feed(limits, Empty(), ps[..m + 1]).text,
                       Feed(limits, Empty(), ps[..n]).text);
    }
  }

  lemma {:induction false} FeedIsShorter(limits: Limits, ps: seq<Text>)
    ensures |Feed(limits, Empty(), ps).text| <= |Whole(ps)|
  {
    if ps != [] {
      var out := Feed(limits, Empty(), ps[..|ps| - 1]);
      FeedIsShorter(limits, ps[..|ps| - 1]);
      FeedWithinBudget(limits, ps[..|ps| - 1]);
      PieceTaken(limits, out, ps[|ps| - 1]);
    }
  }

  // ----- Something still fits -----

  /** Piece f is the first of which anything is taken after the cut. */
  ghost predicate FirstFit(limits: Limits, ps: seq<Text>, c: nat, f: nat) {
    && CutAt(limits, ps, c) && c < f < |ps| && !NothingFits(ps[f], RoomAfter(limits, ps, c))
    && forall i | c < i < f :: NothingFits(ps[i], RoomAfter(limits, ps, c))
  }

  lemma {:induction false} FirstThatFits(limits: Limits, ps: seq<Text>, c: nat, j: nat) returns (f: nat)
    requires CutAt(limits, ps, c) && c < j < |ps| && !NothingFits(ps[j], RoomAfter(limits, ps, c))
    ensures FirstFit(limits, ps, c, f)
  {
    f := c + 1;
    while NothingFits(ps[f], RoomAfter(limits, ps, c))
      invariant c < f <= j
      invariant forall i | c < i < f :: NothingFits(ps[i], RoomAfter(limits, ps, c))
      decreases j - f
    {
      f := f + 1;
    }
  }

  lemma WholeHasUnit(ps: seq<Text>, c: nat, k: nat)
    requires c < |ps| && k < |ps[c]|
    ensures |Whole(ps[..c])| + k < |Whole(ps)| && Whole(ps)[|Whole(ps[..c])| + k] == ps[c][k]
    ensures Whole(ps[..c]) + ps[c][..k] <= Whole(ps)
  {
    var head, tail := ps[..c + 1], ps[c + 1..];
    assert head[..c] == ps[..c];
    WholeConcat(ps, head, tail);
    assert Whole(head) == Whole(ps[..c]) + ps[c];
    assert Whole(ps[..c]) + ps[c][..k] == Whole(ps)[..|Whole(ps[..c])| + k];
  }

  lemma FitIsTaken(limits: Limits, ps: seq<Text>, c: nat, f: nat, cut: Text)
    requires FirstFit(limits, ps, c, f)
    requires cut == Feed(limits, Empty(), ps[..c + 1]).text
    ensures var text := Feed(limits, Empty(), ps[..f + 1]).text; |text| > |cut| && text[|cut|] == ps[f][0]
  {
    NothingMore(limits, ps, c, f);
    FeedNext(limits, ps, f);
    SomethingTaken(limits, Feed(limits, Empty(), ps[..f]), ps[f]);
  }

  /** The unit that follows the cut in the text comes from the piece that still fits. */
  lemma FitFollowsCut(limits: Limits, ps: seq<Text>, c: nat, f: nat, cut: Text)
    requires FirstFit(limits, ps, c, f)
    requires cut == Feed(limits, Empty(), ps[..c + 1]).text
    ensures var text := Feed(limits, Empty(), ps).text; |text| > |cut| && text[|cut|] == ps[f][0]
  {
    var text := Feed(limits, Empty(), ps[..f + 1]).text;
    assert |text| > |cut| && text[|cut|] == ps[f][0] by { FitIsTaken(limits, ps, c, f, cut); }
    assert text <= Feed(limits, Empty(), ps).text by { GrowsToEnd(limits, ps, f + 1); }
    PrefixKeepsUnit(text, Feed(limits, Empty(), ps).text, |cut|);
  }

  lemma GrowsToEnd(limits: Limits, ps: seq<Text>, n: nat)
    requires n <= |ps|
    ensures Feed(limits, Empty(), ps[..n]).text <= Feed(limits, Empty(), ps).text
  {
    FeedOnlyGrows(limits, ps, n, |ps|);
    assert ps[..|ps|] == ps;
  }

  lemma PrefixKeepsUnit(s: Text, t: Text, at: nat)
    requires s <= t && at < |s|
    ensures at < |t| && t[at] == s[at]
  {
  }

  lemma PrefixAgrees(text: Text, whole: Text, at: nat)
    requires at < |text| && at < |whole| && text[at] != whole[at]
    ensures !(text <= whole)
  {
  }

  /** Behind a cut, a piece that still fits spoils the prefix if it begins with another code unit than the one cut off. */
  lemma FittingSpoils(limits: Limits, ps: seq<Text>, c: nat, f: nat)
    requires FirstFit(limits, ps, c, f) && ps[f][0] != CutUnit(limits, ps, c)
    ensures !(Feed(limits, Empty(), ps).text <= Whole(ps))
  {
    var k := CutTakes(limits, ps, c);
    FitFollowsCut(limits, ps, c, f, Whole(ps[..c]) + ps[c][..k]);
    WholeHasUnit(ps, c, k);
    PrefixAgrees(Feed(limits, Empty(), ps).text, Whole(ps), |Whole(ps[..c])| + k);
  }

  /** The cost of a scalar value can be read off its first code unit, unless a pair is broken. */
  lemma CheaperBeginsDifferently(s: Text, t: Text)
    requires s != [] && t != [] && FirstBytes(t) < FirstBytes(s)
    ensures s[0] == t[0] ==> IsPair(s) && FirstBytes(s) == 4 && BeginsUnpaired(t) && FirstBytes(t) == 3 && FirstUnits(t) == 1
  {
  }

  /** A high surrogate that is not followed by a low one. */
  predicate BeginsUnpaired(p: Text) {
    p != [] && 0xD800 <= p[0] < 0xDC00 && !IsPair(p)
  }

  /** One unit fills the buffer. */
  lemma LastUnitTaken(limits: Limits, out: Output, p: Text)
    requires out.bytes <= limits.maxBytes && p != [] && FirstUnits(p) == 1
    requires FirstBytes(p) == limits.maxBytes - out.bytes
    ensures AppendRaw(limits, out, p).text == out.text + [p[0]] && AppendRaw(limits, out, p).bytes == limits.maxBytes
  {
    PieceTaken(limits, out, p);
    EncodeUnfold(p, limits.maxBytes - out.bytes);
    assert EncodeInto(p[1..], 0) == Progress(0, 0);
    assert p[..1] == [p[0]];
  }

  lemma FullStays(limits: Limits, ps: seq<Text>, n: nat)
    requires n <= |ps| && Feed(limits, Empty(), ps[..n]).bytes == limits.maxBytes
    ensures Feed(limits, Empty(), ps).text == Feed(limits, Empty(), ps[..n]).text
  {
    if n < |ps| {
      FeedConcat(limits, Empty(), ps, ps[..n], ps[n..]);
      FeedFull(limits, Feed(limits, Empty(), ps[..n]), ps[n..]);
    } else {
      assert ps[..n] == ps;
    }
  }

  /** The piece that goes on can only begin with a lone surrogate, where a pair was cut off. */
  lemma OnlyHalvesGoOn(limits: Limits, ps: seq<Text>, c: nat, f: nat)
    requires FirstFit(limits, ps, c, f) && ps[f][0] == CutUnit(limits, ps, c)
    ensures BeginsUnpaired(ps[f]) && RoomAfter(limits, ps, c) == 3
  {
    var k := CutTakes(limits, ps, c);
    CheaperBeginsDifferently(ps[c][k..], ps[f]);
  }

  /** A pair that is cut off and then begun by a lone surrogate: half of it is written, and fills the buffer. */
  lemma HalfIsWritten(limits: Limits, ps: seq<Text>, c: nat, f: nat)
    requires FirstFit(limits, ps, c, f) && ps[f][0] == CutUnit(limits, ps, c)
    ensures Feed(limits, Empty(), ps).text == Feed(limits, Empty(), ps[..c + 1]).text + [CutUnit(limits, ps, c)]
  {
    OnlyHalvesGoOn(limits, ps, c, f);
    NothingMore(limits, ps, c, f);
    FeedNext(limits, ps, f);
    LastUnitTaken(limits, Feed(limits, Empty(), ps[..f]), ps[f]);
    FullStays(limits, ps, f + 1);
  }

  lemma HalfIsPrefix(limits: Limits, ps: seq<Text>, c: nat, f: nat)
    requires FirstFit(limits, ps, c, f) && ps[f][0] == CutUnit(limits, ps, c)
    ensures Feed(limits, Empty(), ps).text <= Whole(ps)
  {
    var k := CutTakes(limits, ps, c);
    HalfIsWritten(limits, ps, c, f);
    WholeHasUnit(ps, c, k);
    OneMore(Whole(ps[..c]) + ps[c][..k], Whole(ps), CutUnit(limits, ps, c));
  }

  lemma OneMore(s: Text, whole: Text, u: Unit)
    requires s <= whole && |s| < |whole| && whole[|s|] == u
    ensures s + [u] <= whole
  {
  }

  lemma NothingFitsIsPrefix(limits: Limits, ps: seq<Text>, c: nat)
    requires CutAt(limits, ps, c) && forall j | c < j < |ps| :: NothingFits(ps[j], RoomAfter(limits, ps, c))
    ensures Feed(limits, Empty(), ps).text <= Whole(ps)
  {
    var k := CutTakes(limits, ps, c);
    NothingMore(limits, ps, c, |ps|);
    assert ps[..|ps|] == ps;
    WholeHasUnit(ps, c, k);
  }

  /** Without a cut everything is affordable. */
  lemma {:induction false} UncutIsAffordable(limits: Limits, ps: seq<Text>, n: nat)
    requires n <= |ps| && forall c: nat :: !CutAt(limits, ps, c)
    ensures Cost(ps[..n]) <= limits.maxBytes
    decreases n
  {
    if n > 0 {
      UncutIsAffordable(limits, ps, n - 1);
      assert !CutAt(limits, ps, n - 1);
    }
  }

  lemma {:induction false} CostOnlyGrows(ps: seq<Text>, m: nat, n: nat)
    requires m <= n <= |ps|
    ensures Cost(ps[..m]) <= Cost(ps[..n])
    decreases n - m
  {
    if m < n {
      assert ps[..m + 1][..m] == ps[..m];
      CostOnlyGrows(ps, m + 1, n);
    }
  }

  /** Behind the cut, if there is one, the first piece that still fits begins with the code unit that was cut off. */
  ghost predicate GoesOn(limits: Limits, ps: seq<Text>) {
    forall c: nat, f: nat | FirstFit(limits, ps, c, f) :: ps[f][0] == CutUnit(limits, ps, c)
  }

  /** Behind the cut, if there is one, nothing fits any more. */
  ghost predicate NothingFollows(limits: Limits, ps: seq<Text>) {
    forall c: nat, j: nat | CutAt(limits, ps, c) && c < j < |ps| :: NothingFits(ps[j], RoomAfter(limits, ps, c))
  }

  lemma CutIsUnique(limits: Limits, ps: seq<Text>, c: nat, d: nat)
    requires CutAt(limits, ps, c) && c < d
    ensures !CutAt(limits, ps, d)
  {
    if d <= |ps| { CostOnlyGrows(ps, c + 1, d); }
  }

  lemma FirstFitIsUnique(limits: Limits, ps: seq<Text>, c: nat, f: nat, d: nat, g: nat)
    requires FirstFit(limits, ps, c, f) && FirstFit(limits, ps, d, g)
    ensures c == d && f == g
  {
    if c < d { CutIsUnique(limits, ps, c, d); }
    if d < c { CutIsUnique(limits, ps, d, c); }
  }

  lemma NoFirstFit(limits: Limits, ps: seq<Text>)
    requires forall c: nat, f: nat :: !FirstFit(limits, ps, c, f)
    ensures Feed(limits, Empty(), ps).text <= Whole(ps)
  {
    if c: nat :| CutAt(limits, ps, c) {
      forall j | c < j < |ps| ensures NothingFits(ps[j], RoomAfter(limits, ps, c)) {
        if !NothingFits(ps[j], RoomAfter(limits, ps, c)) {
          var f := FirstThatFits(limits, ps, c, j);
          assert false;
        }
      }
      NothingFitsIsPrefix(limits, ps, c);
    } else {
      UncutIsAffordable(limits, ps, |ps|);
      assert ps[..|ps|] == ps;
      AffordableIsWhole(limits, ps);
    }
  }

  /**
   * Whatever the pieces: a prefix is left exactly when, behind the first cut, the first piece that still fits begins with
   * the code unit that was cut off, or there is none.
   */
  lemma PiecesStayPrefix(limits: Limits, ps: seq<Text>)
    ensures Feed(limits, Empty(), ps).text <= Whole(ps) <==> GoesOn(limits, ps)
  {
    if c: nat, f: nat :| FirstFit(limits, ps, c, f) {
      FirstFitDecides(limits, ps, c, f);
      if ps[f][0] == CutUnit(limits, ps, c) {
        HalfIsPrefix(limits, ps, c, f);
      } else {
        FittingSpoils(limits, ps, c, f);
      }
    } else {
      NoFirstFit(limits, ps);
    }
  }

  lemma FirstFitDecides(limits: Limits, ps: seq<Text>, c: nat, f: nat)
    requires FirstFit(limits, ps, c, f)
    ensures GoesOn(limits, ps) <==> ps[f][0] == CutUnit(limits, ps, c)
  {
    forall d: nat, g: nat | FirstFit(limits, ps, d, g) ensures d == c && g == f {
      FirstFitIsUnique(limits, ps, c, f, d, g);
    }
  }

  /** So where no piece begins with a lone surrogate, nothing may fit any more. */
  lemma PairedGoOnIff(limits: Limits, ps: seq<Text>)
    requires forall i | 0 <= i < |ps| :: !BeginsUnpaired(ps[i])
    ensures GoesOn(limits, ps) <==> NothingFollows(limits, ps)
  {
    if GoesOn(limits, ps) {
      forall c: nat, j: nat | CutAt(limits, ps, c) && c < j < |ps| ensures NothingFits(ps[j], RoomAfter(limits, ps, c)) {
        if !NothingFits(ps[j], RoomAfter(limits, ps, c)) {
          var f := FirstThatFits(limits, ps, c, j);
          OnlyHalvesGoOn(limits, ps, c, f);
          assert false;
        }
      }
    }
  }
}
