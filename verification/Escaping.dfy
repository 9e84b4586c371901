/** What escaping does to a text: it can be undone, and leaves no markup behind. */
module Escaping {
  import opened Utf16
  import opened DomModel
  import opened DomPieces

  // ----- The entities -----

  const AMPERSAND: Text := [0x26, 0x61, 0x6D, 0x70, 0x3B]
  const LESS: Text := [0x26, 0x6C, 0x74, 0x3B]
  const GREATER: Text := [0x26, 0x67, 0x74, 0x3B]
  const QUOTE: Text := [0x26, 0x71, 0x75, 0x6F, 0x74, 0x3B]

  /** Replaces the four entities by the characters that HTML defines for them, left to right, and copies the rest. */
  function Unescape(s: Text): Text
    decreases |s|
  {
    if s == [] then []
    else if AMPERSAND <= s then [0x26] + Unescape(s[|AMPERSAND|..])
    else if LESS <= s then [0x3C] + Unescape(s[|LESS|..])
    else if GREATER <= s then [0x3E] + Unescape(s[|GREATER|..])
    else if QUOTE <= s then [0x22] + Unescape(s[|QUOTE|..])
    else [s[0]] + Unescape(s[1..])
  }

  predicate IsEntity(s: Text) {
    s == AMPERSAND || s == LESS || s == GREATER || s == QUOTE
  }

  // ----- Escaping, from the left -----

  /** An escaped text begins with the escape of its first unit. */
  lemma EscapeBegins(s: Text, attribute: bool)
    requires s != []
    ensures Escape(s, attribute) == EscapeUnit(s[0], attribute) + Escape(s[1..], attribute)
  {
    assert [s[0]][..0] == [];
    EscapeConcat(s, [s[0]], s[1..], attribute);
    assert Escape([s[0]], attribute) == Escape([], attribute) + EscapeUnit(s[0], attribute);
  }

  /** A unit stays, or becomes the entity of its character. */
  lemma UnitMeans(u: Unit, attribute: bool)
    ensures EscapeUnit(u, attribute) ==
            (if u == 0x26 then AMPERSAND else if u == 0x3C then LESS else if u == 0x3E then GREATER
             else if u == 0x22 && attribute then QUOTE else [u])
  {
    assert U("&amp;") == AMPERSAND && U("&lt;") == LESS && U("&gt;") == GREATER && U("&quot;") == QUOTE;
  }

  lemma EntityFirst(entity: Text, rest: Text)
    requires IsEntity(entity)
    ensures Unescape(entity + rest)
         == [if entity == AMPERSAND then 0x26 else if entity == LESS then 0x3C else if entity == GREATER then 0x3E else 0x22]
            + Unescape(rest)
  {
    var s := entity + rest;
    assert s[|entity|..] == rest;
    assert s[0] == entity[0] && s[1] == entity[1];
    assert AMPERSAND <= s ==> s[1] == AMPERSAND[1];
    assert LESS <= s ==> s[1] == LESS[1];
    assert GREATER <= s ==> s[1] == GREATER[1];
  }

  lemma PlainFirst(u: Unit, rest: Text)
    requires u != 0x26
    ensures Unescape([u] + rest) == [u] + Unescape(rest)
  {
    var s := [u] + rest;
    assert s[1..] == rest && s[0] == u;
    assert AMPERSAND[0] == 0x26 && LESS[0] == 0x26 && GREATER[0] == 0x26 && QUOTE[0] == 0x26;
    assert !(AMPERSAND <= s) && !(LESS <= s) && !(GREATER <= s) && !(QUOTE <= s);
  }

  /** Escaping loses nothing: decoding the entities gives the text back. */
  lemma {:induction false} EscapeRoundTrip(s: Text, attribute: bool)
    ensures Unescape(Escape(s, attribute)) == s
    decreases |s|
  {
    if s != [] {
      var rest := Escape(s[1..], attribute);
      EscapeBegins(s, attribute);
      UnitMeans(s[0], attribute);
      EscapeRoundTrip(s[1..], attribute);
      if IsEntity(EscapeUnit(s[0], attribute)) {
        EntityFirst(EscapeUnit(s[0], attribute), rest);
      } else {
        PlainFirst(s[0], rest);
      }
      assert s == [s[0]] + s[1..];
    }
  }

  // ----- No markup is left -----

  /** Neither angle brackets nor, in attributes, quotation marks; every ampersand begins an entity. */
  predicate Inert(s: Text, attribute: bool)
    decreases |s|
  {
    s == [] ||
    if AMPERSAND <= s then Inert(s[|AMPERSAND|..], attribute)
    else if LESS <= s then Inert(s[|LESS|..], attribute)
    else if GREATER <= s then Inert(s[|GREATER|..], attribute)
    else if attribute && QUOTE <= s then Inert(s[|QUOTE|..], attribute)
    else s[0] != 0x26 && s[0] != 0x3C && s[0] != 0x3E && !(attribute && s[0] == 0x22) && Inert(s[1..], attribute)
  }

  lemma InertAfterEntity(entity: Text, rest: Text, attribute: bool)
    requires IsEntity(entity) && (entity == QUOTE ==> attribute) && Inert(rest, attribute)
    ensures Inert(entity + rest, attribute)
  {
    var s := entity + rest;
    assert s[|entity|..] == rest;
    assert s[0] == entity[0] && s[1] == entity[1];
    assert AMPERSAND <= s ==> s[1] == AMPERSAND[1];
    assert LESS <= s ==> s[1] == LESS[1];
    assert GREATER <= s ==> s[1] == GREATER[1];
  }

  lemma InertAfterPlain(u: Unit, rest: Text, attribute: bool)
    requires u != 0x26 && u != 0x3C && u != 0x3E && !(attribute && u == 0x22) && Inert(rest, attribute)
    ensures Inert([u] + rest, attribute)
  {
    var s := [u] + rest;
    assert s[1..] == rest && s[0] == u;
    assert AMPERSAND[0] == 0x26 && LESS[0] == 0x26 && GREATER[0] == 0x26 && QUOTE[0] == 0x26;
    assert !(AMPERSAND <= s) && !(LESS <= s) && !(GREATER <= s) && !(QUOTE <= s);
  }

  /** An escaped text cannot be taken for markup, nor end the attribute it is the value of. */
  lemma {:induction false} EscapedIsInert(s: Text, attribute: bool)
    ensures Inert(Escape(s, attribute), attribute)
    decreases |s|
  {
    if s != [] {
      var rest := Escape(s[1..], attribute);
      EscapeBegins(s, attribute);
      UnitMeans(s[0], attribute);
      EscapedIsInert(s[1..], attribute);
      if IsEntity(EscapeUnit(s[0], attribute)) {
        InertAfterEntity(EscapeUnit(s[0], attribute), rest, attribute);
      } else {
        InertAfterPlain(s[0], rest, attribute);
      }
    }
  }

  /** No unit of an inert text is an angle bracket or, in attributes, a quotation mark. */
  lemma {:induction false} InertHasNoMarkup(s: Text, attribute: bool, i: nat)
    requires Inert(s, attribute) && i < |s|
    ensures s[i] != 0x3C && s[i] != 0x3E && !(attribute && s[i] == 0x22)
    decreases |s|
  {
    var n := if AMPERSAND <= s then |AMPERSAND| else if LESS <= s then |LESS| else if GREATER <= s then |GREATER|
             else if attribute && QUOTE <= s then |QUOTE| else 1;
    if i >= n {
      InertHasNoMarkup(s[n..], attribute, i - n);
      assert s[n..][i - n] == s[i];
    }
  }

  /** Texts without such characters are left alone. */
  lemma {:induction false} PlainIsUnchanged(s: Text, attribute: bool)
    requires forall i | 0 <= i < |s| :: s[i] !in {0x26, 0x3C, 0x3E} && !(attribute && s[i] == 0x22)
    ensures Escape(s, attribute) == s
  {
    if s != [] {
      PlainIsUnchanged(s[..|s| - 1], attribute);
      UnitMeans(s[|s| - 1], attribute);
      assert s == s[..|s| - 1] + [s[|s| - 1]];
    }
  }

  /** What is written for a value holds no markup, reads as the value, and is the value itself where that has none. */
  lemma EscapeMeans(s: Text, attribute: bool)
    ensures Unescape(Escape(s, attribute)) == s
    ensures forall i | 0 <= i < |Escape(s, attribute)| ::
              var u := Escape(s, attribute)[i]; u != 0x3C && u != 0x3E && !(attribute && u == 0x22)
    ensures (forall i | 0 <= i < |s| :: s[i] !in {0x26, 0x3C, 0x3E} && !(attribute && s[i] == 0x22)) ==>
              Escape(s, attribute) == s
  {
    EscapeRoundTrip(s, attribute);
    EscapedIsInert(s, attribute);
    forall i | 0 <= i < |Escape(s, attribute)|
      ensures var u := Escape(s, attribute)[i]; u != 0x3C && u != 0x3E && !(attribute && u == 0x22)
    {
      InertHasNoMarkup(Escape(s, attribute), attribute, i);
    }
    if forall i | 0 <= i < |s| :: s[i] !in {0x26, 0x3C, 0x3E} && !(attribute && s[i] == 0x22) {
      PlainIsUnchanged(s, attribute);
    }
  }
}
