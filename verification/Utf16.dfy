/** Texts as sequences of UTF-16 code units, and encoding them to UTF-8 within a byte capacity. */
module Utf16 {

  type Unit = u: int | 0 <= u < 0x1_0000

  type Text = seq<Unit>

  /** A text from an ASCII literal. */
  function U(s: string): (r: Text)
    ensures |r| == |s| && forall i | 0 <= i < |s| && s[i] < '\U{80}' :: r[i] == s[i] as int
  {
    seq(|s|, i requires 0 <= i < |s| => if s[i] as int < 0x1_0000 then s[i] as int else 0xFFFD)
  }

  // ----- Scalar values -----

  predicate IsPair(s: Text) {
    |s| >= 2 && 0xD800 <= s[0] < 0xDC00 && 0xDC00 <= s[1] < 0xE000
  }

  /** Code units of the first scalar value. */
  function FirstUnits(s: Text): (n: nat)
    requires s != []
    ensures 1 <= n <= 2 && n <= |s|
  {
    if IsPair(s) then 2 else 1
  }

  /** Bytes of the first scalar value; a surrogate on its own is encoded as the three bytes of U+FFFD. */
  function FirstBytes(s: Text): (n: nat)
    requires s != []
    ensures FirstUnits(s) <= n <= 3 * FirstUnits(s) && n <= 4
  {
    if IsPair(s) then 4 else if s[0] < 0x80 then 1 else if s[0] < 0x800 then 2 else 3
  }

  function Utf8Length(s: Text): (n: nat)
    ensures |s| <= n <= 3 * |s|
  {
    if s == [] then 0 else FirstBytes(s) + Utf8Length(s[FirstUnits(s)..])
  }

  /** Splitting a text can split a pair, which then costs more; nothing else changes. */
  lemma {:induction false} ConcatCostsNoMore(s: Text, t: Text)
    ensures Utf8Length(s + t) <= Utf8Length(s) + Utf8Length(t)
    decreases |s|
  {
    if s == [] {
      assert s + t == t;
    } else if IsPair(s + t) && |s| == 1 {
      assert (s + t)[2..] == t[1..] && s[1..] == [];
    } else {
      var n := FirstUnits(s);
      assert (s + t)[n..] == s[n..] + t;
      ConcatCostsNoMore(s[n..], t);
    }
  }

  // ----- Encoding -----

  /** How many code units were read, and how many bytes written. */
  datatype Progress = Progress(units: nat, bytes: nat)

  /** Encodes scalar value after scalar value while they fit. */
  function EncodeInto(s: Text, capacity: nat): (p: Progress)
    ensures p.units <= |s| && p.units <= p.bytes <= capacity
    decreases |s|
  {
    if s == [] || FirstBytes(s) > capacity then Progress(0, 0)
    else
      var rest := EncodeInto(s[FirstUnits(s)..], capacity - FirstBytes(s));
      Progress(FirstUnits(s) + rest.units, FirstBytes(s) + rest.bytes)
  }

  lemma EncodeUnfold(s: Text, capacity: nat)
    requires s != [] && FirstBytes(s) <= capacity
    ensures var rest := EncodeInto(s[FirstUnits(s)..], capacity - FirstBytes(s));
            EncodeInto(s, capacity) == Progress(FirstUnits(s) + rest.units, FirstBytes(s) + rest.bytes)
  {
  }

  lemma FirstOfPrefix(s: Text, n: nat)
    requires s != [] && FirstUnits(s) <= n <= |s|
    ensures s[..n] != [] && FirstUnits(s[..n]) == FirstUnits(s) && FirstBytes(s[..n]) == FirstBytes(s)
    ensures s[..n][FirstUnits(s)..] == s[FirstUnits(s)..][..n - FirstUnits(s)]
  {
  }

  /** The bytes written are those of the units read. */
  lemma {:induction false} EncodedBytes(s: Text, capacity: nat, p: Progress)
    requires p == EncodeInto(s, capacity)
    ensures Utf8Length(s[..p.units]) == p.bytes
    decreases |s|
  {
    if s != [] && FirstBytes(s) <= capacity {
      EncodeUnfold(s, capacity);
      FirstOfPrefix(s, p.units);
      EncodedBytes(s[FirstUnits(s)..], capacity - FirstBytes(s),
                   EncodeInto(s[FirstUnits(s)..], capacity - FirstBytes(s)));
    } else {
      EncodeNothing(s, capacity);
    }
  }

  /** Everything is read exactly when it fits. */
  lemma {:induction false} AllEncoded(s: Text, capacity: nat)
    ensures EncodeInto(s, capacity).units == |s| <==> Utf8Length(s) <= capacity
    decreases |s|
  {
    if s != [] && FirstBytes(s) <= capacity {
      AllEncoded(s[FirstUnits(s)..], capacity - FirstBytes(s));
    }
  }

  /** Looking at no more code units than there are bytes of capacity loses nothing: a pair cut in two never fits. */
  lemma {:induction false} SliceIsEnough(s: Text, units: nat, capacity: nat)
    requires capacity <= units <= |s|
    ensures EncodeInto(s[..units], capacity) == EncodeInto(s, capacity)
    decreases |s|
  {
    if units > 0 && FirstUnits(s) <= units && FirstBytes(s) <= capacity {
      SliceIsEnough(s[FirstUnits(s)..], units - FirstUnits(s), capacity - FirstBytes(s));
      SameStart(s, s[..units], units, capacity);
    } else {
      NothingOfSlice(s, units, capacity);
    }
  }

  lemma SameStart(s: Text, cut: Text, units: nat, capacity: nat)
    requires units <= |s| && cut == s[..units] && s != [] && FirstUnits(s) <= units && FirstBytes(s) <= capacity
    requires EncodeInto(s[FirstUnits(s)..][..units - FirstUnits(s)], capacity - FirstBytes(s))
          == EncodeInto(s[FirstUnits(s)..], capacity - FirstBytes(s))
    ensures EncodeInto(cut, capacity) == EncodeInto(s, capacity)
  {
    FirstOfPrefix(s, units);
    EncodeUnfold(s, capacity);
    EncodeUnfold(cut, capacity);
  }

  lemma NothingOfSlice(s: Text, units: nat, capacity: nat)
    requires capacity <= units <= |s|
    requires units == 0 || FirstUnits(s) > units || FirstBytes(s) > capacity
    ensures EncodeInto(s[..units], capacity) == EncodeInto(s, capacity)
  {
    if units > 0 && FirstUnits(s) <= units { FirstOfPrefix(s, units); }
    EncodeNothing(s, capacity);
    EncodeNothing(s[..units], capacity);
  }

  lemma EncodeNothing(s: Text, capacity: nat)
    requires s == [] || FirstBytes(s) > capacity
    ensures EncodeInto(s, capacity) == Progress(0, 0)
  {
  }

  ghost predicate Resumes(s: Text, p: Progress, q: Progress, capacity: nat) {
    EncodeInto(s, capacity) == Progress(p.units + q.units, p.bytes + q.bytes)
  }

  lemma RestOfRest(s: Text, n: nat, m: nat)
    requires n + m <= |s|
    ensures s[n..][m..] == s[n + m..]
  {
  }

  lemma ResumeOneLater(s: Text, rest: Progress, q: Progress, capacity: nat)
    requires s != [] && FirstBytes(s) <= capacity
    requires Resumes(s[FirstUnits(s)..], rest, q, capacity - FirstBytes(s))
    ensures Resumes(s, Progress(FirstUnits(s) + rest.units, FirstBytes(s) + rest.bytes), q, capacity)
  {
    EncodeUnfold(s, capacity);
  }

  lemma ResumeAtStart(s: Text, part: nat, capacity: nat, p: Progress, q: Progress)
    requires s == [] || FirstBytes(s) > part
    requires p == EncodeInto(s, part) && q == EncodeInto(s[p.units..], capacity - p.bytes) && p.bytes <= capacity
    ensures Resumes(s, p, q, capacity)
  {
    EncodeNothing(s, part);
    assert s[0..] == s;
  }

  /** p is what a first buffer takes of s, room the capacity then left, and w the rest of s. */
  ghost predicate FirstBuffer(s: Text, part: nat, capacity: nat, p: Progress, room: nat, w: Text) {
    p == EncodeInto(s, part) && p.bytes + room == capacity && w == s[p.units..]
  }

  lemma FirstBufferLater(s: Text, part: nat, capacity: nat, p: Progress, room: nat, w: Text) returns (rest: Progress)
    requires part <= capacity && s != [] && FirstBytes(s) <= part && FirstBuffer(s, part, capacity, p, room, w)
    ensures FirstBuffer(s[FirstUnits(s)..], part - FirstBytes(s), capacity - FirstBytes(s), rest, room, w)
    ensures p == Progress(FirstUnits(s) + rest.units, FirstBytes(s) + rest.bytes)
  {
    rest := EncodeInto(s[FirstUnits(s)..], part - FirstBytes(s));
    EncodeUnfold(s, part);
    RestOfRest(s, FirstUnits(s), rest.units);
  }

  lemma {:induction false} ResumesAfter(
      s: Text, part: nat, capacity: nat, p: Progress, room: nat, w: Text, q: Progress)
    requires part <= capacity && FirstBuffer(s, part, capacity, p, room, w) && q == EncodeInto(w, room)
    ensures Resumes(s, p, q, capacity)
    decreases |s|
  {
    if s == [] || FirstBytes(s) > part {
      ResumeAtStart(s, part, capacity, p, q);
    } else {
      var rest := FirstBufferLater(s, part, capacity, p, room, w);
      ResumesAfter(s[FirstUnits(s)..], part - FirstBytes(s), capacity - FirstBytes(s), rest, room, w, q);
      ResumeOneLater(s, rest, q, capacity);
    }
  }

  /** Encoding into a smaller buffer first, and going on from there, is encoding into the larger one. */
  lemma EncodingResumes(s: Text, part: nat, capacity: nat, p: Progress, q: Progress)
    requires part <= capacity && p == EncodeInto(s, part)
    requires q == EncodeInto(s[p.units..], capacity - p.bytes)
    ensures Resumes(s, p, q, capacity)
  {
    ResumesAfter(s, part, capacity, p, capacity - p.bytes, s[p.units..], q);
  }
}
