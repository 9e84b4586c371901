/** The bytes themselves: UTF-8 as section 3 of RFC 3629 defines it, against the byte counts that the serializer keeps. */
module Utf8 {
  import opened Model
  import opened Utf16

  type Byte = b: int | 0 <= b < 0x100

  /** Unicode scalar values. */
  predicate IsScalar(v: int) {
    0 <= v < 0xD800 || 0xE000 <= v < 0x11_0000
  }

  // ----- One scalar value -----

  /** The first scalar value of a text; a surrogate on its own is replaced by U+FFFD. */
  function FirstScalar(s: Text): (v: int)
    requires s != []
    ensures IsScalar(v)
  {
    if IsPair(s) then
      var high: int, low: int := s[0], s[1];
      0x1_0000 + (high - 0xD800) * 0x400 + (low - 0xDC00)
    else if 0xD800 <= s[0] < 0xE000 then 0xFFFD
    else s[0]
  }

  function EncodeScalar(v: int): seq<Byte>
    requires IsScalar(v)
  {
    if v < 0x80 then [v]
    else if v < 0x800 then [0xC0 + v / 0x40, 0x80 + v % 0x40]
    else if v < 0x1_0000 then [0xE0 + v / 0x1000, 0x80 + v / 0x40 % 0x40, 0x80 + v % 0x40]
    else [0xF0 + v / 0x4_0000, 0x80 + v / 0x1000 % 0x40, 0x80 + v / 0x40 % 0x40, 0x80 + v % 0x40]
  }

  /** Reads one scalar value off the front, and says how many bytes it took. */
  function DecodeFirst(bytes: seq<Byte>): (r: (int, nat))
    requires bytes != []
    ensures 1 <= r.1
  {
    var b := bytes[0];
    if b < 0x80 || |bytes| < 2 then (b, 1)
    else if b < 0xE0 || |bytes| < 3 then ((b - 0xC0) * 0x40 + (bytes[1] - 0x80), 2)
    else if b < 0xF0 || |bytes| < 4 then ((b - 0xE0) * 0x1000 + (bytes[1] - 0x80) * 0x40 + (bytes[2] - 0x80), 3)
    else ((b - 0xF0) * 0x4_0000 + (bytes[1] - 0x80) * 0x1000 + (bytes[2] - 0x80) * 0x40 + (bytes[3] - 0x80), 4)
  }

  lemma Split(v: int)
    ensures v == v / 0x40 * 0x40 + v % 0x40
    ensures v / 0x40 == v / 0x1000 * 0x40 + v / 0x40 % 0x40
    ensures v / 0x1000 == v / 0x4_0000 * 0x40 + v / 0x1000 % 0x40
  {
  }

  lemma DecodeEncoded(v: int, rest: seq<Byte>)
    requires IsScalar(v)
    ensures DecodeFirst(EncodeScalar(v) + rest) == (v, |EncodeScalar(v)|)
  {
    Split(v);
  }

  /** The count that the serializer keeps is the number of bytes. */
  lemma FirstBytesCounts(s: Text)
    requires s != []
    ensures |EncodeScalar(FirstScalar(s))| == FirstBytes(s)
  {
  }

  // ----- Texts -----

  function Scalars(s: Text): seq<int>
    decreases |s|
  {
    if s == [] then [] else [FirstScalar(s)] + Scalars(s[FirstUnits(s)..])
  }

  function Encode(s: Text): seq<Byte>
    decreases |s|
  {
    if s == [] then [] else EncodeScalar(FirstScalar(s)) + Encode(s[FirstUnits(s)..])
  }

  function Decode(bytes: seq<Byte>): seq<int>
    decreases |bytes|
  {
    if bytes == [] then []
    else
      var r := DecodeFirst(bytes);
      if r.1 > |bytes| then [r.0] else [r.0] + Decode(bytes[r.1..])
  }

  /** Decoding the bytes of a text gives its scalar values, and their number is its UTF-8 length. */
  lemma {:induction false} EncodingIsExact(s: Text)
    ensures Decode(Encode(s)) == Scalars(s) && |Encode(s)| == Utf8Length(s)
    decreases |s|
  {
    if s != [] {
      var rest := s[FirstUnits(s)..];
      var v := FirstScalar(s);
      EncodingIsExact(rest);
      DecodeEncoded(v, Encode(rest));
      FirstBytesCounts(s);
      var bytes := EncodeScalar(v) + Encode(rest);
      assert bytes[|EncodeScalar(v)|..] == Encode(rest);
    }
  }

  /** What a bounded encoding writes are the bytes of what it reads, and the next scalar value would not fit. */
  lemma BoundedEncodingIsExact(s: Text, capacity: nat)
    ensures var p := EncodeInto(s, capacity);
            && p.bytes == |Encode(s[..p.units])|
            && (p.units < |s| ==> p.bytes + |EncodeScalar(FirstScalar(s[p.units..]))| > capacity)
  {
    var p := EncodeInto(s, capacity);
    EncodedBytes(s, capacity, p);
    EncodingIsExact(s[..p.units]);
    if p.units < |s| {
      StopsAtTooWide(s, capacity, p);
      FirstBytesCounts(s[p.units..]);
    }
  }

  lemma {:induction false} StopsAtTooWide(s: Text, capacity: nat, p: Progress)
    requires p == EncodeInto(s, capacity) && p.units < |s|
    ensures p.bytes + FirstBytes(s[p.units..]) > capacity
    decreases |s|
  {
    if FirstBytes(s) <= capacity {
      var n := FirstUnits(s);
      var rest := EncodeInto(s[n..], capacity - FirstBytes(s));
      EncodeUnfold(s, capacity);
      StopsAtTooWide(s[n..], capacity - FirstBytes(s), rest);
      assert s[n..][rest.units..] == s[p.units..];
    } else {
      EncodeNothing(s, capacity);
      assert s[0..] == s;
    }
  }

  // ----- Strings -----

  function EncodeString(s: string): seq<Byte> {
    if s == [] then [] else EncodeString(s[..|s| - 1]) + EncodeScalar(s[|s| - 1] as int)
  }

  /** The size that limits on rule documents speak of is the number of bytes. */
  lemma {:induction false} ByteLengthCounts(s: string)
    ensures ByteLength(s) == |EncodeString(s)|
  {
    if s != [] { ByteLengthCounts(s[..|s| - 1]); }
  }
}
