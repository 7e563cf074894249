/**
 Text values of an SSPI token: UTF-8 and big-endian UTF-16 with every malformed
 part replaced, and which texts are kept.
 */
module DerText {
  import opened Bytes

  /** A Unicode scalar value. */
  type scalar = c: int | 0 <= c < 0x11_0000 && !(0xD800 <= c < 0xE000)

  type Text = seq<scalar>

  const REPLACEMENT: scalar := 0xFFFD

  // ----- UTF-8 -----

  predicate Continues(s: Octets, i: nat) {
    i < |s| && 0x80 <= s[i] < 0xC0
  }

  /** The second octet of a sequence neither makes it overlong nor leads to a surrogate or past the last scalar. */
  predicate SecondFits(s: Octets, i: nat)
    requires i < |s|
  {
    && Continues(s, i + 1)
    && (s[i] == 0xE0 ==> s[i + 1] >= 0xA0)
    && (s[i] == 0xED ==> s[i + 1] < 0xA0)
    && (s[i] == 0xF0 ==> s[i + 1] >= 0x90)
    && (s[i] == 0xF4 ==> s[i + 1] < 0x90)
  }

  /** The six bits a continuation octet carries. */
  function Six(s: Octets, i: nat): (n: nat)
    requires Continues(s, i)
    ensures n < 0x40
  {
    s[i] as int - 0x80
  }

  /** The scalar at `i` and the octets it takes; what a sequence has before it goes wrong is replaced as one. */
  function NextUtf8(s: Octets, i: nat): (r: (scalar, nat))
    requires i < |s|
    ensures 1 <= r.1 && i + r.1 <= |s|
  {
    var b: int := s[i];
    if b < 0x80 then (b, 1)
    else if !(0xC2 <= b < 0xF5) || !SecondFits(s, i) then (REPLACEMENT, 1)
    else if b < 0xE0 then ((b - 0xC0) * 0x40 + Six(s, i + 1), 2)
    else if !Continues(s, i + 2) then (REPLACEMENT, 2)
    else if b < 0xF0 then ((b - 0xE0) * 0x1000 + Six(s, i + 1) * 0x40 + Six(s, i + 2), 3)
    else if !Continues(s, i + 3) then (REPLACEMENT, 3)
    else ((b - 0xF0) * 0x4_0000 + Six(s, i + 1) * 0x1000 + Six(s, i + 2) * 0x40 + Six(s, i + 3), 4)
  }

  function DecodeUtf8(s: Octets, i: nat): Text
    requires i <= |s|
    decreases |s| - i
  {
    if i == |s| then [] else
    var (c, n) := NextUtf8(s, i);
    [c] + DecodeUtf8(s, i + n)
  }

  function EncodeScalar(c: scalar): (s: Octets)
    ensures s != []
  {
    if c < 0x80 then [c]
    else if c < 0x800 then [0xC0 + c / 0x40, 0x80 + c % 0x40]
    else if c < 0x1_0000 then [0xE0 + c / 0x1000, 0x80 + c / 0x40 % 0x40, 0x80 + c % 0x40]
    else [0xF0 + c / 0x4_0000, 0x80 + c / 0x1000 % 0x40, 0x80 + c / 0x40 % 0x40, 0x80 + c % 0x40]
  }

  function EncodeUtf8(text: Text): Octets {
    if text == [] then [] else EncodeScalar(text[0]) + EncodeUtf8(text[1..])
  }

  lemma ScalarReads(s: Octets, i: nat, c: scalar)
    requires At(s, i, EncodeScalar(c))
    ensures i < |s| && NextUtf8(s, i) == (c, |EncodeScalar(c)|)
  {
    var wire := EncodeScalar(c);
    AtIn(s, i, wire);
    forall k | 0 <= k < |wire| ensures s[i + k] == wire[k] {
      AtByte(s, i, wire, k);
    }
    hide At;
    assert s[i] == wire[0];
    if c >= 0x80 {
      assert s[i + 1] == wire[1];
      if c < 0x800 {
        TwoRead(s, i, c);
      } else {
        assert s[i + 2] == wire[2];
        if c < 0x1_0000 {
          ThreeRead(s, i, c);
        } else {
          assert s[i + 3] == wire[3];
          FourRead(s, i, c);
        }
      }
    }
  }

  lemma TwoRead(s: Octets, i: nat, c: scalar)
    requires 0x80 <= c < 0x800 && i + 2 <= |s| && s[i] == 0xC0 + c / 0x40 && s[i + 1] == 0x80 + c % 0x40
    ensures NextUtf8(s, i) == (c, 2)
  {
  }

  lemma ThreeRead(s: Octets, i: nat, c: scalar)
    requires 0x800 <= c < 0x1_0000 && i + 3 <= |s|
    requires s[i] == 0xE0 + c / 0x1000 && s[i + 1] == 0x80 + c / 0x40 % 0x40 && s[i + 2] == 0x80 + c % 0x40
    ensures NextUtf8(s, i) == (c, 3)
  {
    assert c == c / 0x1000 * 0x1000 + c / 0x40 % 0x40 * 0x40 + c % 0x40;
  }

  lemma FourRead(s: Octets, i: nat, c: scalar)
    requires 0x1_0000 <= c && i + 4 <= |s|
    requires s[i] == 0xF0 + c / 0x4_0000 && s[i + 1] == 0x80 + c / 0x1000 % 0x40
    requires s[i + 2] == 0x80 + c / 0x40 % 0x40 && s[i + 3] == 0x80 + c % 0x40
    ensures NextUtf8(s, i) == (c, 4)
  {
    FourParts(c);
    FourJoined(s, i, c / 0x4_0000, c / 0x1000 % 0x40, c / 0x40 % 0x40, c % 0x40);
  }

  lemma FourParts(c: scalar)
    requires 0x1_0000 <= c
    ensures
      var k, x, y, z := c / 0x4_0000, c / 0x1000 % 0x40, c / 0x40 % 0x40, c % 0x40;
      && c == k * 0x4_0000 + x * 0x1000 + y * 0x40 + z
      && k <= 4 && (k == 0 ==> x >= 0x10) && (k == 4 ==> x < 0x10)
  {
    var q := c / 0x40;
    var r := q / 0x40;
    assert c == q * 0x40 + c % 0x40 && q == r * 0x40 + q % 0x40;
    assert c / 0x1000 == r && c / 0x4_0000 == r / 0x40;
    assert r == r / 0x40 * 0x40 + r % 0x40;
  }

  lemma FourJoined(s: Octets, i: nat, k: nat, x: nat, y: nat, z: nat)
    requires i + 4 <= |s| && k <= 4 && x < 0x40 && y < 0x40 && z < 0x40
    requires (k == 0 ==> x >= 0x10) && (k == 4 ==> x < 0x10)
    requires s[i] == 0xF0 + k && s[i + 1] == 0x80 + x && s[i + 2] == 0x80 + y && s[i + 3] == 0x80 + z
    ensures NextUtf8(s, i) == (k * 0x4_0000 + x * 0x1000 + y * 0x40 + z, 4)
  {
  }

  lemma {:induction false} Utf8Reads(s: Octets, i: nat, text: Text)
    requires At(s, i, EncodeUtf8(text)) && i + |EncodeUtf8(text)| == |s|
    ensures DecodeUtf8(s, i) == text
    decreases |text|
  {
    hide At, NextUtf8, EncodeScalar;
    if text != [] {
      AtSplit(s, i, EncodeScalar(text[0]), EncodeUtf8(text[1..]));
      ScalarReads(s, i, text[0]);
      Utf8Reads(s, i + |EncodeScalar(text[0])|, text[1..]);
      assert [text[0]] + text[1..] == text;
    }
  }

  // ----- UTF-16, high octet first -----

  function UnitAt(s: Octets, i: nat): nat
    requires i + 2 <= |s|
  {
    FromU16Be(s[i..i + 2])
  }

  predicate Low(u: nat) {
    0xDC00 <= u < 0xE000
  }

  function NextUtf16(s: Octets, i: nat): (r: (scalar, nat))
    requires i + 2 <= |s| && |s| % 2 == i % 2
    ensures (r.1 == 2 || r.1 == 4) && i + r.1 <= |s|
  {
    var u := UnitAt(s, i);
    if !(0xD800 <= u < 0xE000) then (u, 2)
    else if Low(u) || i + 4 > |s| || !Low(UnitAt(s, i + 2)) then (REPLACEMENT, 2)
    else (0x1_0000 + (u - 0xD800) * 0x400 + (UnitAt(s, i + 2) - 0xDC00), 4)
  }

  function DecodeUtf16(s: Octets, i: nat): Text
    requires i <= |s| && |s| % 2 == i % 2
    decreases |s| - i
  {
    if i == |s| then [] else
    var (c, n) := NextUtf16(s, i);
    [c] + DecodeUtf16(s, i + n)
  }

  function EncodeUnits(c: scalar): (s: Octets)
    ensures |s| == 2 || |s| == 4
  {
    if c < 0x1_0000 then U16Be(c)
    else U16Be(0xD800 + (c - 0x1_0000) / 0x400) + U16Be(0xDC00 + (c - 0x1_0000) % 0x400)
  }

  function EncodeUtf16(text: Text): (s: Octets)
    ensures |s| % 2 == 0
  {
    if text == [] then [] else EncodeUnits(text[0]) + EncodeUtf16(text[1..])
  }

  lemma UnitReads(s: Octets, i: nat, u: nat)
    requires u <= U16_MAX && At(s, i, U16Be(u))
    ensures i + 2 <= |s| && UnitAt(s, i) == u
  {
  }

  lemma UnitsRead(s: Octets, i: nat, c: scalar)
    requires At(s, i, EncodeUnits(c)) && |s| % 2 == i % 2
    ensures i + 2 <= |s| && NextUtf16(s, i) == (c, |EncodeUnits(c)|)
  {
    hide At, UnitAt, U16Be;
    if c < 0x1_0000 {
      UnitReads(s, i, c);
    } else {
      var high, low := 0xD800 + (c - 0x1_0000) / 0x400, 0xDC00 + (c - 0x1_0000) % 0x400;
      AtSplit(s, i, U16Be(high), U16Be(low));
      UnitReads(s, i, high);
      UnitReads(s, i + 2, low);
    }
  }

  lemma {:induction false} Utf16Reads(s: Octets, i: nat, text: Text)
    requires At(s, i, EncodeUtf16(text)) && i + |EncodeUtf16(text)| == |s|
    ensures DecodeUtf16(s, i) == text
    decreases |text|
  {
    hide At, NextUtf16, EncodeUnits;
    if text != [] {
      AtSplit(s, i, EncodeUnits(text[0]), EncodeUtf16(text[1..]));
      UnitsRead(s, i, text[0]);
      Utf16Reads(s, i + |EncodeUnits(text[0])|, text[1..]);
      assert [text[0]] + text[1..] == text;
    }
  }

  // ----- What is kept -----

  predicate Control(c: scalar) {
    c < 0x20 || 0x7F <= c < 0xA0
  }

  predicate Blank(c: scalar) {
    c in {0x09, 0x0A, 0x0C, 0x0D, 0x20}
  }

  /** Not empty, at most 1024 octets of UTF-8, and no control characters but white space. */
  predicate Keepable(text: Text) {
    text != [] && |EncodeUtf8(text)| <= 1024 && forall i | 0 <= i < |text| :: Control(text[i]) ==> Blank(text[i])
  }

  predicate Narrow(tag: byte) {
    tag in {0x0c, 0x13, 0x16, 0x1a, 0x1b}
  }

  const BMP: byte := 0x1e

  /** The text an element of this tag holds, if it is one and worth keeping. */
  function TextOf(tag: byte, value: Octets): (r: Option<Text>)
    ensures r.Some? ==> Keepable(r.value)
  {
    var text :=
      if Narrow(tag) then DecodeUtf8(value, 0)
      else if tag == BMP && |value| % 2 == 0 then DecodeUtf16(value, 0) else [];
    if Keepable(text) then Some(text) else None
  }

  /** A text in an element of either kind is found again exactly if it is worth keeping. */
  lemma TextFound(tag: byte, text: Text)
    requires Narrow(tag) || tag == BMP
    ensures TextOf(tag, if Narrow(tag) then EncodeUtf8(text) else EncodeUtf16(text)) ==
            if Keepable(text) then Some(text) else None
  {
    hide Keepable, EncodeUtf8, EncodeUtf16, DecodeUtf8, DecodeUtf16;
    var a, b := EncodeUtf8(text), EncodeUtf16(text);
    assert a[0..|a|] == a && b[0..|b|] == b;
    Utf8Reads(a, 0, text);
    Utf16Reads(b, 0, text);
  }
}
