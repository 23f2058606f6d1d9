/** UTF-8 as RFC 3629 defines it: the encoding of a scalar value (section 3)
    and the byte-sequence syntax that a decoder accepts (section 4), with the
    decoder contract of Go's utf8.DecodeRune that the string escaper relies on. */
module Utf8 {
  import opened Bytes

  /** U+FFFD, the value utf8.DecodeRune reports for a byte it cannot decode. */
  const RUNE_ERROR: int := 0xFFFD

  /** Bytes below this value are single-byte characters (utf8.RuneSelf). */
  const RUNE_SELF: byte := 0x80

  /** Unicode scalar values: code points outside the surrogate range. */
  predicate IsScalar(cp: int) {
    0 <= cp <= 0x10FFFF && !(0xD800 <= cp <= 0xDFFF)
  }

  /** The UTF-8 encoding of a scalar value, by the bit layout of section 3 of RFC 3629. */
  function Encode(cp: int): (r: seq<byte>)
    requires IsScalar(cp)
    ensures 1 <= |r| <= 4
    ensures (|r| == 1) == (cp < 0x80)
  {
    if cp < 0x80 then [cp as byte]
    else if cp < 0x800 then [(0xC0 + cp / 64) as byte, (0x80 + cp % 64) as byte]
    else if cp < 0x10000 then
      [(0xE0 + cp / 4096) as byte, (0x80 + (cp / 64) % 64) as byte, (0x80 + cp % 64) as byte]
    else
      [(0xF0 + cp / 262144) as byte, (0x80 + (cp / 4096) % 64) as byte,
       (0x80 + (cp / 64) % 64) as byte, (0x80 + cp % 64) as byte]
  }

  /** The code point carried by a lead byte and its continuation bytes, by the
      same bit layout read backwards. */
  function Decode(s: seq<byte>): int
    requires 2 <= |s| <= 4
  {
    if |s| == 2 then (s[0] as int - 0xC0) * 64 + (s[1] as int - 0x80)
    else if |s| == 3 then
      (s[0] as int - 0xE0) * 4096 + (s[1] as int - 0x80) * 64 + (s[2] as int - 0x80)
    else
      (s[0] as int - 0xF0) * 262144 + (s[1] as int - 0x80) * 4096
        + (s[2] as int - 0x80) * 64 + (s[3] as int - 0x80)
  }

  predicate InRange(s: seq<byte>, j: nat, lo: int, hi: int) {
    j < |s| && lo <= s[j] as int <= hi
  }

  /** The length of the well-formed multi-byte sequence at the start of `s`
      (the UTF8-2, UTF8-3 and UTF8-4 rules of section 4 of RFC 3629), or 0 when
      `s` does not start with one. */
  function SequenceLength(s: seq<byte>): (n: nat)
    ensures n == 0 || (2 <= n <= 4 && n <= |s|)
  {
    if s == [] then 0
    else
      var b := s[0] as int;
      if 0xC2 <= b <= 0xDF then
        (if InRange(s, 1, 0x80, 0xBF) then 2 else 0)
      else if b == 0xE0 then
        (if InRange(s, 1, 0xA0, 0xBF) && InRange(s, 2, 0x80, 0xBF) then 3 else 0)
      else if 0xE1 <= b <= 0xEC || 0xEE <= b <= 0xEF then
        (if InRange(s, 1, 0x80, 0xBF) && InRange(s, 2, 0x80, 0xBF) then 3 else 0)
      else if b == 0xED then
        (if InRange(s, 1, 0x80, 0x9F) && InRange(s, 2, 0x80, 0xBF) then 3 else 0)
      else if b == 0xF0 then
        (if InRange(s, 1, 0x90, 0xBF) && InRange(s, 2, 0x80, 0xBF) && InRange(s, 3, 0x80, 0xBF) then 4 else 0)
      else if 0xF1 <= b <= 0xF3 then
        (if InRange(s, 1, 0x80, 0xBF) && InRange(s, 2, 0x80, 0xBF) && InRange(s, 3, 0x80, 0xBF) then 4 else 0)
      else if b == 0xF4 then
        (if InRange(s, 1, 0x80, 0x8F) && InRange(s, 2, 0x80, 0xBF) && InRange(s, 3, 0x80, 0xBF) then 4 else 0)
      else 0
  }

  /** utf8.DecodeRune on a non-empty input: an ASCII byte decodes to itself
      with size 1, a well-formed sequence to its code point and length, and
      anything else to (RUNE_ERROR, 1). */
  function DecodeRune(s: seq<byte>): (result: (int, nat))
    requires s != []
    ensures 1 <= result.1 <= |s|
  {
    if s[0] < RUNE_SELF then (s[0] as int, 1)
    else
      var n := SequenceLength(s);
      if n == 0 then (RUNE_ERROR, 1) else (Decode(s[..n]), n)
  }

  /** On a byte at or above 0x80, DecodeRune fails with size 1 exactly when
      no well-formed sequence starts there, and otherwise reports that
      sequence's length. */
  lemma HighRune(s: seq<byte>)
    requires s != [] && s[0] >= RUNE_SELF
    ensures DecodeRune(s) == (RUNE_ERROR, 1) <==> SequenceLength(s) == 0
    ensures SequenceLength(s) != 0 ==> DecodeRune(s).1 == SequenceLength(s)
  {
  }

  lemma Layout2(x: int, y: int)
    requires 0 <= x && 0 <= y < 64
    ensures (x * 64 + y) / 64 == x && (x * 64 + y) % 64 == y
  {
  }

  lemma Layout3(x: int, y: int, z: int)
    requires 0 <= x && 0 <= y < 64 && 0 <= z < 64
    ensures var cp := x * 4096 + y * 64 + z;
            cp / 4096 == x && (cp / 64) % 64 == y && cp % 64 == z
  {
    var cp := x * 4096 + y * 64 + z;
    assert cp == (x * 64 + y) * 64 + z;
    Layout2(x * 64 + y, z);
    Layout2(x, y);
    assert cp / 4096 == (cp / 64) / 64;
  }

  lemma Layout4(w: int, x: int, y: int, z: int)
    requires 0 <= w && 0 <= x < 64 && 0 <= y < 64 && 0 <= z < 64
    ensures var cp := w * 262144 + x * 4096 + y * 64 + z;
            cp / 262144 == w && (cp / 4096) % 64 == x && (cp / 64) % 64 == y && cp % 64 == z
  {
    var cp := w * 262144 + x * 4096 + y * 64 + z;
    assert cp == (w * 64 + x) * 4096 + y * 64 + z;
    Layout3(w * 64 + x, y, z);
    Layout2(w, x);
    assert cp / 262144 == (cp / 4096) / 64;
  }

  /** Every sequence the decoder accepts is the encoding of exactly the scalar
      value it decodes to, and that value needs more than one byte. */
  lemma AcceptedIsEncoding(s: seq<byte>)
    requires SequenceLength(s) > 0
    ensures var n := SequenceLength(s);
            IsScalar(Decode(s[..n])) && Decode(s[..n]) >= 0x80 && Encode(Decode(s[..n])) == s[..n]
  {
    var n := SequenceLength(s);
    var t := s[..n];
    if n == 2 {
      Layout2(t[0] as int - 0xC0, t[1] as int - 0x80);
    } else if n == 3 {
      Layout3(t[0] as int - 0xE0, t[1] as int - 0x80, t[2] as int - 0x80);
    } else {
      Layout4(t[0] as int - 0xF0, t[1] as int - 0x80, t[2] as int - 0x80, t[3] as int - 0x80);
    }
  }

  lemma Split(cp: int)
    requires 0 <= cp
    ensures cp == (cp / 64) * 64 + cp % 64 && 0 <= cp % 64 < 64
    ensures cp / 64 == (cp / 4096) * 64 + (cp / 64) % 64 && 0 <= (cp / 64) % 64 < 64
    ensures cp / 4096 == (cp / 262144) * 64 + (cp / 4096) % 64 && 0 <= (cp / 4096) % 64 < 64
  {
    var a := cp / 64;
    var b := a / 64;
    assert b == cp / 4096;
    assert b / 64 == cp / 262144;
  }

  /** Conversely, the encoding of every scalar value of two or more bytes is
      accepted whole, whatever follows it, and decodes back to that value. */
  lemma EncodingIsAccepted(cp: int, rest: seq<byte>)
    requires IsScalar(cp) && cp >= 0x80
    ensures SequenceLength(Encode(cp) + rest) == |Encode(cp)|
    ensures DecodeRune(Encode(cp) + rest) == (cp, |Encode(cp)|)
  {
    var e := Encode(cp);
    var s := e + rest;
    assert s[..|e|] == e;
    Split(cp);
    var z := cp % 64;
    var y := (cp / 64) % 64;
    var x := (cp / 4096) % 64;
    if cp < 0x800 {
      assert cp == (cp / 64) * 64 + z;
      assert s[0] as int == 0xC0 + cp / 64 && s[1] as int == 0x80 + z;
    } else if cp < 0x10000 {
      var w := cp / 4096;
      assert cp == w * 4096 + y * 64 + z;
      assert s[0] as int == 0xE0 + w && s[1] as int == 0x80 + y && s[2] as int == 0x80 + z;
    } else {
      var v := cp / 262144;
      assert cp == v * 262144 + x * 4096 + y * 64 + z;
      assert s[0] as int == 0xF0 + v && s[1] as int == 0x80 + x;
      assert s[2] as int == 0x80 + y && s[3] as int == 0x80 + z;
    }
  }

  /** Text that is UTF-8 all the way through. */
  predicate ValidUtf8(s: seq<byte>)
    decreases |s|
  {
    s == [] ||
    (s[0] < RUNE_SELF && ValidUtf8(s[1..])) ||
    (SequenceLength(s) > 0 && ValidUtf8(s[SequenceLength(s)..]))
  }
}
