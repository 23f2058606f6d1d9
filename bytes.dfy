/** Byte strings, Go's fixed-width integers and the digit strings that
    Go's strconv.AppendInt / strconv.AppendUint produce. */
module Bytes {

  /** Go's `byte`. */
  newtype byte = x: int | 0 <= x < 256

  /** Go's `int64` (and `int` on a 64-bit platform). */
  newtype int64 = x: int | -0x8000_0000_0000_0000 <= x < 0x8000_0000_0000_0000

  /** Go's `uint64` (and `uint` on a 64-bit platform). */
  newtype uint64 = x: int | 0 <= x < 0x1_0000_0000_0000_0000

  /** Go's `uint32`. */
  newtype uint32 = x: int | 0 <= x < 0x1_0000_0000

  datatype Option<+T> = None | Some(value: T)

  /** The bytes of a string literal written with characters below U+0100,
      as Go's `[]byte("...")` gives them for ASCII text. */
  function Ascii(s: string): (r: seq<byte>)
    ensures |r| == |s|
    ensures forall i :: 0 <= i < |s| && (s[i] as int) < 256 ==> r[i] as int == s[i] as int
  {
    seq(|s|, i requires 0 <= i < |s| => (s[i] as int % 256) as byte)
  }

  /** The characters of a byte string, one per byte (used where the source
      turns bytes back into a Go string). */
  function Chars(b: seq<byte>): (r: string)
    ensures |r| == |b|
    ensures Ascii(r) == b
  {
    seq(|b|, i requires 0 <= i < |b| => (b[i] as int) as char)
  }

  const MINUS: byte := 0x2D

  /** The digit alphabet of strconv: `0`-`9` then lower-case `a`-`z`. */
  function DigitByte(d: nat): (r: byte)
    requires d < 36
  {
    if d < 10 then (0x30 + d) as byte else (0x61 + d - 10) as byte
  }

  /** The value of a digit byte in the strconv alphabet, or -1 for any other byte. */
  function DigitValue(b: byte): (v: int)
    ensures -1 <= v < 36
  {
    if 0x30 <= b <= 0x39 then b as int - 0x30
    else if 0x61 <= b <= 0x7A then b as int - 0x61 + 10
    else -1
  }

  lemma DigitValueOfDigitByte(d: nat)
    requires d < 36
    ensures DigitValue(DigitByte(d)) == d
  {
  }

  /** Digits of `n` in `base`, most significant first, without leading zeros
      (strconv.AppendUint's output). */
  function FormatNat(n: nat, base: nat): (r: seq<byte>)
    requires 2 <= base <= 36
    ensures 1 <= |r|
    ensures forall i :: 0 <= i < |r| ==> 0 <= DigitValue(r[i]) < base
    decreases n
  {
    if n < base then
      DigitValueOfDigitByte(n);
      [DigitByte(n)]
    else
      var hi := FormatNat(n / base, base);
      var lo := DigitByte(n % base);
      DigitValueOfDigitByte(n % base);
      assert forall i :: 0 <= i < |hi + [lo]| ==> (hi + [lo])[i] == if i < |hi| then hi[i] else lo;
      hi + [lo]
  }

  /** strconv.AppendInt's output: a `-` only for negative values, then the digits of |v|. */
  function FormatInt(v: int, base: nat): (r: seq<byte>)
    requires 2 <= base <= 36
  {
    if v < 0 then [MINUS] + FormatNat(-v, base) else FormatNat(v, base)
  }

  /** Reads back a string of digits in `base` (independent of FormatNat: it
      works from the left, as a reader of the log would). */
  function ParseNat(s: seq<byte>, base: nat): (n: int)
    requires 2 <= base <= 36
    decreases |s|
  {
    if s == [] then 0
    else
      var d := DigitValue(s[|s| - 1]);
      if d < 0 || d >= base then -1
      else
        var hi := ParseNat(s[..|s| - 1], base);
        if hi < 0 then -1 else hi * base + d
  }

  /** Reads back an optionally negative integer. */
  function ParseInt(s: seq<byte>, base: nat): (n: Option<int>)
    requires 2 <= base <= 36
  {
    if s == [] then None
    else if s[0] == MINUS then
      (if |s| == 1 || ParseNat(s[1..], base) < 0 then None else Some(-ParseNat(s[1..], base)))
    else if ParseNat(s, base) < 0 then None else Some(ParseNat(s, base))
  }

  lemma DivMod(n: nat, b: nat)
    requires 1 <= b
    ensures (n / b) * b + n % b == n
  {
  }

  /** Appending one digit to a well-formed digit string shifts its value by one place. */
  lemma ParseNatSnoc(s: seq<byte>, d: nat, base: nat)
    requires 2 <= base <= 36 && d < base
    requires ParseNat(s, base) >= 0
    ensures ParseNat(s + [DigitByte(d)], base) == ParseNat(s, base) * base + d
  {
    DigitValueOfDigitByte(d);
    assert (s + [DigitByte(d)])[..|s|] == s;
  }

  /** The digits of a natural number read back as that number. */
  lemma {:induction false} FormatNatRoundTrip(n: nat, base: nat)
    requires 2 <= base <= 36
    ensures ParseNat(FormatNat(n, base), base) == n
    decreases n
  {
    if n < base {
      DigitValueOfDigitByte(n);
      assert FormatNat(n, base)[..0] == [];
    } else {
      FormatNatRoundTrip(n / base, base);
      ParseNatSnoc(FormatNat(n / base, base), n % base, base);
      DivMod(n, base);
    }
  }

  /** Only zero is written with a leading `0`. */
  lemma {:induction false} FormatNatNoLeadingZero(n: nat, base: nat)
    requires 2 <= base <= 36
    ensures FormatNat(n, base)[0] == 0x30 <==> n == 0
    decreases n
  {
    if n >= base {
      FormatNatNoLeadingZero(n / base, base);
    }
  }

  /** The signed digit string of any integer reads back as that integer; the
      minus sign appears exactly when the value is negative. */
  lemma FormatIntRoundTrip(v: int, base: nat)
    requires 2 <= base <= 36
    ensures ParseInt(FormatInt(v, base), base) == Some(v)
    ensures FormatInt(v, base)[0] == MINUS <==> v < 0
  {
    var d := FormatNat(if v < 0 then -v else v, base);
    FormatNatRoundTrip(if v < 0 then -v else v, base);
    assert DigitValue(d[0]) >= 0;
    if v < 0 {
      assert FormatInt(v, base)[1..] == d;
    }
  }

  /** ASCII lower-casing, the part of Go's strings.ToLower that the names
      handled here need. */
  function ToLower(s: string): (r: string)
    ensures |r| == |s|
    ensures forall i :: 0 <= i < |s| ==> ('A' <= s[i] <= 'Z' <==> r[i] != s[i])
    ensures forall i :: 0 <= i < |r| ==> !('A' <= r[i] <= 'Z')
    ensures forall i :: 0 <= i < |s| && 'A' <= s[i] <= 'Z' ==>
              'a' <= r[i] <= 'z' && r[i] as int - 'a' as int == s[i] as int - 'A' as int
  {
    seq(|s|, i requires 0 <= i < |s| =>
      if 'A' <= s[i] <= 'Z' then (s[i] as int + 32) as char else s[i])
  }

  /** Text without upper-case letters is left as it is. */
  lemma LowerUnchanged(s: string)
    requires forall i :: 0 <= i < |s| ==> !('A' <= s[i] <= 'Z')
    ensures ToLower(s) == s
  {
  }

  /** Lower-casing twice is lower-casing once. */
  lemma ToLowerIdempotent(s: string)
    ensures ToLower(ToLower(s)) == ToLower(s)
  {
    LowerUnchanged(ToLower(s));
  }

  /** The decimal text of an integer as a string (strconv.Itoa). */
  function Itoa(n: int): (r: string)
    ensures Ascii(r) == FormatInt(n, 10)
  {
    Chars(FormatInt(n, 10))
  }
}
