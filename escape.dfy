/** The string escaper shared by both record formats (Pattern.go): the
    no-escape table, appendStringComplex, and what the escaped text means to a
    JSON reader (section 7 of RFC 8259). */
module Escaper {
  import opened Bytes
  import opened Utf8

  const QUOTE: byte := 0x22
  const BACKSLASH: byte := 0x5C
  const SLASH: byte := 0x2F

  /** The lower-case hexadecimal alphabet of Pattern.go's `hex` constant. */
  const HEX: seq<byte> := Ascii("0123456789abcdef")

  /** The six bytes `\ufffd` written in place of a byte that does not decode. */
  const REPLACEMENT: seq<byte> := Ascii("\\ufffd")

  /** A byte that is copied as it is: printable ASCII other than `"` and `\`. */
  predicate NoEscape(b: byte) {
    0x20 <= b <= 0x7E && b != QUOTE && b != BACKSLASH
  }

  /** The package's `init`: a 256-entry table, zero (false) everywhere and
      filled in for the bytes 0x00..0x7E. */
  method BuildNoEscapeTable() returns (table: array<bool>)
    ensures table.Length == 256
    ensures forall b :: 0 <= b < 256 ==> (table[b] <==> NoEscape(b as byte))
  {
    table := new bool[256](_ => false);
    var i := 0;
    while i <= 0x7E
      invariant 0 <= i <= 0x7F
      invariant forall b :: 0 <= b < i ==> (table[b] <==> NoEscape(b as byte))
      invariant forall b :: i <= b < 256 ==> !table[b]
    {
      table[i] := i >= 0x20 && i != BACKSLASH as int && i != QUOTE as int;
      i := i + 1;
    }
  }

  /** The escape written for an ASCII byte that is not copied as it is:
      the switch of appendStringComplex. */
  function ShortEscape(b: byte): (r: seq<byte>)
    requires b < RUNE_SELF && !NoEscape(b)
  {
    if b == QUOTE || b == BACKSLASH then [BACKSLASH, b]
    else if b == 0x08 then Ascii("\\b")
    else if b == 0x0C then Ascii("\\f")
    else if b == 0x0A then Ascii("\\n")
    else if b == 0x0D then Ascii("\\r")
    else if b == 0x09 then Ascii("\\t")
    else Ascii("\\u00") + [HEX[b / 16], HEX[b % 16]]
  }

  /** The escaped form of a whole byte string, scanning from the left as the
      loop of appendStringComplex does. */
  function Escape(s: seq<byte>): (r: seq<byte>)
    decreases |s|
  {
    if s == [] then []
    else if NoEscape(s[0]) then [s[0]] + Escape(s[1..])
    else if s[0] >= RUNE_SELF then
      var n := SequenceLength(s);
      if n == 0 then REPLACEMENT + Escape(s[1..]) else s[..n] + Escape(s[n..])
    else ShortEscape(s[0]) + Escape(s[1..])
  }

  /** The first unit of `s` that the escaper handles in one step, its escaped
      form, and what is left after it. */
  lemma EscapeHead(s: seq<byte>) returns (head: seq<byte>, n: nat)
    requires s != []
    ensures 1 <= n <= |s|
    ensures Escape(s) == head + Escape(s[n..])
    ensures NoEscape(s[0]) ==> head == [s[0]] && n == 1
    ensures !NoEscape(s[0]) && s[0] < RUNE_SELF ==> head == ShortEscape(s[0]) && n == 1
    ensures !NoEscape(s[0]) && s[0] >= RUNE_SELF && DecodeRune(s) == (RUNE_ERROR, 1) ==>
              head == REPLACEMENT && n == 1
    ensures !NoEscape(s[0]) && s[0] >= RUNE_SELF && DecodeRune(s) != (RUNE_ERROR, 1) ==>
              head == s[..n] && n == DecodeRune(s).1
  {
    if NoEscape(s[0]) {
      head, n := [s[0]], 1;
    } else if s[0] >= RUNE_SELF {
      var m := SequenceLength(s);
      if m == 0 {
        head, n := REPLACEMENT, 1;
      } else {
        head, n := s[..m], m;
      }
    } else {
      head, n := ShortEscape(s[0]), 1;
    }
  }

  /** One step of the escaper at position `k`: the unit there, escaped, then the rest. */
  lemma StepCopy(s: seq<byte>, k: nat)
    requires k < |s| && NoEscape(s[k])
    ensures Escape(s[k..]) == s[k..k + 1] + Escape(s[k + 1..])
  {
    assert s[k..][1..] == s[k + 1..];
    assert s[k..k + 1] == [s[k]];
  }

  lemma StepShort(s: seq<byte>, k: nat)
    requires k < |s| && s[k] < RUNE_SELF && !NoEscape(s[k])
    ensures Escape(s[k..]) == ShortEscape(s[k]) + Escape(s[k + 1..])
  {
    assert s[k..][1..] == s[k + 1..];
  }

  lemma StepInvalid(s: seq<byte>, k: nat)
    requires k < |s| && s[k] >= RUNE_SELF && SequenceLength(s[k..]) == 0
    ensures Escape(s[k..]) == REPLACEMENT + Escape(s[k + 1..])
  {
    assert s[k..][1..] == s[k + 1..];
  }

  lemma StepValid(s: seq<byte>, k: nat)
    requires k < |s| && s[k] >= RUNE_SELF && SequenceLength(s[k..]) != 0
    ensures var n := SequenceLength(s[k..]);
            k + n <= |s| && Escape(s[k..]) == s[k..k + n] + Escape(s[k + n..])
  {
    EscapeValidHead(s[k..]);
    Slices(s, k, SequenceLength(s[k..]));
  }

  lemma EscapeValidHead(t: seq<byte>)
    requires t != [] && t[0] >= RUNE_SELF && SequenceLength(t) != 0
    ensures Escape(t) == t[..SequenceLength(t)] + Escape(t[SequenceLength(t)..])
  {
  }

  lemma Slices(s: seq<byte>, k: nat, n: nat)
    requires k + n <= |s|
    ensures s[k..][..n] == s[k..k + n] && s[k..][n..] == s[k + n..]
  {
  }

  /** The invariant of the escaper's loop survives extending the pending run
      by `n` bytes that escape to themselves. */
  lemma KeepPending(r: seq<byte>, s: seq<byte>, start: nat, k: nat, n: nat, e: seq<byte>, goal: seq<byte>)
    requires start <= k && k + n <= |s|
    requires r + s[start..k] + (s[k..k + n] + e) == goal
    ensures r + s[start..k + n] + e == goal
  {
    assert s[start..k + n] == s[start..k] + s[k..k + n];
    Shift(r, s[start..k], s[k..k + n], e);
  }

  /** ... and survives flushing the pending run followed by the escape `x`
      of the byte at `k`. */
  lemma Flush(r: seq<byte>, s: seq<byte>, start: nat, k: nat, x: seq<byte>, e: seq<byte>, goal: seq<byte>)
    requires start <= k < |s|
    requires r + s[start..k] + (x + e) == goal
    ensures r + s[start..k] + x + s[k + 1..k + 1] + e == goal
  {
    assert s[k + 1..k + 1] == [];
    Regroup(r, s[start..k], x, e);
  }

  lemma EmptyRun(r: seq<byte>, s: seq<byte>, k: nat)
    requires k <= |s|
    ensures r + s[k..k] == r
  {
  }

  lemma Regroup(a: seq<byte>, p: seq<byte>, x: seq<byte>, e: seq<byte>)
    ensures a + p + x + [] + e == a + p + (x + e)
  {
  }

  lemma Shift(a: seq<byte>, p: seq<byte>, x: seq<byte>, e: seq<byte>)
    ensures a + (p + x) + e == a + p + (x + e)
  {
  }

  /** The branches of the loop body that flush: the pending run, when not
      empty, and then the escape `x` of the byte at `k` are appended, and
      the new run starts after `k`. */
  method FlushRun(s: seq<byte>, r: seq<byte>, start: nat, k: nat, x: seq<byte>, ghost e: seq<byte>, ghost goal: seq<byte>)
    returns (r': seq<byte>, k': nat)
    requires start <= k < |s|
    requires r + s[start..k] + (x + e) == goal
    ensures k' == k + 1 && r' + s[k'..k'] + e == goal
  {
    Flush(r, s, start, k, x, e, goal);
    r' := r;
    if start < k {
      r' := r' + s[start..k];
    } else {
      EmptyRun(r, s, k);
    }
    r' := r' + x;
    k' := k + 1;
  }

  /** The loop body on a byte at or above 0x80: a well-formed multi-byte
      character joins the pending run, an undecodable byte is flushed as
      `\ufffd`. */
  method ScanHigh(s: seq<byte>, r: seq<byte>, start: nat, k: nat, ghost goal: seq<byte>)
    returns (r': seq<byte>, start': nat, k': nat)
    requires start <= k < |s| && s[k] >= RUNE_SELF
    requires r + s[start..k] + Escape(s[k..]) == goal
    ensures start' <= k' <= |s| && k < k'
    ensures r' + s[start'..k'] + Escape(s[k'..]) == goal
  {
    var (rune, size) := DecodeRune(s[k..]);
    HighRune(s[k..]);
    if rune == RUNE_ERROR && size == 1 {
      StepInvalid(s, k);
      r', k' := FlushRun(s, r, start, k, REPLACEMENT, Escape(s[k + 1..]), goal);
      start' := k';
    } else {
      StepValid(s, k);
      KeepPending(r, s, start, k, size, Escape(s[k + size..]), goal);
      r', start', k' := r, start, k + size;
    }
  }

  /** One pass of the body of appendStringComplex's loop at position `k`:
      a byte that needs no escape, or a well-formed multi-byte character,
      joins the pending run `s[start..k]`; an undecodable byte or an ASCII
      byte that needs an escape flushes the run and appends its escape. */
  method ScanOne(table: array<bool>, s: seq<byte>, r: seq<byte>, start: nat, k: nat, ghost goal: seq<byte>)
    returns (r': seq<byte>, start': nat, k': nat)
    requires table.Length == 256 && forall b :: 0 <= b < 256 ==> (table[b] <==> NoEscape(b as byte))
    requires start <= k < |s|
    requires r + s[start..k] + Escape(s[k..]) == goal
    ensures start' <= k' <= |s| && k < k'
    ensures r' + s[start'..k'] + Escape(s[k'..]) == goal
  {
    var b := s[k];
    if table[b] {
      StepCopy(s, k);
      KeepPending(r, s, start, k, 1, Escape(s[k + 1..]), goal);
      r', start', k' := r, start, k + 1;
    } else if b >= RUNE_SELF {
      r', start', k' := ScanHigh(s, r, start, k, goal);
    } else {
      StepShort(s, k);
      r', k' := FlushRun(s, r, start, k, ShortEscape(b), Escape(s[k + 1..]), goal);
      start' := k';
    }
  }

  /** appendStringComplex: appends the escaped form of `s` to `dst`. `table`
      is the package's no-escape table; `i` is where scanning starts (every
      caller passes 0; the bytes before `i` are copied as they are, because
      the pending run always starts at 0). */
  method AppendStringComplex(table: array<bool>, dst: seq<byte>, s: seq<byte>, i: nat) returns (r: seq<byte>)
    requires table.Length == 256 && forall b :: 0 <= b < 256 ==> (table[b] <==> NoEscape(b as byte))
    ensures i <= |s| ==> r == dst + s[..i] + Escape(s[i..])
    ensures i > |s| ==> r == dst + s
  {
    r := dst;
    var start: nat := 0;
    var k: nat := i;
    ghost var goal := if i <= |s| then dst + s[..i] + Escape(s[i..]) else dst + s;
    if i <= |s| {
      assert s[0..i] == s[..i];
    }
    while k < |s|
      invariant start <= k
      invariant k <= |s| || (k == i && start == 0)
      invariant k <= |s| ==> r + s[start..k] + Escape(s[k..]) == goal
      invariant k > |s| ==> r == dst
      decreases |s| - k
    {
      r, start, k := ScanOne(table, s, r, start, k, goal);
    }
    if start < |s| {
      r := r + s[start..];
    }
  }

  // ---------------------------------------------------------------------
  // What the escaper does to each kind of byte.

  /** Text made only of bytes that need no escape is left as it is. */
  lemma {:induction false} EscapeIdentity(s: seq<byte>)
    requires forall j :: 0 <= j < |s| ==> NoEscape(s[j])
    ensures Escape(s) == s
    decreases |s|
  {
    if s != [] {
      EscapeIdentity(s[1..]);
    }
  }

  /** `"` and `\` get a backslash in front; backspace, form feed, newline,
      carriage return and tab get their two-character escapes. */
  lemma EscapeShortForms(b: byte, rest: seq<byte>)
    requires b in {QUOTE, BACKSLASH, 0x08, 0x0C, 0x0A, 0x0D, 0x09}
    ensures Escape([b] + rest) == [BACKSLASH] + [
              if b == 0x08 then 0x62 else if b == 0x0C then 0x66 else if b == 0x0A then 0x6E
              else if b == 0x0D then 0x72 else if b == 0x09 then 0x74 else b] + Escape(rest)
  {
    assert ([b] + rest)[1..] == rest;
  }

  /** Every other ASCII byte that needs an escape (the remaining controls and
      DEL) becomes `\u00` and two lower-case hex digits. */
  lemma EscapeOtherControl(b: byte, rest: seq<byte>)
    requires b < RUNE_SELF && !NoEscape(b)
    requires b !in {QUOTE, BACKSLASH, 0x08, 0x0C, 0x0A, 0x0D, 0x09}
    ensures Escape([b] + rest) == Ascii("\\u00") + [HEX[b / 16], HEX[b % 16]] + Escape(rest)
    ensures b < 0x20 || b == 0x7F
  {
    assert ([b] + rest)[1..] == rest;
  }

  /** A well-formed multi-byte character is copied unchanged. */
  lemma EscapeKeepsCharacter(cp: int, rest: seq<byte>)
    requires IsScalar(cp) && cp >= 0x80
    ensures Escape(Encode(cp) + rest) == Encode(cp) + Escape(rest)
  {
    var e := Encode(cp);
    EncodingIsAccepted(cp, rest);
    assert (e + rest)[..|e|] == e;
    assert (e + rest)[|e|..] == rest;
  }

  /** In particular an encoded U+FFFD is copied, not replaced. */
  lemma EscapeKeepsEncodedReplacement(rest: seq<byte>)
    ensures Escape([0xEF, 0xBF, 0xBD] + rest) == [0xEF, 0xBF, 0xBD] + Escape(rest)
  {
    assert Encode(0xFFFD) == [0xEF, 0xBF, 0xBD];
    EscapeKeepsCharacter(0xFFFD, rest);
  }

  /** A byte at which decoding fails becomes `\ufffd`, and scanning resumes at
      the very next byte. */
  lemma EscapeInvalidByte(s: seq<byte>)
    requires s != [] && s[0] >= RUNE_SELF && DecodeRune(s) == (RUNE_ERROR, 1)
    ensures Escape(s) == REPLACEMENT + Escape(s[1..])
  {
  }

  /** No byte of `t` is a control byte below 0x20. */
  predicate NoControl(t: seq<byte>) {
    forall j :: 0 <= j < |t| ==> t[j] >= 0x20
  }

  lemma ShortEscapeNoControl(b: byte)
    requires b < RUNE_SELF && !NoEscape(b)
    ensures NoControl(ShortEscape(b))
  {
  }

  lemma NoControlConcat(a: seq<byte>, c: seq<byte>)
    requires NoControl(a) && NoControl(c)
    ensures NoControl(a + c)
  {
  }

  /** The escaped text never holds a raw control byte below 0x20. */
  lemma {:induction false} EscapeNoControlBytes(s: seq<byte>)
    ensures NoControl(Escape(s))
    decreases |s|
  {
    if s != [] {
      var head, n := EscapeHead(s);
      if NoEscape(s[0]) {
      } else if s[0] < RUNE_SELF {
        ShortEscapeNoControl(s[0]);
      } else if DecodeRune(s) == (RUNE_ERROR, 1) {
        assert NoControl(REPLACEMENT);
      } else {
        assert NoControl(head);
      }
      EscapeNoControlBytes(s[n..]);
      NoControlConcat(head, Escape(s[n..]));
    }
  }

  // ---------------------------------------------------------------------
  // What a JSON reader makes of the escaped text.

  function HexValue(b: byte): (v: int)
    ensures -1 <= v < 16
  {
    if 0x30 <= b <= 0x39 then b as int - 0x30
    else if 0x61 <= b <= 0x66 then b as int - 0x61 + 10
    else if 0x41 <= b <= 0x46 then b as int - 0x41 + 10
    else -1
  }

  function Prepend(p: seq<byte>, o: Option<seq<byte>>): Option<seq<byte>> {
    match o
    case None => None
    case Some(t) => Some(p + t)
  }

  /** The bytes that a JSON string body denotes (the `char` rule of section 7 of
      RFC 8259), written out as UTF-8; None when the body is not valid: a raw
      `"` or control byte, or an unknown or truncated escape. A `\u` escape
      of a lone surrogate is also refused. */
  function Unescape(t: seq<byte>): (r: Option<seq<byte>>)
    decreases |t|
  {
    if t == [] then Some([])
    else if t[0] == QUOTE || t[0] < 0x20 then None
    else if t[0] != BACKSLASH then Prepend([t[0]], Unescape(t[1..]))
    else if |t| < 2 then None
    else
      var c := t[1];
      if c == QUOTE || c == BACKSLASH || c == SLASH then Prepend([c], Unescape(t[2..]))
      else if c == 0x62 then Prepend([0x08], Unescape(t[2..]))
      else if c == 0x66 then Prepend([0x0C], Unescape(t[2..]))
      else if c == 0x6E then Prepend([0x0A], Unescape(t[2..]))
      else if c == 0x72 then Prepend([0x0D], Unescape(t[2..]))
      else if c == 0x74 then Prepend([0x09], Unescape(t[2..]))
      else if c == 0x75 && |t| >= 6 && HexValue(t[2]) >= 0 && HexValue(t[3]) >= 0
              && HexValue(t[4]) >= 0 && HexValue(t[5]) >= 0 then
        var cp := HexValue(t[2]) * 4096 + HexValue(t[3]) * 256 + HexValue(t[4]) * 16 + HexValue(t[5]);
        if IsScalar(cp) then Prepend(Encode(cp), Unescape(t[6..])) else None
      else None
  }

  /** The input with every byte that does not decode replaced by the UTF-8
      encoding of U+FFFD; the identity on valid UTF-8. */
  function Sanitize(s: seq<byte>): (r: seq<byte>)
    decreases |s|
  {
    if s == [] then []
    else if s[0] < RUNE_SELF then [s[0]] + Sanitize(s[1..])
    else
      var n := SequenceLength(s);
      if n == 0 then Encode(RUNE_ERROR) + Sanitize(s[1..]) else s[..n] + Sanitize(s[n..])
  }

  lemma {:induction false} SanitizeValid(s: seq<byte>)
    requires ValidUtf8(s)
    ensures Sanitize(s) == s
    decreases |s|
  {
    if s != [] {
      if s[0] < RUNE_SELF {
        SanitizeValid(s[1..]);
      } else {
        SanitizeValid(s[SequenceLength(s)..]);
      }
    }
  }

  /** A byte that is neither a quote, a backslash nor a control byte
      stands for itself. */
  lemma UnescapePlain(t: seq<byte>)
    requires t != [] && t[0] != QUOTE && t[0] != BACKSLASH && t[0] >= 0x20
    ensures Unescape(t) == Prepend([t[0]], Unescape(t[1..]))
  {
  }

  lemma PrependTwice(a: seq<byte>, b: seq<byte>, o: Option<seq<byte>>)
    ensures Prepend(a, Prepend(b, o)) == Prepend(a + b, o)
  {
    match o {
      case None =>
      case Some(x) => assert a + (b + x) == a + b + x;
    }
  }

  /** Bytes that are neither ASCII nor escapes pass through the reader unchanged. */
  lemma {:induction false} UnescapeHigh(p: seq<byte>, rest: seq<byte>)
    requires forall j :: 0 <= j < |p| ==> p[j] >= RUNE_SELF
    ensures Unescape(p + rest) == Prepend(p, Unescape(rest))
    decreases |p|
  {
    if p == [] {
      assert p + rest == rest;
      match Unescape(rest) {
        case None =>
        case Some(x) => assert [] + x == x;
      }
    } else {
      var t := p + rest;
      UnescapePlain(t);
      assert t[1..] == p[1..] + rest;
      UnescapeHigh(p[1..], rest);
      PrependTwice([p[0]], p[1..], Unescape(rest));
      assert [p[0]] + p[1..] == p;
    }
  }

  lemma HexDigits(k: int)
    requires 0 <= k < 16
    ensures HexValue(HEX[k]) == k
  {
  }

  /** The reader's view of one escape that the escaper writes. */
  lemma UnescapeShort(b: byte, rest: seq<byte>)
    requires b < RUNE_SELF && !NoEscape(b)
    ensures Unescape(ShortEscape(b) + rest) == Prepend([b], Unescape(rest))
  {
    var e := ShortEscape(b);
    var t := e + rest;
    assert t[0] == BACKSLASH;
    if b == QUOTE || b == BACKSLASH || b in {0x08, 0x0C, 0x0A, 0x0D, 0x09} {
      assert t[2..] == rest;
    } else {
      HexDigits(b as int / 16);
      HexDigits(b as int % 16);
      assert t[1] == 0x75 && t[2] == 0x30 && t[3] == 0x30;
      assert t[4] == HEX[b / 16] && t[5] == HEX[b % 16];
      assert t[6..] == rest;
      assert Encode(b as int) == [b];
    }
  }

  lemma UnescapeReplacement(rest: seq<byte>)
    ensures Unescape(REPLACEMENT + rest) == Prepend(Encode(RUNE_ERROR), Unescape(rest))
  {
    var t := REPLACEMENT + rest;
    assert t[..6] == REPLACEMENT;
    assert t[6..] == rest;
    assert HexValue(t[2]) == 15 && HexValue(t[3]) == 15 && HexValue(t[4]) == 15 && HexValue(t[5]) == 13;
  }

  /** Round trip: the escaped text is a valid JSON string body, and a JSON
      reader gets back the input, with every undecodable byte read as U+FFFD. */
  lemma {:induction false} UnescapeEscape(s: seq<byte>)
    ensures Unescape(Escape(s)) == Some(Sanitize(s))
    decreases |s|
  {
    if s != [] {
      if NoEscape(s[0]) {
        UnescapeEscape(s[1..]);
        assert ([s[0]] + Escape(s[1..]))[1..] == Escape(s[1..]);
      } else if s[0] >= RUNE_SELF {
        var n := SequenceLength(s);
        if n == 0 {
          UnescapeEscape(s[1..]);
          UnescapeReplacement(Escape(s[1..]));
        } else {
          UnescapeEscape(s[n..]);
          AcceptedIsEncoding(s);
          UnescapeHigh(s[..n], Escape(s[n..]));
        }
      } else {
        UnescapeEscape(s[1..]);
        UnescapeShort(s[0], Escape(s[1..]));
      }
    }
  }

  /** For valid UTF-8 input the round trip is exact. */
  lemma UnescapeEscapeValid(s: seq<byte>)
    requires ValidUtf8(s)
    ensures Unescape(Escape(s)) == Some(s)
  {
    UnescapeEscape(s);
    SanitizeValid(s);
  }
}
