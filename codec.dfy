/** The two record formats (jsonPattern.go, oldPattern.go): a JSON object
    per line, and the tab-separated "old" line format. Each operation takes
    the record built so far and returns it extended; `Complete` and the time
    prepend of the old format also exist as in-place operations on a Go
    slice, held as an array and a length. */
module Codec {
  import opened Bytes
  import opened Escaper
  import opened Runtime

  datatype Pattern = Json | Old

  const COMMA: byte := 0x2C
  const COLON: byte := 0x3A
  const TAB: byte := 0x09
  const NEWLINE: byte := 0x0A
  const LBRACE: byte := 0x7B
  const RBRACE: byte := 0x7D

  /** init: a JSON record opens with `{`; an old-format record starts empty. */
  function Init(p: Pattern, buffer: seq<byte>): (r: seq<byte>)
    ensures p.Json? ==> r == buffer + [LBRACE]
    ensures p.Old? ==> r == buffer
  {
    match p
    case Json => buffer + [LBRACE]
    case Old => buffer
  }

  /** AppendKey: the escaped key, quoted and followed by `:` in JSON, after
      a tab and followed by `:` in the old format. */
  function AppendKey(p: Pattern, buffer: seq<byte>, key: seq<byte>): (r: seq<byte>)
  {
    match p
    case Json => buffer + [QUOTE] + Escape(key) + [QUOTE, COLON]
    case Old => buffer + [TAB] + Escape(key) + [COLON]
  }

  /** AppendValue: raw bytes, neither escaped nor quoted; JSON adds `,`. */
  function AppendValue(p: Pattern, buffer: seq<byte>, value: seq<byte>): (r: seq<byte>)
  {
    match p
    case Json => buffer + value + [COMMA]
    case Old => buffer + value
  }

  /** AppendInt64: strconv.AppendInt in `base` (which panics outside 2..36). */
  function AppendInt64(p: Pattern, buffer: seq<byte>, value: int64, base: nat): (r: seq<byte>)
    requires 2 <= base <= 36
  {
    match p
    case Json => buffer + FormatInt(value as int, base) + [COMMA]
    case Old => buffer + FormatInt(value as int, base)
  }

  /** AppendUint64: strconv.AppendUint in `base`. */
  function AppendUint64(p: Pattern, buffer: seq<byte>, value: uint64, base: nat): (r: seq<byte>)
    requires 2 <= base <= 36
  {
    match p
    case Json => buffer + FormatNat(value as nat, base) + [COMMA]
    case Old => buffer + FormatNat(value as nat, base)
  }

  /** AppendUint32: the value widened to uint64, then as AppendUint64. */
  function AppendUint32(p: Pattern, buffer: seq<byte>, value: uint32, base: nat): (r: seq<byte>)
    requires 2 <= base <= 36
    ensures r == AppendUint64(p, buffer, value as int as uint64, base)
  {
    match p
    case Json => buffer + FormatNat(value as nat, base) + [COMMA]
    case Old => buffer + FormatNat(value as nat, base)
  }

  /** AppendString: the escaped value, quoted and followed by `,` in JSON,
      bare in the old format. */
  function AppendString(p: Pattern, buffer: seq<byte>, value: seq<byte>): (r: seq<byte>)
  {
    match p
    case Json => buffer + [QUOTE] + Escape(value) + [QUOTE, COMMA]
    case Old => buffer + Escape(value)
  }

  /** Complete: JSON overwrites the last byte (the `,` after the last field)
      with `}` and adds a newline (Go panics on an empty buffer); the old
      format only adds the newline. */
  function Complete(p: Pattern, buffer: seq<byte>): (r: seq<byte>)
    requires p.Json? ==> buffer != []
    ensures |r| == |buffer| + 1 && r[|buffer|] == NEWLINE
    ensures p.Json? ==> r[..|buffer| - 1] == buffer[..|buffer| - 1] && r[|buffer| - 1] == RBRACE
    ensures p.Old? ==> r[..|buffer|] == buffer
  {
    match p
    case Json => buffer[..|buffer| - 1] + [RBRACE, NEWLINE]
    case Old => buffer + [NEWLINE]
  }

  /** addRuntimeValues: the value's name as a key and its text as a raw
      value, except that the old format puts a time value, without a key, in
      front of everything written so far. None when computing the value
      panics. */
  function AddRuntimeValues(p: Pattern, buffer: seq<byte>, r: RunTimeCompute, settings: Settings, env: Env)
    : (result: Option<seq<byte>>)
    ensures result.Some? <==> Values(r, settings, env).Some?
    ensures result.Some? && p.Old? && r.TimeValue? ==>
              result.value == Values(r, settings, env).value + buffer
    ensures result.Some? && !(p.Old? && r.TimeValue?) ==>
              result.value == AppendValue(p, AppendKey(p, buffer, GetName(r, settings)), Values(r, settings, env).value)
  {
    match Values(r, settings, env)
    case None => None
    case Some(v) =>
      if p.Old? && r.TimeValue? then Some(v + buffer)
      else Some(AppendValue(p, AppendKey(p, buffer, GetName(r, settings)), v))
  }

  // ---------------------------------------------------------------------
  // What a reader of the record gets back.

  /** A JSON key is the quoted escaped text: a JSON reader gets back the key
      (with undecodable bytes read as U+FFFD), and the key is never cut short
      by a raw quote or control byte. */
  lemma JsonKeyReadsBack(buffer: seq<byte>, key: seq<byte>)
    ensures var r := AppendKey(Json, buffer, key);
            var body := r[|buffer| + 1..|r| - 2];
            r[..|buffer|] == buffer && r[|buffer|] == QUOTE && r[|r| - 2..] == [QUOTE, COLON] &&
            Unescape(body) == Some(Sanitize(key)) && NoControl(body)
  {
    var r := AppendKey(Json, buffer, key);
    assert r[|buffer| + 1..|r| - 2] == Escape(key);
    UnescapeEscape(key);
    EscapeNoControlBytes(key);
  }

  /** Likewise for a JSON string value, which ends in `",`. */
  lemma JsonStringReadsBack(buffer: seq<byte>, value: seq<byte>)
    ensures var r := AppendString(Json, buffer, value);
            var body := r[|buffer| + 1..|r| - 2];
            r[..|buffer|] == buffer && r[|buffer|] == QUOTE && r[|r| - 2..] == [QUOTE, COMMA] &&
            Unescape(body) == Some(Sanitize(value)) && NoControl(body)
  {
    var r := AppendString(Json, buffer, value);
    assert r[|buffer| + 1..|r| - 2] == Escape(value);
    UnescapeEscape(value);
    EscapeNoControlBytes(value);
  }

  /** An integer field holds exactly the digits that read back as the value,
      followed by `,` in JSON; a `-` appears only for negative values. */
  lemma IntegerReadsBack(p: Pattern, buffer: seq<byte>, value: int64, base: nat)
    requires 2 <= base <= 36
    ensures var r := AppendInt64(p, buffer, value, base);
            var digits := if p.Json? then r[|buffer|..|r| - 1] else r[|buffer|..];
            r[..|buffer|] == buffer && (p.Json? ==> r[|r| - 1] == COMMA) &&
            ParseInt(digits, base) == Some(value as int) && (digits[0] == MINUS <==> value < 0)
  {
    var r := AppendInt64(p, buffer, value, base);
    var d := FormatInt(value as int, base);
    if p.Json? {
      assert r[|buffer|..|r| - 1] == d;
    } else {
      assert r[|buffer|..] == d;
    }
    FormatIntRoundTrip(value as int, base);
  }

  /** An unsigned field reads back as the value and never starts with a sign;
      it starts with `0` only for zero. */
  lemma UnsignedReadsBack(p: Pattern, buffer: seq<byte>, value: uint64, base: nat)
    requires 2 <= base <= 36
    ensures var r := AppendUint64(p, buffer, value, base);
            var digits := if p.Json? then r[|buffer|..|r| - 1] else r[|buffer|..];
            r[..|buffer|] == buffer && (p.Json? ==> r[|r| - 1] == COMMA) &&
            ParseNat(digits, base) == value as int && digits[0] != MINUS &&
            (digits[0] == 0x30 <==> value == 0)
  {
    var r := AppendUint64(p, buffer, value, base);
    var d := FormatNat(value as nat, base);
    if p.Json? {
      assert r[|buffer|..|r| - 1] == d;
    } else {
      assert r[|buffer|..] == d;
    }
    FormatNatRoundTrip(value as nat, base);
    FormatNatNoLeadingZero(value as nat, base);
    assert DigitValue(d[0]) >= 0;
  }

  /** The field appends of both formats only ever add bytes at the end, and
      in JSON every one of them (AppendKey aside) ends with `,`. */
  lemma FieldAppendsExtend(p: Pattern, buffer: seq<byte>, key: seq<byte>, value: seq<byte>)
    ensures var k := AppendKey(p, buffer, key);
            var s := AppendString(p, buffer, value);
            var v := AppendValue(p, buffer, value);
            k[..|buffer|] == buffer && s[..|buffer|] == buffer && v[..|buffer|] == buffer &&
            |k| > |buffer| && |v| >= |buffer| &&
            (p.Json? ==> s[|s| - 1] == COMMA && v[|v| - 1] == COMMA)
  {
    var k := AppendKey(p, buffer, key);
    var s := AppendString(p, buffer, value);
    var v := AppendValue(p, buffer, value);
    match p {
      case Json =>
        assert k == buffer + ([QUOTE] + Escape(key) + [QUOTE, COLON]);
        assert s == buffer + ([QUOTE] + Escape(value) + [QUOTE, COMMA]);
        assert v == buffer + (value + [COMMA]);
      case Old =>
        assert k == buffer + ([TAB] + Escape(key) + [COLON]);
        assert s == buffer + Escape(value);
    }
  }

  /** A prefix of a prefix is a prefix. */
  lemma PrefixOfPrefix(a: seq<byte>, b: seq<byte>, c: seq<byte>)
    requires |a| <= |b| && b[..|a|] == a
    requires |b| <= |c| && c[..|b|] == b
    ensures |a| <= |c| && c[..|a|] == a
  {
    assert c[..|a|] == c[..|b|][..|a|];
  }

  /** In JSON a runtime value is a key and a value appended after the
      buffer, which it leaves in place. */
  lemma JsonRuntimeExtends(buffer: seq<byte>, r: RunTimeCompute, settings: Settings, env: Env)
    requires Values(r, settings, env).Some?
    ensures var b := AddRuntimeValues(Json, buffer, r, settings, env).value;
            |buffer| <= |b| && b[..|buffer|] == buffer
  {
    var k := AppendKey(Json, buffer, GetName(r, settings));
    FieldAppendsExtend(Json, buffer, GetName(r, settings), []);
    FieldAppendsExtend(Json, k, [], Values(r, settings, env).value);
    PrefixOfPrefix(buffer, k, AppendValue(Json, k, Values(r, settings, env).value));
  }

  /** A JSON record whose last field ended in `,` is closed as an object:
      that comma becomes `}` and the line ends. */
  lemma JsonCompleteClosesObject(buffer: seq<byte>)
    requires buffer != [] && buffer[|buffer| - 1] == COMMA
    ensures Complete(Json, buffer) == buffer[..|buffer| - 1] + [RBRACE, NEWLINE]
    ensures |Complete(Json, buffer)| == |buffer| + 1
  {
  }

  /** In the old format a time value moves to the front, ahead of all the
      fields written so far, which keep their order. */
  lemma OldTimeValueLeads(buffer: seq<byte>, settings: Settings, env: Env)
    ensures var r := AddRuntimeValues(Old, buffer, TimeValue, settings, env);
            var v := Values(TimeValue, settings, env).value;
            r.Some? && |r.value| == |v| + |buffer| && r.value[..|v|] == v && r.value[|v|..] == buffer
  {
  }

  // ---------------------------------------------------------------------
  // The in-place operations, on a Go slice held as (array, length).

  /** Go's `append(s, v...)` on the slice a[..n] of capacity a.Length: in
      place when the capacity suffices, otherwise into a new array (Go's
      growth policy is not modelled: the new array is just large enough). */
  method Append(a: array<byte>, n: nat, v: seq<byte>) returns (b: array<byte>, m: nat)
    requires n <= a.Length
    modifies a
    ensures m == n + |v| && m <= b.Length
    ensures b[..m] == old(a[..n]) + v
    ensures n + |v| <= a.Length ==> b == a && a[m..] == old(a[m..])
    ensures n + |v| > a.Length ==> fresh(b) && a[..] == old(a[..])
  {
    if n + |v| <= a.Length {
      b := a;
    } else {
      b := new byte[n + |v|](j => 0);
      var j := 0;
      while j < n
        invariant 0 <= j <= n
        invariant b[..j] == a[..j]
        modifies b
      {
        b[j] := a[j];
        j := j + 1;
      }
    }
    m := n;
    ghost var prefix := b[..n];
    var j := 0;
    while j < |v|
      invariant 0 <= j <= |v| && m == n + j
      invariant b[..m] == prefix + v[..j]
      invariant b == a ==> a[n + |v|..] == old(a[n + |v|..])
      modifies b
    {
      b[m] := v[j];
      assert b[..m + 1] == b[..m] + [v[j]];
      m := m + 1;
      j := j + 1;
    }
    assert v[..j] == v;
  }

  /** Go's built-in `copy(a[to:], a[from:from+count])` within one array: the
      bytes are moved as if through a temporary buffer, so the source and
      destination may overlap. */
  method Move(a: array<byte>, from: nat, to: nat, count: nat)
    requires from + count <= a.Length && to + count <= a.Length
    modifies a
    ensures forall t :: 0 <= t < a.Length ==>
              a[t] == if to <= t < to + count then old(a[from + t - to]) else old(a[t])
  {
    if to <= from {
      var j := 0;
      while j < count
        invariant 0 <= j <= count
        invariant forall t :: 0 <= t < a.Length ==>
                    a[t] == if to <= t < to + j then old(a[from + t - to]) else old(a[t])
      {
        a[to + j] := a[from + j];
        j := j + 1;
      }
    } else {
      var j := count;
      while j > 0
        invariant 0 <= j <= count
        invariant forall t :: 0 <= t < a.Length ==>
                    a[t] == if to + j <= t < to + count then old(a[from + t - to]) else old(a[t])
      {
        a[to + j - 1] := a[from + j - 1];
        j := j - 1;
      }
    }
  }

  /** JsonPattern.Complete in place: the last byte of the slice is
      overwritten with `}` and a newline is appended. */
  method JsonCompleteInPlace(a: array<byte>, n: nat) returns (b: array<byte>, m: nat)
    requires 0 < n <= a.Length
    modifies a
    ensures m <= b.Length && b[..m] == Complete(Json, old(a[..n]))
  {
    a[n - 1] := RBRACE;
    assert a[..n] == old(a[..n - 1]) + [RBRACE];
    b, m := Append(a, n, [NEWLINE]);
  }

  /** OldPattern.addRuntimeValues for a time value, in place: the value is
      appended (growing the slice by its length), the old contents are
      shifted right over it with an overlapping copy, and the value is
      copied into the front. */
  method OldPrependInPlace(a: array<byte>, n: nat, val: seq<byte>) returns (b: array<byte>, m: nat)
    requires n <= a.Length
    modifies a
    ensures m <= b.Length && b[..m] == val + old(a[..n])
  {
    ghost var content := a[..n];
    b, m := Append(a, n, val);
    assert forall t :: 0 <= t < n ==> b[t] == content[t];
    // copy(buffer[len(val):], buffer) moves min(m - |val|, m) = n bytes.
    Move(b, 0, |val|, n);
    assert forall t :: |val| <= t < m ==> b[t] == content[t - |val|];
    // copy(buffer, val)
    CopyFront(b, val, content, m);
  }

  /** The final copy of the time value into the front of the buffer, whose
      bytes from |val| to m already hold the old contents. */
  method CopyFront(b: array<byte>, val: seq<byte>, ghost content: seq<byte>, m: nat)
    requires m == |val| + |content| && m <= b.Length
    requires forall t :: |val| <= t < m ==> b[t] == content[t - |val|]
    modifies b
    ensures b[..m] == val + content
  {
    var j := 0;
    while j < |val|
      invariant 0 <= j <= |val|
      invariant forall t :: 0 <= t < j ==> b[t] == val[t]
      invariant forall t :: |val| <= t < m ==> b[t] == content[t - |val|]
    {
      b[j] := val[j];
      j := j + 1;
    }
    assert b[..m] == val + content;
  }
}
