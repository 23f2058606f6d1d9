/** The level writers (LevelWriter.go). A level writer holds the record
    prefix built so far and the chain of runtime values; the Logger keeps one
    prototype per level and hands out clones of it. Field methods extend a
    clone's own prefix; AddStatic and AddRuntime change the prototype the
    clone came from. Msg computes the runtime values, finishes the record
    and writes it. */
module Records {
  import opened Bytes
  import opened Escaper
  import opened Runtime
  import opened Codec
  import opened Sinks
  import opened Levels

  const TRUE: seq<byte> := Ascii("true")
  const FALSE: seq<byte> := Ascii("false")

  /** The runtime values of `items` added one after the other, as the loop
      of Msg does; None when one of them panics. */
  function AddAll(p: Pattern, buffer: seq<byte>, items: seq<RunTimeCompute>, settings: Settings, env: Env)
    : (r: Option<seq<byte>>)
    decreases |items|
  {
    if items == [] then Some(buffer)
    else
      match AddRuntimeValues(p, buffer, items[0], settings, env)
      case None => None
      case Some(b) => AddAll(p, b, items[1..], settings, env)
  }

  /** The record Msg writes for a prefix, a chain and a message. */
  function Record(p: Pattern, buffer: seq<byte>, chain: Chain, settings: Settings, env: Env, message: seq<byte>)
    : (r: Option<seq<byte>>)
  {
    match AddAll(p, buffer, Items(chain), settings, env)
    case None => None
    case Some(b) => Some(Complete(p, AppendString(p, AppendKey(p, b, settings.messageName), message)))
  }

  /** A record is missing (Go panics) exactly when the chain holds a
      goroutine id that cannot be computed: the time and caller values
      always exist. */
  lemma {:induction false} AddAllPanics(p: Pattern, buffer: seq<byte>, items: seq<RunTimeCompute>, settings: Settings, env: Env)
    ensures AddAll(p, buffer, items, settings, env).None? <==>
            CoroutineID in items && Values(CoroutineID, settings, env).None?
    decreases |items|
  {
    if items != [] {
      assert CoroutineID in items <==> items[0] == CoroutineID || CoroutineID in items[1..] by {
        assert items == [items[0]] + items[1..];
      }
      var step := AddRuntimeValues(p, buffer, items[0], settings, env);
      if step.Some? {
        AddAllPanics(p, step.value, items[1..], settings, env);
      }
    }
  }

  /** In JSON the runtime values are only ever added after the prefix. */
  lemma {:induction false} JsonAddAllExtends(buffer: seq<byte>, items: seq<RunTimeCompute>, settings: Settings, env: Env)
    requires AddAll(Json, buffer, items, settings, env).Some?
    ensures var r := AddAll(Json, buffer, items, settings, env).value;
            |buffer| <= |r| && r[..|buffer|] == buffer
    decreases |items|
  {
    if items != [] {
      JsonRuntimeExtends(buffer, items[0], settings, env);
      var b := AddRuntimeValues(Json, buffer, items[0], settings, env).value;
      JsonAddAllExtends(b, items[1..], settings, env);
      PrefixOfPrefix(buffer, b, AddAll(Json, b, items[1..], settings, env).value);
    }
  }

  /** Completing a JSON record whose last field is a string value. */
  lemma CompleteAfterString(k: seq<byte>, e: seq<byte>)
    ensures Complete(Json, k + [QUOTE] + e + [QUOTE, COMMA]) == k + ([QUOTE] + e + [QUOTE, RBRACE, NEWLINE])
  {
    var s := k + [QUOTE] + e + [QUOTE, COMMA];
    assert s[..|s| - 1] == k + [QUOTE] + e + [QUOTE];
  }

  /** A JSON record starts with the writer's prefix and ends with the
      quoted, escaped message and the closing `}` and newline. */
  lemma JsonRecordShape(buffer: seq<byte>, chain: Chain, settings: Settings, env: Env, message: seq<byte>)
    requires Record(Json, buffer, chain, settings, env, message).Some?
    ensures var r := Record(Json, buffer, chain, settings, env, message).value;
            var tail := [QUOTE] + Escape(message) + [QUOTE, RBRACE, NEWLINE];
            |buffer| + |tail| <= |r| && r[..|buffer|] == buffer && r[|r| - |tail|..] == tail
  {
    var b := AddAll(Json, buffer, Items(chain), settings, env).value;
    JsonAddAllExtends(buffer, Items(chain), settings, env);
    var e := Escape(message);
    var k := AppendKey(Json, b, settings.messageName);
    assert AppendString(Json, k, message) == k + [QUOTE] + e + [QUOTE, COMMA];
    CompleteAfterString(k, e);
    FieldAppendsExtend(Json, b, settings.messageName, []);
    PrefixOfPrefix(buffer, b, k);
    PrefixThenTail(buffer, k, [QUOTE] + e + [QUOTE, RBRACE, NEWLINE]);
  }

  /** A prefix of k stays a prefix of k followed by a tail. */
  lemma PrefixThenTail(buffer: seq<byte>, k: seq<byte>, tail: seq<byte>)
    requires |buffer| <= |k| && k[..|buffer|] == buffer
    ensures var r := k + tail;
            |buffer| + |tail| <= |r| && r[..|buffer|] == buffer && r[|r| - |tail|..] == tail
  {
    var r := k + tail;
    assert r[..|buffer|] == k[..|buffer|];
    assert r[|r| - |tail|..] == tail;
  }

  /** The prefix a prototype starts with: the record opening and the level. */
  function PrototypePrefix(p: Pattern, level: Level, settings: Settings): seq<byte> {
    AppendString(p, AppendKey(p, Init(p, []), settings.levelName), Ascii(LevelString(level)))
  }

  lemma JsonPrototypePrefix(level: Level, settings: Settings)
    ensures PrototypePrefix(Json, level, settings) ==
            [LBRACE] + [QUOTE] + Escape(settings.levelName) + [QUOTE, COLON] + [QUOTE] +
            Escape(Ascii(LevelString(level))) + [QUOTE, COMMA]
  {
    var k := AppendKey(Json, Init(Json, []), settings.levelName);
    assert k == [LBRACE] + [QUOTE] + Escape(settings.levelName) + [QUOTE, COLON];
  }

  lemma OldPrototypePrefix(level: Level, settings: Settings)
    ensures PrototypePrefix(Old, level, settings) ==
            [TAB] + Escape(settings.levelName) + [COLON] + Escape(Ascii(LevelString(level)))
  {
    var k := AppendKey(Old, Init(Old, []), settings.levelName);
    assert k == [TAB] + Escape(settings.levelName) + [COLON];
  }

  /** The line an unchanged prototype's clone writes, in either format. */
  function DefaultRecord(p: Pattern, level: Level, settings: Settings, env: Env, message: seq<byte>): seq<byte> {
    var time := Values(TimeValue, settings, env).value;
    match p
    case Json =>
      [LBRACE, QUOTE] + Escape(settings.levelName) + [QUOTE, COLON, QUOTE] + Escape(Ascii(LevelString(level))) +
      [QUOTE, COMMA, QUOTE] + Escape(settings.timeName) + [QUOTE, COLON] + time +
      [COMMA, QUOTE] + Escape(settings.messageName) + [QUOTE, COLON, QUOTE] + Escape(message) +
      [QUOTE, RBRACE, NEWLINE]
    case Old =>
      time + [TAB] + Escape(settings.levelName) + [COLON] + Escape(Ascii(LevelString(level))) +
      [TAB] + Escape(settings.messageName) + [COLON] + Escape(message) + [NEWLINE]
  }

  /** Both formats: the record of an unchanged prototype's clone always
      exists and is the default line. */
  lemma DefaultRecordWritten(p: Pattern, level: Level, settings: Settings, env: Env, message: seq<byte>)
    ensures Record(p, PrototypePrefix(p, level, settings), Node(TimeValue, Nil), settings, env, message) ==
            Some(DefaultRecord(p, level, settings, env, message))
  {
    match p {
      case Json => DefaultJsonRecord(level, settings, env, message);
      case Old => DefaultOldRecord(level, settings, env, message);
    }
  }

  lemma JsonLine(e1: seq<byte>, e2: seq<byte>, e3: seq<byte>, t: seq<byte>, e4: seq<byte>, e5: seq<byte>)
    ensures var pre := [LBRACE] + [QUOTE] + e1 + [QUOTE, COLON] + [QUOTE] + e2 + [QUOTE, COMMA];
            var b := pre + [QUOTE] + e3 + [QUOTE, COLON] + t + [COMMA];
            var k := b + [QUOTE] + e4 + [QUOTE, COLON];
            k + ([QUOTE] + e5 + [QUOTE, RBRACE, NEWLINE]) ==
            [LBRACE, QUOTE] + e1 + [QUOTE, COLON, QUOTE] + e2 + [QUOTE, COMMA, QUOTE] + e3 + [QUOTE, COLON] + t +
            [COMMA, QUOTE] + e4 + [QUOTE, COLON, QUOTE] + e5 + [QUOTE, RBRACE, NEWLINE]
  {
  }

  /** The JSON record of an unchanged prototype's clone, written out:
      `{"level":"INFO","time":<time>,"msg":"..."}` and a newline, with the
      time bare (not quoted). */
  lemma DefaultJsonRecord(level: Level, settings: Settings, env: Env, message: seq<byte>)
    ensures var time := Values(TimeValue, settings, env).value;
            Record(Json, PrototypePrefix(Json, level, settings), Node(TimeValue, Nil), settings, env, message) ==
            Some([LBRACE, QUOTE] + Escape(settings.levelName) + [QUOTE, COLON, QUOTE] + Escape(Ascii(LevelString(level))) +
                 [QUOTE, COMMA, QUOTE] + Escape(settings.timeName) + [QUOTE, COLON] + time +
                 [COMMA, QUOTE] + Escape(settings.messageName) + [QUOTE, COLON, QUOTE] + Escape(message) +
                 [QUOTE, RBRACE, NEWLINE])
  {
    var time := Values(TimeValue, settings, env).value;
    var e1, e2, e3 := Escape(settings.levelName), Escape(Ascii(LevelString(level))), Escape(settings.timeName);
    var e4, e5 := Escape(settings.messageName), Escape(message);
    var pre := PrototypePrefix(Json, level, settings);
    JsonPrototypePrefix(level, settings);
    assert Items(Node(TimeValue, Nil)) == [TimeValue];
    assert [TimeValue][1..] == [];
    var b := AppendValue(Json, AppendKey(Json, pre, settings.timeName), time);
    assert b == pre + [QUOTE] + e3 + [QUOTE, COLON] + time + [COMMA];
    assert AddAll(Json, pre, [TimeValue], settings, env) == Some(b);
    var k := AppendKey(Json, b, settings.messageName);
    assert k == b + [QUOTE] + e4 + [QUOTE, COLON];
    assert AppendString(Json, k, message) == k + [QUOTE] + e5 + [QUOTE, COMMA];
    CompleteAfterString(k, e5);
    JsonLine(e1, e2, e3, time, e4, e5);
  }

  lemma OldLine(t: seq<byte>, e1: seq<byte>, e2: seq<byte>, e3: seq<byte>, e4: seq<byte>)
    ensures t + ([TAB] + e1 + [COLON] + e2) + [TAB] + e3 + [COLON] + e4 + [NEWLINE] ==
            t + [TAB] + e1 + [COLON] + e2 + [TAB] + e3 + [COLON] + e4 + [NEWLINE]
  {
  }

  /** The old-format record of an unchanged prototype's clone, written out:
      the time first, then `\tlevel:INFO\tmsg:...` and a newline. */
  lemma DefaultOldRecord(level: Level, settings: Settings, env: Env, message: seq<byte>)
    ensures var time := Values(TimeValue, settings, env).value;
            Record(Old, PrototypePrefix(Old, level, settings), Node(TimeValue, Nil), settings, env, message) ==
            Some(time + [TAB] + Escape(settings.levelName) + [COLON] + Escape(Ascii(LevelString(level))) +
                 [TAB] + Escape(settings.messageName) + [COLON] + Escape(message) + [NEWLINE])
  {
    var time := Values(TimeValue, settings, env).value;
    var e1, e2 := Escape(settings.levelName), Escape(Ascii(LevelString(level)));
    var e3, e4 := Escape(settings.messageName), Escape(message);
    var pre := PrototypePrefix(Old, level, settings);
    OldPrototypePrefix(level, settings);
    assert Items(Node(TimeValue, Nil)) == [TimeValue];
    assert [TimeValue][1..] == [];
    assert AddAll(Old, pre, [TimeValue], settings, env) == Some(time + pre);
    assert Record(Old, pre, Node(TimeValue, Nil), settings, env, message) ==
           Some(time + pre + [TAB] + e3 + [COLON] + e4 + [NEWLINE]);
    OldLine(time, e1, e2, e3, e4);
  }

  /** DefaultLevelWriter. `origin` is the writer this one was cloned from;
      a writer with no origin is a prototype. */
  class DefaultLevelWriter {
    var buffer: seq<byte>
    var chain: Chain
    const pattern: Pattern
    const writer: Sink
    const origin: DefaultLevelWriter?

    /** The writer AddStatic and AddRuntime change: the origin, or this
        writer when it has none. */
    function Root(): (r: DefaultLevelWriter)
      ensures origin == null ==> r == this
      ensures origin != null ==> r == origin
    {
      if origin == null then this else origin
    }

    /** newDefaultLevelWriter: the record opening, the level as a static
        field, and the time as the one runtime value. */
    constructor Prototype(writer: Sink, level: Level, pattern: Pattern, settings: Settings)
      ensures this.writer == writer && this.pattern == pattern && origin == null
      ensures buffer == PrototypePrefix(pattern, level, settings)
      ensures chain == Node(TimeValue, Nil)
    {
      this.writer := writer;
      this.pattern := pattern;
      origin := null;
      buffer := Init(pattern, []);
      chain := Nil;
      new;
      var _ := AddStatic(settings.levelName, Ascii(LevelString(level)));
      var _ := AddRuntime(Some(TimeValue));
    }

    /** The object clone allocates: a copy of the source's prefix and chain,
        sharing its pattern and writer, with the source as origin. */
    constructor Copy(source: DefaultLevelWriter)
      ensures buffer == source.buffer && chain == source.chain
      ensures pattern == source.pattern && writer == source.writer && origin == source
    {
      buffer := source.buffer;
      chain := source.chain;
      pattern := source.pattern;
      writer := source.writer;
      origin := source;
    }

    /** clone: a new writer with this writer's prefix and chain. Later
        appends to either do not show in the other. */
    method Clone() returns (r: DefaultLevelWriter)
      ensures fresh(r) && r.origin == this
      ensures r.buffer == buffer && r.chain == chain && r.pattern == pattern && r.writer == writer
    {
      r := new DefaultLevelWriter.Copy(this);
    }

    /** AddRuntime: a present value is put at the head of the origin's chain
        (of this writer's chain for a prototype), and both this writer and
        the origin then hold the new chain; an absent one changes nothing. */
    method AddRuntime(r: Option<RunTimeCompute>) returns (res: DefaultLevelWriter)
      modifies this, Root()
      ensures res == this && buffer == old(buffer) && Root().buffer == old(Root().buffer)
      ensures r.Some? ==> chain == Node(r.value, old(Root().chain)) && Root().chain == chain
      ensures r.Some? ==> Items(chain) == [r.value] + old(Items(Root().chain))
      ensures r.None? ==> chain == old(chain) && Root().chain == old(Root().chain)
    {
      var or := Root();
      if r.Some? {
        var rs := Node(r.value, or.chain);
        chain := rs;
        or.chain := rs;
      }
      res := this;
    }

    /** AddStatic: the field is appended to the origin's prefix (to this
        writer's for a prototype), and the result is a fresh clone of the
        origin; this writer's own prefix is left alone when it has an
        origin. */
    method AddStatic(name: seq<byte>, value: seq<byte>) returns (res: DefaultLevelWriter)
      modifies Root()
      ensures Root().buffer == AppendString(pattern, AppendKey(pattern, old(Root().buffer), name), value)
      ensures Root().chain == old(Root().chain)
      ensures Root() != this ==> buffer == old(buffer) && chain == old(chain)
      ensures fresh(res) && res.origin == Root() && res.buffer == Root().buffer && res.chain == Root().chain
      ensures res.pattern == Root().pattern && res.writer == Root().writer
    {
      var or := Root();
      or.buffer := AppendKey(pattern, or.buffer, name);
      or.buffer := AppendString(pattern, or.buffer, value);
      res := or.Clone();
    }

    /** Hex: the key, then the value as a signed base-16 integer. */
    method Hex(key: seq<byte>, value: int64) returns (res: DefaultLevelWriter)
      modifies this
      ensures res == this && chain == old(chain)
      ensures buffer == AppendInt64(pattern, AppendKey(pattern, old(buffer), key), value, 16)
    {
      buffer := AppendKey(pattern, buffer, key);
      buffer := AppendInt64(pattern, buffer, value, 16);
      res := this;
    }

    /** Bytes: the key, then the bytes as a raw value. */
    method Bytes(key: seq<byte>, bytes: seq<byte>) returns (res: DefaultLevelWriter)
      modifies this
      ensures res == this && chain == old(chain)
      ensures buffer == AppendValue(pattern, AppendKey(pattern, old(buffer), key), bytes)
    {
      buffer := AppendKey(pattern, buffer, key);
      buffer := AppendValue(pattern, buffer, bytes);
      res := this;
    }

    /** Int: Go's int is 64 bits wide on the platforms the package targets. */
    method Int(key: seq<byte>, value: int64) returns (res: DefaultLevelWriter)
      modifies this
      ensures res == this && chain == old(chain)
      ensures buffer == AppendInt64(pattern, AppendKey(pattern, old(buffer), key), value, 10)
    {
      buffer := AppendKey(pattern, buffer, key);
      buffer := AppendInt64(pattern, buffer, value, 10);
      res := this;
    }

    method Int64(key: seq<byte>, value: int64) returns (res: DefaultLevelWriter)
      modifies this
      ensures res == this && chain == old(chain)
      ensures buffer == AppendInt64(pattern, AppendKey(pattern, old(buffer), key), value, 10)
    {
      buffer := AppendKey(pattern, buffer, key);
      buffer := AppendInt64(pattern, buffer, value, 10);
      res := this;
    }

    method Uint64(key: seq<byte>, value: uint64) returns (res: DefaultLevelWriter)
      modifies this
      ensures res == this && chain == old(chain)
      ensures buffer == AppendUint64(pattern, AppendKey(pattern, old(buffer), key), value, 10)
    {
      buffer := AppendKey(pattern, buffer, key);
      buffer := AppendUint64(pattern, buffer, value, 10);
      res := this;
    }

    /** Uint: Go's uint is 64 bits wide on the platforms the package targets. */
    method Uint(key: seq<byte>, value: uint64) returns (res: DefaultLevelWriter)
      modifies this
      ensures res == this && chain == old(chain)
      ensures buffer == AppendUint64(pattern, AppendKey(pattern, old(buffer), key), value, 10)
    {
      buffer := AppendKey(pattern, buffer, key);
      buffer := AppendUint64(pattern, buffer, value, 10);
      res := this;
    }

    method String(key: seq<byte>, value: seq<byte>) returns (res: DefaultLevelWriter)
      modifies this
      ensures res == this && chain == old(chain)
      ensures buffer == AppendString(pattern, AppendKey(pattern, old(buffer), key), value)
    {
      buffer := AppendKey(pattern, buffer, key);
      buffer := AppendString(pattern, buffer, value);
      res := this;
    }

    /** Bool: the key, then `true` or `false` as a raw value. */
    method Bool(key: seq<byte>, b: bool) returns (res: DefaultLevelWriter)
      modifies this
      ensures res == this && chain == old(chain)
      ensures buffer == AppendValue(pattern, AppendKey(pattern, old(buffer), key), if b then TRUE else FALSE)
    {
      buffer := AppendKey(pattern, buffer, key);
      if b {
        buffer := AppendValue(pattern, buffer, TRUE);
      } else {
        buffer := AppendValue(pattern, buffer, FALSE);
      }
      res := this;
    }

    /** Msg: walks the chain adding each runtime value, then the message
        under the message name, completes the record and hands it to the
        writer, ignoring the writer's error. The writer's own prefix is not
        changed. `panicked` reports the panic of a goroutine id that cannot
        be computed, in which case nothing is written. */
    method Msg(message: seq<byte>, settings: Settings, env: Env) returns (panicked: bool)
      modifies writer
      ensures panicked <==> Record(pattern, buffer, chain, settings, env, message).None?
      ensures !panicked ==> writer.received == old(writer.received) + [Record(pattern, buffer, chain, settings, env, message).value]
      ensures panicked ==> writer.received == old(writer.received)
      ensures writer.closes == old(writer.closes)
    {
      var buf := buffer;
      var run := chain;
      while run.Node?
        invariant AddAll(pattern, buf, Items(run), settings, env) == AddAll(pattern, buffer, Items(chain), settings, env)
        decreases run
      {
        var next := AddRuntimeValues(pattern, buf, run.curr, settings, env);
        if next.None? {
          return true;
        }
        buf := next.value;
        run := run.next;
      }
      buf := AppendKey(pattern, buf, settings.messageName);
      buf := AppendString(pattern, buf, message);
      buf := Complete(pattern, buf);
      var _, _ := writer.Write(buf);
      return false;
    }
  }

  /** DisableLevelWriter: every method ignores its arguments and returns the
      writer itself; Msg writes nothing. */
  class DisableLevelWriter {
    constructor ()
    {
    }

    method Field() returns (res: DisableLevelWriter)
      ensures res == this
    {
      res := this;
    }

    method Msg(message: seq<byte>)
    {
    }
  }

  /** The LevelWriter interface: the two kinds of level writer. */
  datatype LevelWriter = Default(w: DefaultLevelWriter) | Disabled(d: DisableLevelWriter)

  /** LevelWriter.clone: a disabled writer clones to itself. */
  method CloneWriter(lw: LevelWriter) returns (r: LevelWriter)
    ensures lw.Disabled? ==> r == lw
    ensures lw.Default? ==>
              r.Default? && fresh(r.w) && r.w.origin == lw.w && r.w.buffer == lw.w.buffer && r.w.chain == lw.w.chain &&
              r.w.pattern == lw.w.pattern && r.w.writer == lw.w.writer
  {
    match lw
    case Default(w) =>
      var c := w.Clone();
      r := Default(c);
    case Disabled(_) =>
      r := lw;
  }

  /** LevelWriter.String: a disabled writer is returned unchanged and
      nothing else changes. */
  method StringField(lw: LevelWriter, key: seq<byte>, value: seq<byte>) returns (r: LevelWriter)
    modifies if lw.Default? then {lw.w} else {}
    ensures r == lw
    ensures lw.Default? ==> lw.w.chain == old(lw.w.chain)
    ensures lw.Default? ==> lw.w.buffer == AppendString(lw.w.pattern, AppendKey(lw.w.pattern, old(lw.w.buffer), key), value)
  {
    match lw {
      case Default(w) =>
        var _ := w.String(key, value);
      case Disabled(d) =>
        var _ := d.Field();
    }
    r := lw;
  }

  /** LevelWriter.Msg: a disabled writer writes nothing. */
  method MsgWriter(lw: LevelWriter, message: seq<byte>, settings: Settings, env: Env) returns (panicked: bool)
    modifies if lw.Default? then {lw.w.writer} else {}
    ensures lw.Disabled? ==> !panicked
    ensures lw.Default? ==>
              var rec := Record(lw.w.pattern, lw.w.buffer, lw.w.chain, settings, env, message);
              (panicked <==> rec.None?) &&
              lw.w.writer.received == old(lw.w.writer.received) + (if rec.Some? then [rec.value] else [])
  {
    match lw
    case Default(w) =>
      panicked := w.Msg(message, settings, env);
    case Disabled(d) =>
      d.Msg(message);
      panicked := false;
  }
}
