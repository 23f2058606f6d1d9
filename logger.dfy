/** The Logger (Logger.go): one slot per level, holding a prototype level
    writer for the levels at or above the minimum and the disabled writer
    below it; each level accessor hands out a clone of its prototype. */
module Logging {
  import opened Bytes
  import opened Runtime
  import opened Codec
  import opened Sinks
  import opened Levels
  import opened Records

  /** The minimum level New keeps: any level above PANIC becomes DISABLE. */
  function MinLevel(level: Level): (r: Level)
    ensures r <= DISABLE
    ensures level <= PANIC ==> r == level
    ensures level > PANIC ==> r == DISABLE
  {
    if level > PANIC then DISABLE else level
  }

  class Logger {
    const lws: array<Option<LevelWriter>>
    const writer: Sink
    const minLevel: Level
    const pattern: Pattern

    /** Slot i of a level below the minimum holds the disabled writer, and
        that of any other level a prototype writing to the Logger's writer
        in its pattern. */
    predicate SlotFits(i: int, lw: LevelWriter) {
      (i < minLevel as int ==> lw.Disabled?) &&
      (i >= minLevel as int ==>
        lw.Default? && lw.w.origin == null && lw.w.pattern == pattern && lw.w.writer == writer)
    }

    /** Eight slots; the seven levels TRACE..PANIC are filled, the DISABLE
        slot is left empty. */
    ghost predicate Valid()
      reads this, lws
    {
      lws.Length == 8 && lws[7].None? && minLevel <= DISABLE &&
      forall i :: 0 <= i < 7 ==> lws[i].Some? && SlotFits(i, lws[i].value)
    }

    /** New: the level is clamped to DISABLE and every slot filled by
        refresh, each prototype holding the level and the time. */
    constructor (writer: Sink, level: Level, pattern: Pattern, settings: Settings)
      ensures this.writer == writer && this.pattern == pattern && minLevel == MinLevel(level)
      ensures Valid() && fresh(lws)
      ensures forall i :: MinLevel(level) as int <= i < 7 ==>
                lws[i].Some? && lws[i].value.Default? && fresh(lws[i].value.w) &&
                lws[i].value.w.buffer == PrototypePrefix(pattern, i as Level, settings) &&
                lws[i].value.w.chain == Node(TimeValue, Nil)
    {
      this.writer := writer;
      this.pattern := pattern;
      minLevel := MinLevel(level);
      lws := new Option<LevelWriter>[8](_ => None);
      new;
      Refresh(settings);
    }

    /** refresh: for each level from TRACE to PANIC, the disabled writer
        below the minimum level and a new prototype otherwise. */
    method Refresh(settings: Settings)
      requires lws.Length == 8 && lws[7].None? && minLevel <= DISABLE
      modifies lws
      ensures Valid()
      ensures forall i :: minLevel as int <= i < 7 ==>
                lws[i].Some? && lws[i].value.Default? && fresh(lws[i].value.w) &&
                lws[i].value.w.buffer == PrototypePrefix(pattern, i as Level, settings) &&
                lws[i].value.w.chain == Node(TimeValue, Nil)
    {
      var disabled := new DisableLevelWriter();
      var i: Level := TRACE;
      while i <= PANIC
        invariant i <= DISABLE && lws[7].None?
        invariant forall j :: 0 <= j < i as int ==> lws[j].Some? && SlotFits(j, lws[j].value)
        invariant forall j :: minLevel as int <= j < i as int ==>
                    lws[j].Some? && lws[j].value.Default? && fresh(lws[j].value.w) &&
                    lws[j].value.w.buffer == PrototypePrefix(pattern, j as Level, settings) &&
                    lws[j].value.w.chain == Node(TimeValue, Nil)
      {
        if minLevel > i {
          lws[i] := Some(Disabled(disabled));
        } else {
          var lw := new DefaultLevelWriter.Prototype(writer, i, pattern, settings);
          lws[i] := Some(Default(lw));
        }
        i := i + 1;
      }
    }

    /** The level accessors: a new disabled writer when the level is below
        the minimum, a clone of the level's prototype otherwise. */
    method Get(level: Level) returns (r: LevelWriter)
      requires Valid() && level <= PANIC
      ensures minLevel > level ==> r.Disabled? && fresh(r.d)
      ensures minLevel <= level ==>
                r.Default? && fresh(r.w) && lws[level].Some? && lws[level].value.Default? &&
                r.w.origin == lws[level].value.w &&
                r.w.buffer == lws[level].value.w.buffer && r.w.chain == lws[level].value.w.chain &&
                r.w.pattern == pattern && r.w.writer == writer
    {
      if minLevel > level {
        var d := new DisableLevelWriter();
        return Disabled(d);
      }
      assert SlotFits(level as int, lws[level].value);
      r := CloneWriter(lws[level].value);
    }

    method Trace() returns (r: LevelWriter)
      requires Valid()
      ensures minLevel > TRACE ==> r.Disabled? && fresh(r.d)
      ensures minLevel <= TRACE ==>
                r.Default? && fresh(r.w) && lws[TRACE].Some? && lws[TRACE].value.Default? &&
                r.w.origin == lws[TRACE].value.w &&
                r.w.buffer == lws[TRACE].value.w.buffer && r.w.chain == lws[TRACE].value.w.chain &&
                r.w.pattern == pattern && r.w.writer == writer
    {
      r := Get(TRACE);
    }

    method Debug() returns (r: LevelWriter)
      requires Valid()
      ensures minLevel > DEBUG ==> r.Disabled? && fresh(r.d)
      ensures minLevel <= DEBUG ==>
                r.Default? && fresh(r.w) && lws[DEBUG].Some? && lws[DEBUG].value.Default? &&
                r.w.origin == lws[DEBUG].value.w &&
                r.w.buffer == lws[DEBUG].value.w.buffer && r.w.chain == lws[DEBUG].value.w.chain &&
                r.w.pattern == pattern && r.w.writer == writer
    {
      r := Get(DEBUG);
    }

    method Info() returns (r: LevelWriter)
      requires Valid()
      ensures minLevel > INFO ==> r.Disabled? && fresh(r.d)
      ensures minLevel <= INFO ==>
                r.Default? && fresh(r.w) && lws[INFO].Some? && lws[INFO].value.Default? &&
                r.w.origin == lws[INFO].value.w &&
                r.w.buffer == lws[INFO].value.w.buffer && r.w.chain == lws[INFO].value.w.chain &&
                r.w.pattern == pattern && r.w.writer == writer
    {
      r := Get(INFO);
    }

    method Warn() returns (r: LevelWriter)
      requires Valid()
      ensures minLevel > WARN ==> r.Disabled? && fresh(r.d)
      ensures minLevel <= WARN ==>
                r.Default? && fresh(r.w) && lws[WARN].Some? && lws[WARN].value.Default? &&
                r.w.origin == lws[WARN].value.w &&
                r.w.buffer == lws[WARN].value.w.buffer && r.w.chain == lws[WARN].value.w.chain &&
                r.w.pattern == pattern && r.w.writer == writer
    {
      r := Get(WARN);
    }

    method Error() returns (r: LevelWriter)
      requires Valid()
      ensures minLevel > ERROR ==> r.Disabled? && fresh(r.d)
      ensures minLevel <= ERROR ==>
                r.Default? && fresh(r.w) && lws[ERROR].Some? && lws[ERROR].value.Default? &&
                r.w.origin == lws[ERROR].value.w &&
                r.w.buffer == lws[ERROR].value.w.buffer && r.w.chain == lws[ERROR].value.w.chain &&
                r.w.pattern == pattern && r.w.writer == writer
    {
      r := Get(ERROR);
    }

    method Fatal() returns (r: LevelWriter)
      requires Valid()
      ensures minLevel > FATAL ==> r.Disabled? && fresh(r.d)
      ensures minLevel <= FATAL ==>
                r.Default? && fresh(r.w) && lws[FATAL].Some? && lws[FATAL].value.Default? &&
                r.w.origin == lws[FATAL].value.w &&
                r.w.buffer == lws[FATAL].value.w.buffer && r.w.chain == lws[FATAL].value.w.chain &&
                r.w.pattern == pattern && r.w.writer == writer
    {
      r := Get(FATAL);
    }

    method Panic() returns (r: LevelWriter)
      requires Valid()
      ensures minLevel > PANIC ==> r.Disabled? && fresh(r.d)
      ensures minLevel <= PANIC ==>
                r.Default? && fresh(r.w) && lws[PANIC].Some? && lws[PANIC].value.Default? &&
                r.w.origin == lws[PANIC].value.w &&
                r.w.buffer == lws[PANIC].value.w.buffer && r.w.chain == lws[PANIC].value.w.chain &&
                r.w.pattern == pattern && r.w.writer == writer
    {
      r := Get(PANIC);
    }

    /** Close: closes the writer, once. */
    method Close()
      modifies writer
      ensures writer.closes == old(writer.closes) + 1 && writer.received == old(writer.received)
    {
      writer.Close();
    }
  }

  /** From a new Logger, a message at a level at or above the minimum is
      written as the level's default line; below it nothing is written. */
  method LogAt(writer: Sink, minimum: Level, pattern: Pattern, settings: Settings, env: Env,
               level: Level, message: seq<byte>)
    returns (logger: Logger, panicked: bool)
    requires level <= PANIC
    modifies writer
    ensures !panicked
    ensures MinLevel(minimum) <= level ==>
              writer.received == old(writer.received) + [DefaultRecord(pattern, level, settings, env, message)]
    ensures MinLevel(minimum) > level ==> writer.received == old(writer.received)
  {
    logger := new Logger(writer, minimum, pattern, settings);
    var lw := logger.Get(level);
    if lw.Default? {
      assert lw.w.buffer == PrototypePrefix(pattern, level, settings);
      assert lw.w.chain == Node(TimeValue, Nil);
      DefaultRecordWritten(pattern, level, settings, env, message);
    }
    panicked := MsgWriter(lw, message, settings, env);
  }
}
