/** The configuration validator (config.go): the decoded configuration is a
    JSON value; completionConfig works out the default level, pattern and
    writer, checks them, and then walks the `Logs` array, filling in or
    lower-casing each entry's names in place and checking them against the
    registries that init fills and RegisterInitRef extends. It stops at the
    first problem, leaving the entries it already rewrote rewritten. */
module Config {
  import opened Bytes
  import opened Levels

  /** A value as encoding/json decodes it into interface{}. Numbers are
      whole numbers here. */
  datatype Json =
    | JNull
    | JBool(b: bool)
    | JNum(n: int)
    | JStr(s: string)
    | JArr(items: seq<Json>)
    | JObj(fields: map<string, Json>)

  /** The error types of config.go, and the panic of a failed `.(string)`
      type assertion on the value under `key`. */
  datatype ConfigError =
    | NotNil(what: string)
    | NotUnderstand(what: string)
    | MistakeType(expected: string, practical: string)
    | AssertionPanic(key: string)

  datatype Result<T> = Ok(value: T) | Err(error: ConfigError)

  /** What a step produced, with the error it stopped at, if any. */
  datatype Outcome<T> = Outcome(value: T, err: Option<ConfigError>)

  const NOT_NIL_SUFFIX: string := "不能为空"
  const NOT_UNDERSTAND_PREFIX: string := "不能理解的值:"

  /** The Error methods of the error types. */
  function ErrorText(e: ConfigError): (r: string)
    requires !e.AssertionPanic?
  {
    match e
    case NotNil(what) => what + NOT_NIL_SUFFIX
    case NotUnderstand(what) => NOT_UNDERSTAND_PREFIX + what
    case MistakeType(expected, practical) => "错误的格式。预期:" + expected + "　实际:" + practical
  }

  /** The text of a NotNil or NotUnderstand error gives back what it names. */
  lemma ErrorTextNames(e: ConfigError, f: ConfigError)
    requires (e.NotNil? && f.NotNil?) || (e.NotUnderstand? && f.NotUnderstand?)
    requires ErrorText(e) == ErrorText(f)
    ensures e == f
  {
    var t := ErrorText(e);
    if e.NotNil? {
      assert e.what == t[..|t| - |NOT_NIL_SUFFIX|];
      assert f.what == t[..|t| - |NOT_NIL_SUFFIX|];
    } else {
      assert e.what == t[|NOT_UNDERSTAND_PREFIX|..];
      assert f.what == t[|NOT_UNDERSTAND_PREFIX|..];
    }
  }

  // ---------------------------------------------------------------------
  // The registries.

  /** What a registered name stands for: the zero value of a pattern or
      writer type, or a type some program registered. */
  datatype Kind =
    | JsonPatternKind
    | OldPatternKind
    | StdoutKind
    | FileWriterKind
    | MultipleWriterKind
    | UserKind(name: string)

  /** The three registries at one moment. */
  datatype Registries = Registries(levels: map<string, Level>, patterns: map<string, Kind>, writers: map<string, Kind>)

  const LEVEL_NAMES: map<string, Level> :=
    map["trace" := TRACE, "debug" := DEBUG, "info" := INFO, "warn" := WARN,
        "error" := ERROR, "fatal" := FATAL, "panic" := PANIC, "disable" := DISABLE]

  /** The level registry names every level, each by its lower-cased
      Level.String name, except DISABLE, whose String is empty. */
  lemma LevelNamesAgree(l: Level)
    requires l <= DISABLE
    ensures l <= PANIC ==> ToLower(LevelString(l)) in LEVEL_NAMES && LEVEL_NAMES[ToLower(LevelString(l))] == l
    ensures l == DISABLE ==> LevelString(l) !in LEVEL_NAMES && LEVEL_NAMES["disable"] == l
    ensures exists name :: name in LEVEL_NAMES && LEVEL_NAMES[name] == l
  {
    var name: string;
    if l == TRACE {
      name := "trace";
      assert ToLower("TRACE") == name;
    } else if l == DEBUG {
      name := "debug";
      assert ToLower("DEBUG") == name;
    } else if l == INFO {
      name := "info";
      assert ToLower("INFO") == name;
    } else if l == WARN {
      name := "warn";
      assert ToLower("WARN") == name;
    } else if l == ERROR {
      name := "error";
      assert ToLower("ERROR") == name;
    } else if l == FATAL {
      name := "fatal";
      assert ToLower("FATAL") == name;
    } else if l == PANIC {
      name := "panic";
      assert ToLower("PANIC") == name;
    } else {
      name := "disable";
    }
    assert name in LEVEL_NAMES && LEVEL_NAMES[name] == l;
  }

  /** What a RegisterInitRef callback adds to the pattern and writer
      registries. */
  datatype Registration = Registration(patterns: map<string, Kind>, writers: map<string, Kind>)

  /** The package-level registries refLevel, refPattern and refWriter. */
  class Registry {
    var levels: map<string, Level>
    var patterns: map<string, Kind>
    var writers: map<string, Kind>

    function Snapshot(): (r: Registries)
      reads this
      ensures r.levels == levels && r.patterns == patterns && r.writers == writers
    {
      Registries(levels, patterns, writers)
    }

    /** init: the eight level names, the two patterns and the three writers. */
    constructor ()
      ensures levels == LEVEL_NAMES
      ensures patterns.Keys == {"jsonpattern", "old"} && writers.Keys == {"console", "file", "multiple"}
      ensures patterns["jsonpattern"] == JsonPatternKind && patterns["old"] == OldPatternKind
      ensures writers["console"] == StdoutKind && writers["file"] == FileWriterKind &&
              writers["multiple"] == MultipleWriterKind
    {
      levels := map[];
      patterns := map[];
      writers := map[];
      new;
      levels := levels["trace" := TRACE];
      levels := levels["debug" := DEBUG];
      levels := levels["info" := INFO];
      levels := levels["warn" := WARN];
      levels := levels["error" := ERROR];
      levels := levels["fatal" := FATAL];
      levels := levels["panic" := PANIC];
      levels := levels["disable" := DISABLE];
      patterns := patterns["jsonpattern" := JsonPatternKind];
      patterns := patterns["old" := OldPatternKind];
      writers := writers["console" := StdoutKind];
      writers := writers["file" := FileWriterKind];
      writers := writers["multiple" := MultipleWriterKind];
    }

    /** RegisterInitRef: a missing callback is an error and changes nothing;
        otherwise the callback's entries are added, replacing earlier
        entries under the same names. */
    method RegisterInitRef(init: Option<Registration>) returns (err: Option<ConfigError>)
      modifies this
      ensures init.None? ==> err == Some(NotNil("初始化方法　initRef")) && unchanged(this)
      ensures init.Some? ==>
                err.None? && levels == old(levels) &&
                patterns == old(patterns) + init.value.patterns && writers == old(writers) + init.value.writers
    {
      if init.None? {
        return Some(NotNil("初始化方法　initRef"));
      }
      patterns := patterns + init.value.patterns;
      writers := writers + init.value.writers;
      err := None;
    }
  }

  /** checkCorrect: the level, then the pattern, then the writer are looked
      up; the first one missing is reported, tagged with the id. */
  function CheckCorrect(regs: Registries, id: string, logLevel: string, pattern: string, writer: string)
    : (r: Option<ConfigError>)
    ensures r.None? <==> logLevel in regs.levels && pattern in regs.patterns && writer in regs.writers
    ensures logLevel !in regs.levels ==> r == Some(MistakeType("id:" + id + ",trace..disable", logLevel))
    ensures logLevel in regs.levels && pattern !in regs.patterns ==> r == Some(NotUnderstand("id:" + id + ",Pattern"))
    ensures logLevel in regs.levels && pattern in regs.patterns && writer !in regs.writers ==>
              r == Some(NotUnderstand("id:" + id + ",Writer"))
  {
    if logLevel !in regs.levels then Some(MistakeType("id:" + id + ",trace..disable", logLevel))
    else if pattern !in regs.patterns then Some(NotUnderstand("id:" + id + ",Pattern"))
    else if writer !in regs.writers then Some(NotUnderstand("id:" + id + ",Writer"))
    else None
  }

  // ---------------------------------------------------------------------
  // The defaults.

  predicate NoUpper(s: string) {
    forall i :: 0 <= i < |s| ==> !('A' <= s[i] <= 'Z')
  }

  /** The global LogLevel: "debug" when missing, a string lower-cased, and
      a number converted to a Level as Go converts a float64 to a uint8
      (taken modulo 256) and named by Level.String, lower-cased. */
  function DefaultLevel(config: map<string, Json>): (r: Result<string>)
    ensures r.Ok? ==> NoUpper(r.value)
    ensures "LogLevel" !in config ==> r == Ok("debug")
    ensures "LogLevel" in config && config["LogLevel"].JNum? ==>
              var n := config["LogLevel"].n;
              var v := n % 256;
              (v > 7 <==> r.Err?) &&
              (v > 7 ==> r == Err(MistakeType("0..7", Itoa(n)))) &&
              (v < 7 ==> r.Ok? && r.value in LEVEL_NAMES && LEVEL_NAMES[r.value] as int == v) &&
              (v == 7 ==> r == Ok(""))
    ensures "LogLevel" in config && !config["LogLevel"].JNum? && !config["LogLevel"].JStr? ==>
              r == Err(NotUnderstand("LogLevel"))
  {
    if "LogLevel" !in config then
      LowerUnchanged("debug");
      Ok("debug")
    else
      match config["LogLevel"]
      case JStr(s) => Ok(ToLower(s))
      case JNum(n) =>
        var v := (n % 256) as Level;
        if v > DISABLE then Err(MistakeType("0..7", Itoa(n)))
        else
          LevelNamesAgree(v);
          Ok(ToLower(LevelString(v)))
      case _ => Err(NotUnderstand("LogLevel"))
  }

  /** The global Pattern or Writer: the default when missing, a string
      lower-cased, anything else not understood. */
  function DefaultName(config: map<string, Json>, key: string, default: string): (r: Result<string>)
    requires NoUpper(default)
    ensures r.Ok? ==> NoUpper(r.value)
    ensures r.Err? <==> key in config && !config[key].JStr?
    ensures r.Err? ==> r.error == NotUnderstand(key)
    ensures key !in config ==> r == Ok(default)
  {
    if key !in config then Ok(default)
    else
      match config[key]
      case JStr(s) => Ok(ToLower(s))
      case _ => Err(NotUnderstand(key))
  }

  datatype Defaults = Defaults(level: string, pattern: string, writer: string)

  predicate LowerDefaults(d: Defaults) {
    NoUpper(d.level) && NoUpper(d.pattern) && NoUpper(d.writer)
  }

  /** The three defaults, worked out in the order completionConfig does. */
  function ConfigDefaults(config: map<string, Json>): (r: Result<Defaults>)
    ensures r.Ok? ==> LowerDefaults(r.value)
    ensures r.Ok? <==> DefaultLevel(config).Ok? && DefaultName(config, "Pattern", "jsonpattern").Ok? &&
                       DefaultName(config, "Writer", "console").Ok?
  {
    LowerUnchanged("jsonpattern");
    LowerUnchanged("console");
    match DefaultLevel(config)
    case Err(e) => Err(e)
    case Ok(level) =>
      match DefaultName(config, "Pattern", "jsonpattern")
      case Err(e) => Err(e)
      case Ok(pattern) =>
        match DefaultName(config, "Writer", "console")
        case Err(e) => Err(e)
        case Ok(writer) => Ok(Defaults(level, pattern, writer))
  }

  // ---------------------------------------------------------------------
  // One entry of Logs.

  /** One of LogLevel, Pattern and Writer in an entry: the default when
      missing, lower-cased when present; the `.(string)` assertion panics
      on a present value that is not a string. */
  function Fill(rec: map<string, Json>, key: string, default: string): (r: Result<map<string, Json>>)
    requires NoUpper(default)
    ensures r.Err? <==> key in rec && !rec[key].JStr?
    ensures r.Err? ==> r.error == AssertionPanic(key)
    ensures r.Ok? ==> r.value.Keys == rec.Keys + {key} && r.value[key].JStr? && NoUpper(r.value[key].s)
    ensures r.Ok? ==> forall k :: k in rec && k != key ==> r.value[k] == rec[k]
    ensures r.Ok? && key !in rec ==> r.value[key] == JStr(default)
    ensures r.Ok? && key in rec ==> r.value[key] == JStr(ToLower(rec[key].s))
  {
    if key !in rec then Ok(rec[key := JStr(default)])
    else
      match rec[key]
      case JStr(s) => Ok(rec[key := JStr(ToLower(s))])
      case _ => Err(AssertionPanic(key))
  }

  /** A name that is already a lower-case string is left in place. */
  lemma FillKeepsLower(rec: map<string, Json>, key: string, default: string)
    requires NoUpper(default)
    requires key in rec && rec[key].JStr? && NoUpper(rec[key].s)
    ensures Fill(rec, key, default) == Ok(rec)
  {
    LowerUnchanged(rec[key].s);
    assert rec[key := JStr(rec[key].s)] == rec;
  }

  /** An entry as loadLogs expects it: a string Id, a WriterPara, and
      lower-case level, pattern and writer names found in the registries. */
  predicate Completed(e: map<string, Json>, regs: Registries) {
    "Id" in e && e["Id"].JStr? && "WriterPara" in e &&
    "LogLevel" in e && e["LogLevel"].JStr? && NoUpper(e["LogLevel"].s) && e["LogLevel"].s in regs.levels &&
    "Pattern" in e && e["Pattern"].JStr? && NoUpper(e["Pattern"].s) && e["Pattern"].s in regs.patterns &&
    "Writer" in e && e["Writer"].JStr? && NoUpper(e["Writer"].s) && e["Writer"].s in regs.writers
  }

  /** The keys an entry's completion may add or rewrite. */
  const NAME_KEYS: set<string> := {"LogLevel", "Pattern", "Writer"}

  /** The value under `key` is absent or a string, so its `.(string)`
      assertion cannot panic. */
  predicate NameIsString(rec: map<string, Json>, key: string) {
    key !in rec || rec[key].JStr?
  }

  predicate NamesAreStrings(rec: map<string, Json>) {
    NameIsString(rec, "LogLevel") && NameIsString(rec, "Pattern") && NameIsString(rec, "Writer")
  }

  /** The name an entry ends up with under `key`: its own, lower-cased, or
      the default. */
  function FilledName(rec: map<string, Json>, key: string, default: string): string
    requires NameIsString(rec, key)
  {
    if key in rec then ToLower(rec[key].s) else default
  }

  /** The body of the loop over Logs for an object entry: the entry as it
      stands when the body finishes or stops, and the error it stops at. */
  function CompleteEntry(rec: map<string, Json>, defs: Defaults, regs: Registries): (r: Outcome<map<string, Json>>)
    requires LowerDefaults(defs)
    ensures r.err.None? ==> Completed(r.value, regs)
    ensures "Id" !in rec ==> r == Outcome(rec, Some(NotNil("ID")))
    ensures "Id" in rec && !NameIsString(rec, "LogLevel") ==> r.err == Some(AssertionPanic("LogLevel"))
    ensures "Id" in rec && NameIsString(rec, "LogLevel") && !NameIsString(rec, "Pattern") ==>
              r.err == Some(AssertionPanic("Pattern"))
    ensures "Id" in rec && NameIsString(rec, "LogLevel") && NameIsString(rec, "Pattern") &&
            !NameIsString(rec, "Writer") ==>
              r.err == Some(AssertionPanic("Writer"))
    ensures "Id" in rec && NamesAreStrings(rec) && !rec["Id"].JStr? ==> r.err == Some(AssertionPanic("Id"))
    ensures "Id" in rec && NamesAreStrings(rec) && rec["Id"].JStr? && "WriterPara" !in rec ==>
              r.err == Some(NotNil("ID:" + rec["Id"].s + "的参数WriterPara"))
    ensures "Id" in rec && NamesAreStrings(rec) && rec["Id"].JStr? && "WriterPara" in rec ==>
              r.err == CheckCorrect(regs, rec["Id"].s, FilledName(rec, "LogLevel", defs.level),
                                    FilledName(rec, "Pattern", defs.pattern), FilledName(rec, "Writer", defs.writer))
  {
    if "Id" !in rec then Outcome(rec, Some(NotNil("ID")))
    else
      match Fill(rec, "LogLevel", defs.level)
      case Err(e) => Outcome(rec, Some(e))
      case Ok(r1) =>
        match Fill(r1, "Pattern", defs.pattern)
        case Err(e) => Outcome(r1, Some(e))
        case Ok(r2) =>
          match Fill(r2, "Writer", defs.writer)
          case Err(e) => Outcome(r2, Some(e))
          case Ok(r3) =>
            if !r3["Id"].JStr? then Outcome(r3, Some(AssertionPanic("Id")))
            else if "WriterPara" !in r3 then Outcome(r3, Some(NotNil("ID:" + r3["Id"].s + "的参数WriterPara")))
            else Outcome(r3, CheckCorrect(regs, r3["Id"].s, r3["LogLevel"].s, r3["Pattern"].s, r3["Writer"].s))
  }

  /** Completing an entry touches only its level, pattern and writer; a
      missing one that is filled in gets the default. */
  lemma EntryKeepsOtherFields(rec: map<string, Json>, defs: Defaults, regs: Registries)
    requires LowerDefaults(defs)
    ensures var r := CompleteEntry(rec, defs, regs);
            r.value.Keys <= rec.Keys + NAME_KEYS &&
            (forall k :: k in rec && k !in NAME_KEYS ==> k in r.value && r.value[k] == rec[k]) &&
            (r.err.None? && "LogLevel" !in rec ==> r.value["LogLevel"] == JStr(defs.level)) &&
            (r.err.None? && "Pattern" !in rec ==> r.value["Pattern"] == JStr(defs.pattern)) &&
            (r.err.None? && "Writer" !in rec ==> r.value["Writer"] == JStr(defs.writer))
  {
    if "Id" in rec {
      var f1 := Fill(rec, "LogLevel", defs.level);
      if f1.Ok? {
        var f2 := Fill(f1.value, "Pattern", defs.pattern);
        if f2.Ok? {
          var f3 := Fill(f2.value, "Writer", defs.writer);
          if f3.Ok? {
            assert CompleteEntry(rec, defs, regs).value == f3.value;
          }
        }
      }
    }
  }

  /** An entry that is already complete comes through unchanged. */
  lemma EntryIdempotent(e: map<string, Json>, defs: Defaults, regs: Registries)
    requires LowerDefaults(defs) && Completed(e, regs)
    ensures CompleteEntry(e, defs, regs) == Outcome(e, None)
  {
    FillKeepsLower(e, "LogLevel", defs.level);
    FillKeepsLower(e, "Pattern", defs.pattern);
    FillKeepsLower(e, "Writer", defs.writer);
  }

  /** An element of Logs: an object is completed, anything else is not
      understood. */
  function CompleteElement(x: Json, defs: Defaults, regs: Registries): (r: Outcome<Json>)
    requires LowerDefaults(defs)
    ensures r.err.None? ==> r.value.JObj? && Completed(r.value.fields, regs)
    ensures !x.JObj? ==> r == Outcome(x, Some(NotUnderstand("数组内值必须为json")))
  {
    match x
    case JObj(m) =>
      var o := CompleteEntry(m, defs, regs);
      Outcome(JObj(o.value), o.err)
    case _ => Outcome(x, Some(NotUnderstand("数组内值必须为json")))
  }

  /** The loop body of completionConfig's walk over Logs, as a function
      value; the walk itself is written for any such step. */
  function ElementStep(defs: Defaults, regs: Registries): Json -> Outcome<Json>
    requires LowerDefaults(defs)
  {
    x => CompleteElement(x, defs, regs)
  }

  /** The index of the first element whose step fails, or the length of
      the sequence when none does. */
  function FirstFailing(logs: seq<Json>, step: Json -> Outcome<Json>): (i: nat)
    ensures i <= |logs|
    ensures forall j :: 0 <= j < i ==> step(logs[j]).err.None?
    ensures i < |logs| ==> step(logs[i]).err.Some?
    decreases |logs|
  {
    if logs == [] then 0
    else if step(logs[0]).err.Some? then 0
    else 1 + FirstFailing(logs[1..], step)
  }

  /** The walk over Logs, as a function of the original elements: each
      element is replaced by what the step makes of it, and the walk stops
      at the first error. */
  function CompleteLogs(logs: seq<Json>, step: Json -> Outcome<Json>): (r: Outcome<seq<Json>>)
    ensures |r.value| == |logs|
    decreases |logs|
  {
    if logs == [] then Outcome([], None)
    else
      var first := step(logs[0]);
      if first.err.Some? then Outcome([first.value] + logs[1..], first.err)
      else
        var rest := CompleteLogs(logs[1..], step);
        Outcome([first.value] + rest.value, rest.err)
  }

  /** Every element up to and including the first failing one is
      rewritten, the ones after it are left as they were, and the error is
      that element's. */
  lemma {:induction false} CompleteLogsStopsAtFirstFailure(logs: seq<Json>, step: Json -> Outcome<Json>)
    ensures var r := CompleteLogs(logs, step);
            var i := FirstFailing(logs, step);
            (forall j :: 0 <= j <= i && j < |logs| ==> r.value[j] == step(logs[j]).value) &&
            (i < |logs| ==> r.value[i + 1..] == logs[i + 1..] && r.err == step(logs[i]).err) &&
            (i == |logs| <==> r.err.None?)
    decreases |logs|
  {
    if logs != [] && step(logs[0]).err.None? {
      CompleteLogsStopsAtFirstFailure(logs[1..], step);
      var r := CompleteLogs(logs, step);
      var rest := CompleteLogs(logs[1..], step);
      var i := FirstFailing(logs, step);
      assert i == 1 + FirstFailing(logs[1..], step);
      forall j | 1 <= j <= i && j < |logs|
        ensures r.value[j] == step(logs[j]).value
      {
        assert r.value[j] == rest.value[j - 1];
        assert logs[j] == logs[1..][j - 1];
      }
      if i < |logs| {
        assert r.value[i + 1..] == rest.value[i..];
        assert logs[i + 1..] == logs[1..][i..];
      }
    }
  }

  /** A walk in which every element is already complete changes nothing. */
  lemma {:induction false} LogsIdempotent(logs: seq<Json>, step: Json -> Outcome<Json>)
    requires forall j :: 0 <= j < |logs| ==> step(logs[j]) == Outcome(logs[j], None)
    ensures CompleteLogs(logs, step) == Outcome(logs, None)
    decreases |logs|
  {
    if logs != [] {
      assert step(logs[0]) == Outcome(logs[0], None);
      LogsIdempotent(logs[1..], step);
      assert [logs[0]] + logs[1..] == logs;
    }
  }

  /** completionConfig: the defaults are worked out and checked under the
      id "default"; then, when there is a Logs array, its entries are
      completed. Only Logs is ever rewritten. */
  function Completion(config: map<string, Json>, regs: Registries): (r: Outcome<map<string, Json>>)
    ensures r.value.Keys == config.Keys
    ensures forall k :: k in config && k != "Logs" ==> r.value[k] == config[k]
    ensures ConfigDefaults(config).Err? ==> r == Outcome(config, Some(ConfigDefaults(config).error))
    ensures ConfigDefaults(config).Ok? ==>
              var d := ConfigDefaults(config).value;
              var check := CheckCorrect(regs, "default", d.level, d.pattern, d.writer);
              (check.Some? ==> r == Outcome(config, check)) &&
              (check.None? && "Logs" !in config ==> r == Outcome(config, None)) &&
              (check.None? && "Logs" in config && !config["Logs"].JArr? ==>
                 r == Outcome(config, Some(NotUnderstand("Logs")))) &&
              (check.None? && "Logs" in config && config["Logs"].JArr? ==>
                 var o := CompleteLogs(config["Logs"].items, ElementStep(d, regs));
                 r == Outcome(config["Logs" := JArr(o.value)], o.err))
  {
    match ConfigDefaults(config)
    case Err(e) => Outcome(config, Some(e))
    case Ok(defs) =>
      match CheckCorrect(regs, "default", defs.level, defs.pattern, defs.writer)
      case Some(e) => Outcome(config, Some(e))
      case None =>
        if "Logs" !in config then Outcome(config, None)
        else
          match config["Logs"]
          case JArr(logs) =>
            var o := CompleteLogs(logs, ElementStep(defs, regs));
            Outcome(config["Logs" := JArr(o.value)], o.err)
          case _ => Outcome(config, Some(NotUnderstand("Logs")))
  }

  /** An accepted configuration is one loadLogs can use: the defaults are
      registered names, and Logs, when present, is an array of completed
      entries. */
  lemma CompletionValidates(config: map<string, Json>, regs: Registries)
    requires Completion(config, regs).err.None?
    ensures var c := Completion(config, regs).value;
            ConfigDefaults(config).Ok? &&
            var d := ConfigDefaults(config).value;
            d.level in regs.levels && d.pattern in regs.patterns && d.writer in regs.writers &&
            ("Logs" in c ==>
               c["Logs"].JArr? &&
               forall j :: 0 <= j < |c["Logs"].items| ==>
                 c["Logs"].items[j].JObj? && Completed(c["Logs"].items[j].fields, regs))
  {
    var defs := ConfigDefaults(config).value;
    if "Logs" in config {
      var logs := config["Logs"].items;
      var step := ElementStep(defs, regs);
      var o := CompleteLogs(logs, step);
      CompleteLogsStopsAtFirstFailure(logs, step);
      forall j | 0 <= j < |o.value|
        ensures o.value[j].JObj? && Completed(o.value[j].fields, regs)
      {
        assert o.value[j] == CompleteElement(logs[j], defs, regs).value;
        assert CompleteElement(logs[j], defs, regs).err.None?;
      }
    }
  }

  /** Two configurations that agree on LogLevel, Pattern and Writer have
      the same defaults. */
  lemma DefaultsAgree(a: map<string, Json>, b: map<string, Json>)
    requires forall k :: k in NAME_KEYS ==> (k in a <==> k in b) && (k in a ==> a[k] == b[k])
    ensures ConfigDefaults(a) == ConfigDefaults(b)
  {
    var level, pattern, writer := "LogLevel", "Pattern", "Writer";
    assert level in NAME_KEYS && pattern in NAME_KEYS && writer in NAME_KEYS;
    assert DefaultLevel(a) == DefaultLevel(b) by {
      assert (level in a <==> level in b) && (level in a ==> a[level] == b[level]);
    }
    assert DefaultName(a, pattern, "jsonpattern") == DefaultName(b, pattern, "jsonpattern") by {
      assert (pattern in a <==> pattern in b) && (pattern in a ==> a[pattern] == b[pattern]);
    }
    assert DefaultName(a, writer, "console") == DefaultName(b, writer, "console") by {
      assert (writer in a <==> writer in b) && (writer in a ==> a[writer] == b[writer]);
    }
  }

  /** A Logs array of completed entries comes through the walk unchanged. */
  lemma CompletedLogsUnchanged(items: seq<Json>, defs: Defaults, regs: Registries)
    requires LowerDefaults(defs)
    requires forall j :: 0 <= j < |items| ==> items[j].JObj? && Completed(items[j].fields, regs)
    ensures CompleteLogs(items, ElementStep(defs, regs)) == Outcome(items, None)
  {
    var step := ElementStep(defs, regs);
    forall j | 0 <= j < |items|
      ensures step(items[j]) == Outcome(items[j], None)
    {
      EntryIdempotent(items[j].fields, defs, regs);
    }
    LogsIdempotent(items, step);
  }

  /** An accepted configuration, completed again, is accepted unchanged. */
  lemma CompletionIdempotent(config: map<string, Json>, regs: Registries)
    requires Completion(config, regs).err.None?
    ensures var c := Completion(config, regs).value;
            Completion(c, regs) == Outcome(c, None)
  {
    var c := Completion(config, regs).value;
    CompletionValidates(config, regs);
    DefaultsAgree(c, config);
    if "Logs" in c {
      var items := c["Logs"].items;
      CompletedLogsUnchanged(items, ConfigDefaults(config).value, regs);
      assert c["Logs" := JArr(items)] == c;
    }
  }

  /** A numeric LogLevel of 7 passes the range check, but DISABLE's String
      is empty, and no registry that init fills holds the empty name: the
      configuration is refused as a level outside trace..disable. */
  lemma NumericDisableRejected(regs: Registries)
    requires "" !in regs.levels
    ensures Completion(map["LogLevel" := JNum(7)], regs) ==
            Outcome(map["LogLevel" := JNum(7)], Some(MistakeType("id:default,trace..disable", "")))
  {
    var config := map["LogLevel" := JNum(7)];
    assert LevelString(7) == "";
    assert DefaultLevel(config) == Ok("");
    assert ConfigDefaults(config) == Ok(Defaults("", "jsonpattern", "console"));
    assert "id:" + "default" + ",trace..disable" == "id:default,trace..disable";
  }

  /** A configuration that sets nothing is accepted by the registries init
      fills, and is left as it is. */
  lemma EmptyConfigAccepted(regs: Registries)
    requires "debug" in regs.levels && "jsonpattern" in regs.patterns && "console" in regs.writers
    ensures Completion(map[], regs) == Outcome(map[], None)
  {
    LowerUnchanged("debug");
    assert ConfigDefaults(map[]) == Ok(Defaults("debug", "jsonpattern", "console"));
  }

  /** The decoded configuration, whose Logs entries completionConfig
      rewrites in place. */
  class ConfigTree {
    var root: map<string, Json>

    constructor (root: map<string, Json>)
      ensures this.root == root
    {
      this.root := root;
    }
  }

  /** completionConfig over the tree and the current registries. */
  method CompletionConfig(tree: ConfigTree, reg: Registry) returns (err: Option<ConfigError>)
    modifies tree
    ensures Outcome(tree.root, err) == Completion(old(tree.root), reg.Snapshot())
  {
    var regs := reg.Snapshot();
    var defaults := ConfigDefaults(tree.root);
    if defaults.Err? {
      return Some(defaults.error);
    }
    var defs := defaults.value;
    err := CheckCorrect(regs, "default", defs.level, defs.pattern, defs.writer);
    if err.Some? || "Logs" !in tree.root {
      return;
    }
    if !tree.root["Logs"].JArr? {
      return Some(NotUnderstand("Logs"));
    }
    var logs := tree.root["Logs"].items;
    err := CompleteEntries(tree, logs, ElementStep(defs, regs));
  }

  /** The loop over Logs: the body `step` is applied to each element, whose
      result is written back into the tree before the next is looked at;
      the loop stops at the first error. */
  method CompleteEntries(tree: ConfigTree, logs: seq<Json>, step: Json -> Outcome<Json>)
    returns (err: Option<ConfigError>)
    requires "Logs" in tree.root && tree.root["Logs"] == JArr(logs)
    modifies tree
    ensures var o := CompleteLogs(logs, step);
            tree.root == old(tree.root)["Logs" := JArr(o.value)] && err == o.err
  {
    var cur := logs;
    var i := 0;
    while i < |logs|
      invariant 0 <= i <= |logs| && |cur| == |logs|
      invariant forall j :: 0 <= j < i ==> step(logs[j]).err.None?
      invariant cur[i..] == logs[i..]
      invariant forall j :: 0 <= j < i ==> cur[j] == step(logs[j]).value
      invariant tree.root == old(tree.root)["Logs" := JArr(cur)]
    {
      var o := step(cur[i]);
      cur := cur[i := o.value];
      tree.root := tree.root["Logs" := JArr(cur)];
      if o.err.Some? {
        LogsResult(logs, cur, i, step);
        return o.err;
      }
      i := i + 1;
    }
    LogsResult(logs, cur, i, step);
    err := None;
  }

  /** The first failing element is the one before which none fails. */
  lemma FirstFailingAt(logs: seq<Json>, i: nat, step: Json -> Outcome<Json>)
    requires i <= |logs|
    requires forall j :: 0 <= j < i ==> step(logs[j]).err.None?
    requires i < |logs| ==> step(logs[i]).err.Some?
    ensures FirstFailing(logs, step) == i
  {
  }

  /** What the loop over Logs has built when it stops at `i`, by failing
      there or by reaching the end, is the rewritten Logs. */
  lemma LogsResult(logs: seq<Json>, cur: seq<Json>, i: nat, step: Json -> Outcome<Json>)
    requires i <= |logs| && |cur| == |logs|
    requires forall j :: 0 <= j < i ==> step(logs[j]).err.None?
    requires i < |logs| ==> step(logs[i]).err.Some?
    requires forall j :: 0 <= j <= i && j < |logs| ==> cur[j] == step(logs[j]).value
    requires i < |logs| ==> cur[i + 1..] == logs[i + 1..]
    ensures CompleteLogs(logs, step) == Outcome(cur, if i < |logs| then step(logs[i]).err else None)
  {
    FirstFailingAt(logs, i, step);
    CompleteLogsStopsAtFirstFailure(logs, step);
    var r := CompleteLogs(logs, step).value;
    forall j | 0 <= j < |logs|
      ensures r[j] == cur[j]
    {
      if j > i {
        assert r[j] == r[i + 1..][j - i - 1];
        assert cur[j] == cur[i + 1..][j - i - 1];
      }
    }
    assert r == cur;
  }
}
