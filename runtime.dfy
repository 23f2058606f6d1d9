/** The values that are computed afresh for every record (RunTimeCompute.go):
    the current time, the caller's file and line, and the goroutine id, each
    with the name it is logged under, and the immutable list that holds them. */
module Runtime {
  import opened Bytes

  /** The three kinds of runtime value of the package. */
  datatype RunTimeCompute =
    | TimeValue
    | Caller(skipFrameCount: int)
    | CoroutineID

  /** RunTimeComputes: a list node that is never changed once built. */
  datatype Chain = Nil | Node(curr: RunTimeCompute, next: Chain)

  /** The values of a chain in the order a walk over `next` visits them. */
  function Items(c: Chain): (r: seq<RunTimeCompute>)
    ensures c.Nil? <==> r == []
    ensures c.Node? ==> r[0] == c.curr
  {
    match c
    case Nil => []
    case Node(curr, next) => [curr] + Items(next)
  }

  /** The package-level names and the time layout (Logger.go), which every
      record reads at the time it is written. */
  datatype Settings = Settings(
    messageName: seq<byte>,
    coroutineIdName: seq<byte>,
    levelName: seq<byte>,
    timeName: seq<byte>,
    timeFormat: seq<byte>,
    callerName: seq<byte>)

  /** The values the package starts with; the time layout is time.RFC3339. */
  const DEFAULT_SETTINGS: Settings :=
    Settings(Ascii("msg"), Ascii("cid"), Ascii("level"), Ascii("time"),
             Ascii("2006-01-02T15:04:05Z07:00"), Ascii("caller"))

  /** A stack frame as runtime.Caller reports it. */
  datatype Frame = Frame(file: seq<byte>, line: int)

  /** What the Go runtime answers at the moment a record is written:
      time.Now as Unix seconds and as text in the current layout, the frames
      runtime.Caller(j) reports (frames[j] for a j in range, none otherwise),
      and the full text runtime.Stack would write for the current goroutine. */
  datatype Env = Env(unix: int64, formattedTime: seq<byte>, frames: seq<Frame>, stack: seq<byte>)

  const SPACE: byte := 0x20

  /** GetName: the key a runtime value is logged under. */
  function GetName(r: RunTimeCompute, settings: Settings): (name: seq<byte>)
    ensures r.TimeValue? ==> name == settings.timeName
    ensures r.Caller? ==> name == settings.callerName
    ensures r.CoroutineID? ==> name == settings.coroutineIdName
  {
    match r
    case TimeValue => settings.timeName
    case Caller(_) => settings.callerName
    case CoroutineID => settings.coroutineIdName
  }

  /** bytes.IndexByte: the first position of `c` in `b`, or -1. */
  function IndexByte(b: seq<byte>, c: byte): (j: int)
    ensures -1 <= j < |b|
    ensures j == -1 <==> c !in b
    ensures 0 <= j ==> b[j] == c && c !in b[..j]
  {
    if b == [] then -1
    else if b[0] == c then 0
    else
      var j := IndexByte(b[1..], c);
      if j == -1 then -1
      else
        assert b[..j + 1] == [b[0]] + b[1..][..j];
        j + 1
  }

  /** bytes.TrimPrefix. */
  function TrimPrefix(b: seq<byte>, prefix: seq<byte>): (r: seq<byte>)
    ensures |prefix| <= |b| && b[..|prefix|] == prefix ==> b == prefix + r
    ensures !(|prefix| <= |b| && b[..|prefix|] == prefix) ==> r == b
  {
    if |prefix| <= |b| && b[..|prefix|] == prefix then b[|prefix|..] else b
  }

  const GOROUTINE_PREFIX: seq<byte> := Ascii("goroutine ")
  const NOT_FOUND: seq<byte> := Ascii("no found.")

  /** The 64-byte buffer CoroutineID.Values hands to runtime.Stack. */
  const STACK_BUFFER := 64

  /** The value text of a runtime value. None stands for the panic of
      CoroutineID.Values when its 64 bytes of stack hold no space after the
      `goroutine ` prefix (the slice b[:-1]). The time is Unix seconds in
      decimal when the layout is empty, the formatted time otherwise; a
      caller is found at runtime.Caller(skip + 3). */
  function Values(r: RunTimeCompute, settings: Settings, env: Env): (v: Option<seq<byte>>)
    ensures !r.CoroutineID? ==> v.Some?
  {
    match r
    case TimeValue =>
      if settings.timeFormat == [] then Some(FormatInt(env.unix as int, 10))
      else Some(env.formattedTime)
    case Caller(skip) =>
      var depth := skip + 3;
      if 0 <= depth < |env.frames| then
        Some(env.frames[depth].file + [SPACE] + FormatInt(env.frames[depth].line, 10))
      else Some(NOT_FOUND)
    case CoroutineID =>
      var b := env.stack[..if |env.stack| < STACK_BUFFER then |env.stack| else STACK_BUFFER];
      var t := TrimPrefix(b, GOROUTINE_PREFIX);
      var j := IndexByte(t, SPACE);
      if j < 0 then None else Some(t[..j])
  }

  /** With an empty layout the time value is the bare decimal Unix time: it
      reads back as that time, with a sign exactly for times before 1970. */
  lemma TimeValueIsUnixSeconds(settings: Settings, env: Env)
    requires settings.timeFormat == []
    ensures Values(TimeValue, settings, env).Some?
    ensures ParseInt(Values(TimeValue, settings, env).value, 10) == Some(env.unix as int)
    ensures Values(TimeValue, settings, env).value[0] == MINUS <==> env.unix < 0
  {
    FormatIntRoundTrip(env.unix as int, 10);
  }

  /** The text after the last space of `v` (all of `v` when it holds none). */
  function AfterLastSpace(v: seq<byte>): (t: seq<byte>)
    ensures SPACE !in t
    decreases |v|
  {
    if v == [] then []
    else if v[|v| - 1] == SPACE then []
    else AfterLastSpace(v[..|v| - 1]) + [v[|v| - 1]]
  }

  /** Decimal digits never contain a space. */
  lemma NoSpaceInDigits(n: int)
    ensures SPACE !in FormatInt(n, 10)
  {
  }

  lemma {:induction false} AfterLastSpaceOfSuffix(head: seq<byte>, d: seq<byte>)
    requires SPACE !in d
    ensures AfterLastSpace(head + [SPACE] + d) == d
    decreases |d|
  {
    var v := head + [SPACE] + d;
    if d == [] {
      assert v[|v| - 1] == SPACE;
    } else {
      var d' := d[..|d| - 1];
      assert v[..|v| - 1] == head + [SPACE] + d';
      AfterLastSpaceOfSuffix(head, d');
      assert d == d' + [d[|d| - 1]];
    }
  }

  /** A found caller is written as its file, a space and its line, so the
      text after the last space reads back as the line even when the file
      name itself holds spaces; a caller that is not found is `no found.`. */
  lemma CallerValueReadsBack(skip: int, settings: Settings, env: Env)
    ensures var v := Values(Caller(skip), settings, env).value;
            if 0 <= skip + 3 < |env.frames| then
              var f := env.frames[skip + 3];
              v[..|f.file|] == f.file && v[|f.file|] == SPACE &&
              ParseInt(AfterLastSpace(v), 10) == Some(f.line)
            else v == NOT_FOUND
  {
    if 0 <= skip + 3 < |env.frames| {
      var f := env.frames[skip + 3];
      var a, d := f.file, FormatInt(f.line, 10);
      var v := Values(Caller(skip), settings, env).value;
      assert v == a + [SPACE] + d;
      assert v[..|a|] == a;
      NoSpaceInDigits(f.line);
      AfterLastSpaceOfSuffix(a, d);
      FormatIntRoundTrip(f.line, 10);
    }
  }

  /** The goroutine id is the text between the `goroutine ` prefix and the
      first space of the first 64 bytes of the stack; the value is missing
      (Go panics) exactly when those bytes hold no such space. */
  lemma CoroutineIdIsFirstWord(settings: Settings, env: Env)
    ensures var b := env.stack[..if |env.stack| < STACK_BUFFER then |env.stack| else STACK_BUFFER];
            var t := TrimPrefix(b, GOROUTINE_PREFIX);
            var v := Values(CoroutineID, settings, env);
            (v.None? <==> SPACE !in t) &&
            (v.Some? ==> SPACE !in v.value && t[..|v.value| + 1] == v.value + [SPACE])
  {
    var b := env.stack[..if |env.stack| < STACK_BUFFER then |env.stack| else STACK_BUFFER];
    var t := TrimPrefix(b, GOROUTINE_PREFIX);
    var j := IndexByte(t, SPACE);
    if j >= 0 {
      assert t[..j + 1] == t[..j] + [SPACE];
    }
  }
}
