# onelog in Dafny

A model of onelog, a small Go logging package. It covers:

- **Level writers.** A `Logger` keeps one prototype level writer per level, from TRACE to PANIC. A level below the logger's minimum gets the disabled writer. Each level accessor hands out a clone of the prototype. Field methods extend the clone's record prefix. `AddStatic` and `AddRuntime` change the prototype it was cloned from.
- **Msg.** Msg adds the values computed at write time (the time, the caller, the goroutine id), then the message, finishes the record and hands it to the writer.
- **Record formats.** There are two: one JSON object per line (`JsonPattern`) and a tab-separated line led by the time (`OldPattern`). Both escape keys and strings with the same escaper.
- **Writers.** The fan-out `MultipleWriter`, and the buffered `FileWriter` that rotates its file past a size limit.
- **Configuration.** `completionConfig` fills in and checks a decoded JSON configuration against the name registries.

Modules, one per concern of the package:

| module | file | models |
|---|---|---|
| `Bytes` | bytes.dfy | Go integer widths, `strconv.AppendInt`/`AppendUint` digits and their read-back, `strings.ToLower`, `strconv.Itoa` |
| `Utf8` | utf8.dfy | `utf8.DecodeRune`'s contract (RFC 3629 sections 3 and 4) |
| `Escaper` | escape.dfy | `noEscapeTable` and `appendStringComplex` (Pattern.go) |
| `Runtime` | runtime.dfy | RunTimeCompute.go: the three runtime values and their chain |
| `Codec` | codec.dfy | jsonPattern.go and oldPattern.go, including the in-place slice operations |
| `Levels` | levels.dfy | `Level` and `Level.String` (Logger.go) |
| `Sinks` | sinks.dfy | writer.go: `MultipleWriter`, `FileWriter` and `writeToDisk` |
| `Records` | records.dfy | LevelWriter.go: `DefaultLevelWriter`, `DisableLevelWriter`, `Msg` |
| `Logging` | logger.dfy | Logger.go: `New`, `refresh`, the level accessors, `Close` |
| `Config` | config.dfy | config.go: the error types, the registries, `RegisterInitRef`, `checkCorrect`, `completionConfig` |

Inputs from the world are parameters:

- The package-level names and time layout form a `Settings` value.
- `time.Now`, `runtime.Caller` and `runtime.Stack` form an `Env` value.
- The file system is a `FileSystem` object that maps names to contents.
- A writer whose behaviour is not part of the package (the console, any `io.Writer`) is a `Sink` object. It records what it receives and how often it is closed.

Go panics are modelled as explicit outcomes:

- A missing runtime value (`None`).
- A `.(string)` type assertion that fails (`AssertionPanic`).
- A `FileWriter` whose buffer length has run past its capacity (`!Valid()`).

Two behaviours of the code worth noting:

- **Runtime values are raw.** Runtime values are appended raw by `AppendValue`, without quotes. So the JSON `time` field holds unquoted text, even under the default RFC 3339 layout.
- **The numeric level 7 is rejected.** It passes the `0..7` range check of `completionConfig`, but `Level(7).String()` is empty. The empty name is not registered, so `checkCorrect` refuses it. `Config.NumericDisableRejected` proves this for any registries without the empty name.

## Model

| member | source | states |
|---|---|---|
| Levels.LevelString | Logger.go:45-63 | The name is non-empty exactly for TRACE..PANIC and is upper-case letters. |
| Levels.LevelStringInjective | Logger.go:45-63 | Distinct levels TRACE..PANIC have distinct names, so a name identifies its level. |
| Bytes.FormatNat | jsonPattern.go:30-34 | The digits `strconv.AppendUint` writes: at least one, each a digit of the base. |
| Bytes.FormatNatRoundTrip | jsonPattern.go:30-34 | The digit string reads back as the number. |
| Bytes.FormatNatNoLeadingZero | jsonPattern.go:30-34 | The digit string starts with `0` only for zero. |
| Bytes.FormatInt | jsonPattern.go:59-63 | The digits of `strconv.AppendInt`: a `-` for a negative value, then the digits of its magnitude. Its meaning is carried by `Bytes.FormatIntRoundTrip`. |
| Bytes.FormatIntRoundTrip | jsonPattern.go:59-63 | `strconv.AppendInt` output reads back as the value and carries a `-` exactly for negative values. |
| Bytes.ParseNatSnoc | jsonPattern.go:59-63 | Appending one digit multiplies the read-back value by the base and adds the digit. |
| Bytes.ToLower | config.go:72 | Same length; exactly the upper-case ASCII letters change, each into the lower-case letter at the same place in the alphabet, and no upper-case letter remains. |
| Bytes.LowerUnchanged | config.go:72 | Text without upper-case letters is left unchanged by lower-casing. |
| Bytes.ToLowerIdempotent | config.go:72 | Lower-casing twice is lower-casing once. |
| Bytes.Itoa | config.go:77 | The text of `strconv.Itoa` is the decimal digits of `strconv.AppendInt`. |
| Bytes.Chars | config.go:77 | Converting bytes to text and back gives the same bytes. |
| Utf8.Encode | Pattern.go:47-48 | A scalar value encodes to 1..4 bytes, one byte exactly below U+0080. |
| Utf8.SequenceLength | Pattern.go:47-49 | The length of the well-formed sequence at the front, 2..4 and within the input, or 0 if none. |
| Utf8.DecodeRune | Pattern.go:47-49 | `utf8.DecodeRune` consumes 1..len(s) bytes. |
| Utf8.HighRune | Pattern.go:47-49 | On a byte >= 0x80 the decoder reports (RuneError, 1) exactly when no well-formed sequence starts there, and otherwise consumes the whole sequence. |
| Utf8.AcceptedIsEncoding | Pattern.go:47-49 | Every accepted multi-byte sequence is the encoding of the scalar value it decodes to. |
| Utf8.EncodingIsAccepted | Pattern.go:47-49 | The encoding of every scalar >= U+0080 is accepted whole and decodes back to that scalar, whatever follows. |
| Escaper.NoEscape | Pattern.go:30-36 | The bytes `noEscapeTable` marks: printable ASCII other than `"` and `\`. `Escaper.BuildNoEscapeTable` shows the table loop agrees. |
| Escaper.Escape | Pattern.go:38-90 | The escape of a whole string, one unit at a time. Its meaning is carried by `Escaper.UnescapeEscape`, `Escaper.EscapeNoControlBytes` and `Escaper.AppendStringComplex`. |
| Escaper.BuildNoEscapeTable | Pattern.go:30-36 | The 256-entry table is true exactly for printable ASCII other than `"` and `\`. |
| Escaper.EscapeHead | Pattern.go:40-83 | Escaping consumes one unit at a time: a plain byte is copied, a short escape is written for other ASCII, a bad byte becomes `\ufffd`, and a well-formed sequence is copied. |
| Escaper.ScanOne | Pattern.go:40-83 | One pass of the loop body keeps the invariant "output + pending run + escape(rest) = result" and advances. |
| Escaper.ScanHigh | Pattern.go:47-60 | The branch for bytes >= 0x80 keeps the loop invariant, flushing and writing `\ufffd` for a byte that does not decode. |
| Escaper.FlushRun | Pattern.go:50-55 | Flushing the pending run and writing an escape keeps the loop invariant. |
| Escaper.AppendStringComplex | Pattern.go:38-90 | The result is `dst`, then the bytes before `i` unchanged, then the escape of the rest. |
| Escaper.EscapeIdentity | Pattern.go:42-45 | Text made only of bytes that need no escape is unchanged. |
| Escaper.EscapeShortForms | Pattern.go:65-77 | `"` and `\` get a backslash; backspace, form feed, newline, carriage return and tab get their letter escapes. |
| Escaper.EscapeOtherControl | Pattern.go:78-79 | Every other control byte (and DEL) becomes `\u00` and two lower-case hex digits. |
| Escaper.EscapeKeepsCharacter | Pattern.go:58-59 | A well-formed multi-byte character is copied unchanged. |
| Escaper.EscapeKeepsEncodedReplacement | Pattern.go:47-59 | An encoded U+FFFD is copied, not treated as an error. |
| Escaper.EscapeInvalidByte | Pattern.go:49-56 | A byte that does not decode becomes `\ufffd`, and scanning resumes at the next byte. |
| Escaper.EscapeNoControlBytes | Pattern.go:38-90 | The escaped text never holds a raw byte below 0x20. |
| Escaper.ShortEscapeNoControl | Pattern.go:65-80 | No escape sequence itself holds a byte below 0x20. |
| Escaper.UnescapeEscape | Pattern.go:38-90 | A JSON reader decodes the escaped text to the input with each undecodable byte replaced by U+FFFD. |
| Escaper.UnescapeEscapeValid | Pattern.go:38-90 | For valid UTF-8 input a JSON reader decodes the escaped text back to the input exactly. |
| Escaper.SanitizeValid | Pattern.go:47-59 | Valid UTF-8 has nothing to replace. |
| Escaper.UnescapeShort | Pattern.go:65-80 | A JSON reader decodes each short or `\u00XX` escape to the original byte. |
| Escaper.UnescapeReplacement | Pattern.go:53 | A JSON reader decodes the six-byte escape `\ufffd` to the three-byte encoding of U+FFFD. |
| Escaper.UnescapeHigh | Pattern.go:58-59 | Non-ASCII bytes pass through a JSON reader unchanged. |
| Runtime.Items | RunTimeCompute.go:19-22 | The chain's values in walk order; empty exactly for the empty chain. |
| Runtime.GetName | RunTimeCompute.go:27-29 | Each runtime value's key is its package-level name (time, caller, cid). |
| Runtime.IndexByte | RunTimeCompute.go:35 | The first index of the byte, or -1 exactly when it is absent. |
| Runtime.TrimPrefix | RunTimeCompute.go:34 | With the prefix present the input is prefix + result, otherwise the result is the input. |
| Runtime.Values | RunTimeCompute.go:31-81 | The time and caller values always exist; only the goroutine id can be missing. |
| Runtime.TimeValueIsUnixSeconds | RunTimeCompute.go:48-57 | With an empty layout the time value reads back as the Unix seconds, signed exactly before 1970. |
| Runtime.CallerValueReadsBack | RunTimeCompute.go:68-81 | A found caller is file, space, line, and the text after the last space reads back as the line; otherwise `no found.`. |
| Runtime.CoroutineIdIsFirstWord | RunTimeCompute.go:31-38 | The id is the text up to the first space after `goroutine ` in the first 64 stack bytes; it is missing (Go panics) exactly when there is no such space. |
| Runtime.AfterLastSpace | RunTimeCompute.go:74-75 | The text after the last space holds no space. |
| Runtime.AfterLastSpaceOfSuffix | RunTimeCompute.go:74-75 | After a space, a space-free suffix is what follows the last space. |
| Codec.Init | jsonPattern.go:12-14 | JSON opens with `{`; the old format leaves the buffer as it is (oldPattern.go:12-14). |
| Codec.AppendKey | jsonPattern.go:17-21 | A quoted escaped key and `:` in JSON; a tab, the escaped key and `:` in the old format (oldPattern.go:17-21). Its meaning is carried by `Codec.JsonKeyReadsBack` and `Codec.FieldAppendsExtend`. |
| Codec.AppendValue | jsonPattern.go:24-27 | The raw value and `,` in JSON; the raw value alone in the old format (oldPattern.go:26-28). Its meaning is carried by `Codec.FieldAppendsExtend` and `Codec.JsonRuntimeExtends`. |
| Codec.AppendInt64 | jsonPattern.go:59-63 | The signed digits and `,` in JSON; the digits alone in the old format (oldPattern.go:54-56). Its meaning is carried by `Codec.IntegerReadsBack`. |
| Codec.AppendUint64 | jsonPattern.go:30-34 | The unsigned digits and `,` in JSON; the digits alone in the old format (oldPattern.go:31-33). Its meaning is carried by `Codec.UnsignedReadsBack`. |
| Codec.AppendString | jsonPattern.go:66-72 | A quoted escaped value and `,` in JSON; the escaped value alone in the old format (oldPattern.go:59-61). Its meaning is carried by `Codec.JsonStringReadsBack` and `Codec.FieldAppendsExtend`. |
| Codec.AppendUint32 | jsonPattern.go:37-41 | A uint32 is written exactly as the same value widened to uint64. |
| Codec.Complete | jsonPattern.go:74-77 | JSON overwrites the last byte with `}` and adds a newline; the old format only adds the newline (oldPattern.go:63-66). |
| Codec.AddRuntimeValues | oldPattern.go:68-81 | Present exactly when the value is. An old-format time value goes in front of the record; anything else is a key and a raw value at the end (jsonPattern.go:79-84). |
| Codec.JsonKeyReadsBack | jsonPattern.go:17-21 | A JSON key is the prefix, a quote, text a JSON reader decodes to the key, then `":`. |
| Codec.JsonStringReadsBack | jsonPattern.go:66-72 | A JSON string value is the prefix, a quote, text a JSON reader decodes to the value, then `",`. |
| Codec.IntegerReadsBack | jsonPattern.go:59-63 | An integer field is the prefix, digits reading back as the value (plus `,` in JSON; oldPattern.go:54-56). |
| Codec.UnsignedReadsBack | jsonPattern.go:30-34 | An unsigned field reads back as the value and never has a sign (oldPattern.go:31-33). |
| Codec.FieldAppendsExtend | jsonPattern.go:17-27 | Key, value and string appends of both formats only add bytes at the end. |
| Codec.JsonRuntimeExtends | jsonPattern.go:79-84 | A JSON runtime value only adds bytes at the end. |
| Codec.JsonCompleteClosesObject | jsonPattern.go:74-77 | A record whose last field ends in `,` is closed as `}` and newline. |
| Codec.OldTimeValueLeads | oldPattern.go:68-76 | In the old format the time value ends up in front of everything written before it. |
| Codec.Append | jsonPattern.go:25-26 | Go's `append`: the content becomes the old content plus the values; in place when they fit, a fresh array otherwise. |
| Codec.Move | oldPattern.go:73 | Go's `copy` within one array moves the block with memmove semantics. |
| Codec.JsonCompleteInPlace | jsonPattern.go:74-77 | The in-place Complete leaves exactly `Complete(Json, …)` in the slice. |
| Codec.OldPrependInPlace | oldPattern.go:70-75 | The append-then-two-copies of the old format leaves exactly value + old record in the slice. |
| Codec.CopyFront | oldPattern.go:74 | The final `copy(buffer, val)` puts the value in front of the shifted record. |
| Records.AddAll | LevelWriter.go:169-174 | Msg's walk adding each runtime value of the chain in order, None when one panics. Its meaning is carried by `Records.AddAllPanics` and `Records.JsonAddAllExtends`. |
| Records.Record | LevelWriter.go:165-181 | The line Msg writes: runtime values, the message as a string field, then Complete. Its meaning is carried by `Records.JsonRecordShape`, `Records.DefaultRecordWritten` and `Records.DefaultLevelWriter.Msg`. |
| Records.PrototypePrefix | LevelWriter.go:31-43 | The prefix `newDefaultLevelWriter` builds: the opened record and the level field. Its meaning is carried by `Records.JsonPrototypePrefix` and `Records.OldPrototypePrefix`. |
| Records.DefaultRecord | LevelWriter.go:165-181 | The line written for an unchanged prototype's clone. Its meaning is carried by `Records.DefaultRecordWritten`, `Records.DefaultJsonRecord` and `Records.DefaultOldRecord`. |
| Records.AddAllPanics | LevelWriter.go:169-174 | Msg's walk over the chain panics exactly when the chain holds a goroutine id that cannot be computed. |
| Records.JsonAddAllExtends | LevelWriter.go:169-174 | In JSON the runtime values are only added after the prefix. |
| Records.JsonRecordShape | LevelWriter.go:165-181 | A JSON record starts with the writer's prefix and ends with the quoted message, `}` and a newline. |
| Records.JsonPrototypePrefix | LevelWriter.go:31-43 | A JSON prototype's prefix is `{` and the quoted level field. |
| Records.OldPrototypePrefix | LevelWriter.go:31-43 | An old-format prototype's prefix is the tab-separated level field. |
| Records.DefaultRecordWritten | LevelWriter.go:165-181 | The record of an unchanged prototype's clone always exists and is the format's default line. |
| Records.DefaultJsonRecord | LevelWriter.go:165-181 | That JSON line is `{"level":"<LEVEL>","time":<time>,"msg":"<message>"}` and a newline, with key, level and message escaped. |
| Records.DefaultOldRecord | LevelWriter.go:165-181 | That old-format line is the time, then the tab-separated level and message fields, then a newline. |
| Records.DefaultLevelWriter.Root | LevelWriter.go:54-57 | The writer AddStatic and AddRuntime change is the origin, or this writer when it has none. |
| Records.DefaultLevelWriter.Prototype | LevelWriter.go:31-43 | A prototype holds the opened record with the level field, the time as its only runtime value, and no origin. |
| Records.DefaultLevelWriter.Copy | LevelWriter.go:98-110 | The clone's object: same prefix, chain, pattern and writer, with origin the source. |
| Records.DefaultLevelWriter.Clone | LevelWriter.go:98-110 | Clone returns a fresh writer with the same prefix, chain, pattern and writer, whose origin is the source. |
| Records.DefaultLevelWriter.AddRuntime | LevelWriter.go:53-70 | A present value is put at the head of the origin's chain, which this writer then shares; a nil value changes nothing. |
| Records.DefaultLevelWriter.AddStatic | LevelWriter.go:72-82 | The field goes onto the origin's prefix, not the clone's; a fresh clone of the origin is returned, with the origin's prefix, chain, pattern and writer. |
| Records.DefaultLevelWriter.Hex | LevelWriter.go:84-89 | The key, then the value as a signed base-16 integer, appended to this writer's prefix. |
| Records.DefaultLevelWriter.Bytes | LevelWriter.go:91-96 | The key, then the bytes as a raw value. |
| Records.DefaultLevelWriter.Int | LevelWriter.go:112-117 | The key, then the value in decimal. |
| Records.DefaultLevelWriter.Int64 | LevelWriter.go:118-123 | The key, then the value in decimal. |
| Records.DefaultLevelWriter.Uint64 | LevelWriter.go:124-129 | The key, then the unsigned value in decimal. |
| Records.DefaultLevelWriter.Uint | LevelWriter.go:130-135 | The key, then the unsigned value in decimal. |
| Records.DefaultLevelWriter.String | LevelWriter.go:136-141 | The key, then the escaped string value. |
| Records.DefaultLevelWriter.Bool | LevelWriter.go:154-163 | The key, then `true` or `false` as a raw value. |
| Records.DefaultLevelWriter.Msg | LevelWriter.go:165-181 | The writer receives exactly the completed record once, or nothing when a runtime value panics. |
| Records.DisableLevelWriter.Field | LevelWriter.go:206-233 | Every field method of the disabled writer returns the writer itself. |
| Records.CloneWriter | LevelWriter.go:98-110 | A disabled writer clones to itself (LevelWriter.go:242-244); a default one as Clone. |
| Records.StringField | LevelWriter.go:136-141 | Through the interface: the disabled writer is unchanged, a default one appends the field to its own prefix. Only that writer may change, and its chain stays as it was. |
| Records.MsgWriter | LevelWriter.go:165-181 | Through the interface: the disabled writer writes nothing (LevelWriter.go:235-237), a default one as Msg. |
| Sinks.Sink.Write | writer.go:57-64 | The leaf writer records the bytes and reports its fault or the full length. |
| Sinks.Sink.Close | writer.go:72-77 | The leaf writer counts one more close. |
| Sinks.FirstFault | writer.go:57-64 | The first writer in list order that fails, or the list length. |
| Sinks.Called | writer.go:57-64 | The writers Write visits: all, or those up to and including the first that fails. |
| Sinks.WriteResult | writer.go:57-70 | An empty list gives (0, NotNil("未找到对象")); a failing writer gives its (0, error); otherwise (len(p), nil). |
| Sinks.WriteOne | writer.go:61 | One writer receives the bytes, keeping the delivery invariant of the walk. |
| Sinks.MultipleWriter.constructor | writer.go:19-22 | A node with this writer in front of the next node's list. |
| Sinks.MultipleWriter.Write | writer.go:57-70 | Each writer receives the bytes once per occurrence among the visited writers, nothing else changes, and the result is WriteResult. |
| Sinks.MultipleWriter.WriteNodes | writer.go:58-64 | The loop over the nodes delivers to the visited writers and returns WriteResult. |
| Sinks.MultipleWriter.Close | writer.go:72-77 | Each writer is closed once per occurrence in the list, and receives nothing. |
| Sinks.NewMultipleWriter | writer.go:41-55 | The list holds the writers in reverse order of the arguments, and has no writer exactly when given none. |
| Sinks.Reverse | writer.go:41-55 | The reverse of a sequence. |
| Sinks.ReverseSnoc | writer.go:49-52 | Adding a writer last to the arguments puts it first in the list. |
| Sinks.CountSnoc | writer.go:60-64 | Occurrence counting over a list extended by one writer. |
| Sinks.Repeat | writer.go:61 | `c` copies of the bytes. |
| Sinks.RotatedName | writer.go:122 | The rotated name extends the file name with the save index. |
| Sinks.Rotate | writer.go:119-125 | Rotation bumps the save index, renames the file and opens an empty one under the old name. |
| Sinks.Flush | writer.go:117-138 | `writeToDisk` as written, on the file system. Its meaning is carried by `Sinks.FlushAppends`, `Sinks.FlushRotates` and `Sinks.CloseWithRotationDropsPending`. |
| Sinks.FlushFixed | writer.go:117-138 | `writeToDisk` with the final close moved after the pending write. Its meaning is carried by `Sinks.FlushFixedKeepsPending` and `Sinks.FlushFixedAgreesWithoutRotation`. |
| Sinks.FlushAppends | writer.go:117-138 | Below the limit a flush appends the pending bytes to the open file. |
| Sinks.FlushRotates | writer.go:117-138 | A flush while running rotates an oversized file, archives it, and writes the pending bytes to the new file. |
| Sinks.CloseWithRotationDropsPending | writer.go:127-136 | As written: the final flush with rotation closes the new file before writing, so the pending bytes are lost. |
| Sinks.FlushFixedKeepsPending | writer.go:127-136 | As intended: the pending bytes reach the new file before it is closed; while running, this agrees with the code. |
| Sinks.FlushFixedAgreesWithoutRotation | writer.go:117-138 | Without rotation the corrected flush is the flush as written. |
| Sinks.FileSystem.constructor | writer.go:79-96 | A file system with the given files and no archives. |
| Sinks.FileWriter.constructor | writer.go:79-96 | A writer with an empty 2 MiB buffer, save index 0 and its file open (created if missing). |
| Sinks.FileWriter.WriteToDisk | writer.go:117-138 | The file system and rotation state become Flush of the old state and the pending bytes; the buffer is emptied. |
| Sinks.FileWriter.Write | writer.go:103-115 | Flushes first when the bytes do not fit, then buffers them and reports len(p); bytes larger than the whole buffer break the writer. |
| Sinks.FileWriter.CopyIn | writer.go:111 | Copying bytes that fit puts them after the pending ones. |
| Sinks.FileWriter.WriteChecked | writer.go:103-115 | Corrected Write: an oversized write goes straight to disk after the flush, and the writer stays valid. |
| Sinks.FileWriter.Close | writer.go:99-101 | The final flush, with isClose set. |
| Logging.MinLevel | Logger.go:75-78 | A level above PANIC becomes DISABLE; others are kept. |
| Logging.Logger.constructor | Logger.go:74-90 | New: minimum level clamped, every slot TRACE..PANIC filled, with a fresh prototype from the minimum up. |
| Logging.Logger.Refresh | Logger.go:92-102 | Slots below the minimum hold the disabled writer; the others hold a fresh prototype for their level. |
| Logging.Logger.Get | Logger.go:146-206 | Below the minimum a disabled writer; otherwise a fresh clone of the level's prototype, writing to the logger's writer in its pattern. |
| Logging.Logger.Trace | Logger.go:146-152 | Below the minimum a fresh disabled writer; otherwise a fresh clone of the TRACE prototype, with its prefix and chain, writing to the logger's writer in its pattern. |
| Logging.Logger.Debug | Logger.go:155-161 | Below the minimum a fresh disabled writer; otherwise a fresh clone of the DEBUG prototype, with its prefix and chain, writing to the logger's writer in its pattern. |
| Logging.Logger.Info | Logger.go:164-170 | Below the minimum a fresh disabled writer; otherwise a fresh clone of the INFO prototype, with its prefix and chain, writing to the logger's writer in its pattern. |
| Logging.Logger.Warn | Logger.go:173-179 | Below the minimum a fresh disabled writer; otherwise a fresh clone of the WARN prototype, with its prefix and chain, writing to the logger's writer in its pattern. |
| Logging.Logger.Error | Logger.go:182-188 | Below the minimum a fresh disabled writer; otherwise a fresh clone of the ERROR prototype, with its prefix and chain, writing to the logger's writer in its pattern. |
| Logging.Logger.Fatal | Logger.go:191-197 | Below the minimum a fresh disabled writer; otherwise a fresh clone of the FATAL prototype, with its prefix and chain, writing to the logger's writer in its pattern. |
| Logging.Logger.Panic | Logger.go:200-206 | Below the minimum a fresh disabled writer; otherwise a fresh clone of the PANIC prototype, with its prefix and chain, writing to the logger's writer in its pattern. |
| Logging.Logger.Close | Logger.go:104-106 | Closes the writer once and writes nothing. |
| Logging.LogAt | Logger.go:146-206 | From a new logger, a message at or above the minimum is written once as the level's default line, below it nothing, and nothing panics. |
| Config.ErrorTextNames | config.go:11-21 | The NotNil and NotUnderstand messages determine the value they were built from. |
| Config.LevelNamesAgree | config.go:199-208 | The lower-cased name of each level TRACE..PANIC is registered for that level; DISABLE's empty name is not, "disable" is. |
| Config.Registry.Snapshot | config.go:195-197 | The three registries as they stand. |
| Config.Registry.constructor | config.go:199-219 | init registers the eight level names, `jsonpattern`/`old`, and `console`/`file`/`multiple`. |
| Config.Registry.RegisterInitRef | config.go:223-231 | A nil callback is NotNil("初始化方法　initRef") and changes nothing; otherwise its entries are added. |
| Config.CheckCorrect | config.go:160-172 | No error exactly when all three names are registered; otherwise the first failing check's error with the id. |
| Config.DefaultLevel | config.go:67-83 | Default "debug"; strings lower-cased; numbers taken as a uint8, above 7 MistakeType("0..7", …), else the lower-cased level name (empty for 7); anything else NotUnderstand. |
| Config.DefaultName | config.go:86-105 | Default when missing, lower-cased string when present, NotUnderstand(key) for anything else. |
| Config.ConfigDefaults | config.go:67-105 | The three defaults, lower-case, exist exactly when each is well-formed. |
| Config.Fill | config.go:123-138 | An entry name: the default when missing, lower-cased when a string, a panic otherwise; other keys unchanged. |
| Config.FillKeepsLower | config.go:123-138 | An already lower-case name is left in place. |
| Config.CompleteEntry | config.go:117-146 | A missing Id is NotNil("ID"), before anything changes. Otherwise the first non-string name among LogLevel, Pattern, Writer panics, then a non-string Id panics. A missing WriterPara is NotNil("ID:<id>的参数WriterPara"). Otherwise the error is checkCorrect's for the id and the filled names (lower-cased own name, or the default). An entry that passes has a string Id, WriterPara and registered lower-case names. |
| Config.EntryKeepsOtherFields | config.go:117-146 | Only LogLevel, Pattern and Writer are added or rewritten; missing ones get the defaults. |
| Config.EntryIdempotent | config.go:117-146 | A completed entry comes through unchanged. |
| Config.CompleteElement | config.go:116-149 | A non-object element is NotUnderstand("数组内值必须为json"); an object that passes is completed. |
| Config.FirstFailing | config.go:115-150 | The first element whose step fails, or the length. |
| Config.CompleteLogs | config.go:115-150 | The walk keeps the array's length. |
| Config.CompleteLogsStopsAtFirstFailure | config.go:115-150 | Elements up to and including the first failure are rewritten, later ones untouched, and the error is that element's. |
| Config.LogsIdempotent | config.go:115-150 | A walk whose every element is already complete changes nothing. |
| Config.Completion | config.go:65-157 | Same keys, only Logs rewritten. A bad default is returned unchanged with its error. So is a `checkCorrect("default", …)` error. With good defaults and no Logs the configuration is accepted unchanged, and a non-array Logs is NotUnderstand("Logs"). A Logs array is replaced by the walk of `CompleteLogs` over its entries, with the walk's error, so `Config.CompleteLogsStopsAtFirstFailure` applies. |
| Config.CompletionValidates | config.go:65-157 | An accepted configuration has well-formed defaults whose names are registered, and a Logs array of completed entries. |
| Config.NumericDisableRejected | config.go:74-79 | A numeric LogLevel of 7 passes the range check, but its empty name is unregistered, so the configuration is refused with MistakeType("id:default,trace..disable", ""). |
| Config.DefaultsAgree | config.go:67-105 | The defaults depend only on LogLevel, Pattern and Writer. |
| Config.CompletedLogsUnchanged | config.go:115-150 | A Logs array of completed entries is unchanged by the walk. |
| Config.CompletionIdempotent | config.go:65-157 | Completing an accepted configuration again accepts it unchanged. |
| Config.EmptyConfigAccepted | config.go:65-157 | An empty configuration is accepted unchanged by the registries init fills. |
| Config.ConfigTree.constructor | config.go:42 | The decoded configuration tree. |
| Config.CompletionConfig | config.go:65-157 | The tree becomes Completion of the old tree and the error is Completion's. |
| Config.CompleteEntries | config.go:112-154 | The in-place loop over Logs leaves exactly CompleteLogs's result in the tree and returns its error. |
| Config.FirstFailingAt | config.go:115-150 | The index before which no element fails, and at which one does, is FirstFailing. |
| Config.LogsResult | config.go:115-150 | What the loop has built when it stops is CompleteLogs's result. |

## Left out

- Floating point: `AppendFloat64` (jsonPattern.go:44-56, oldPattern.go:41-51) and the `Float32`/`Float64` field methods are not modelled.
- `Msgf`: its `fmt.Sprintf` formatting is not modelled; it is Msg with a formatted message.
- Time formatting: `time.Time.AppendFormat` is not modelled; its text is the `formattedTime` parameter.
- Other Go runtime calls: `time.Now`, `runtime.Caller` and `runtime.Stack` are parameters.
- Real I/O: the console writer, `os.Stat`, `os.Rename`, `createLogWriteFile`, `CompressFile` and `os.Remove` act on a map from names to contents. Errors these calls ignore in the source are not modelled.
- Concurrency: the `FileWriter` mutex and the goroutine that gzips a rotated file are left out. The gzip is taken to run at once.
- `loadLogs` and `NewLogFromConfig`: reading and decoding the file (`NotFoundFile`), reflection and `SetConfig` are left out. Note that `loadLogs` passes `refLevel["LogLevel"]`, which is always TRACE.
- The plugin directory, and the package-level `defaultLog` and its accessors (Logger.go:40-44, 110-143), are not part of this model.
- The `Writer` interface: dispatch between `FileWriter` and `MultipleWriter` nesting is not modelled. A `LevelWriter` and a `MultipleWriter` write to leaf `Sink` writers.
- Sinks.MultipleWriter.Close: requires at least one writer, because Go calls `Close` on a nil interface for an empty list.
- Sinks.NewMultipleWriter: nil elements of `writers ...Writer` are not modelled.
- Config.DefaultLevel: numbers are whole; a fractional `float64` and its truncation are not modelled. Values outside 0..255 are reduced modulo 256, as the conversion does on amd64.
- Bytes.ToLower: only ASCII letters are lowered. `strings.ToLower`'s other Unicode mappings are not modelled.
- Config.Registry.RegisterInitRef: the callback is modelled as the entries it adds. A callback that removes entries or does anything else is not modelled.
- Records.DisableLevelWriter.Field: stands for the disabled writer's nine field methods. Each returns the writer itself.
- Records.DefaultLevelWriter.Msg: builds the record from a copy of the writer's prefix. In Go, `buf := lw.buffer` shares the clone's own array. In the old format the time-value prepend (oldPattern.go:71-74) then overwrites the start of the clone's visible prefix with the time text. A second Msg on the same clone would write a corrupted line. The model leaves the prefix intact, so reusing a clone after Msg is not modelled. Codec.OldPrependInPlace models the prepend itself, on an array.
- Sinks.Sink.Write: a failing writer reports a count of 0 with its error. A Go writer may report any count, which MultipleWriter.Write passes on (writer.go:61-63). Sinks.WriteResult inherits this.
- Sinks.FileWriter.constructor: cannot fail. `NewFileWriter` returns the error of `createLogWriteFile` (writer.go:82-85), which is not modelled.
- Codec.Append: the capacity Go's `append` allocates when it grows is not modelled; the new array is just large enough.
- The `.(string)` panics in `completionConfig` are results (`AssertionPanic`) rather than aborts.

## Findings

| source | as written | input that shows it | evidently intended | confidence | as-written member | corrected member |
|---|---|---|---|---|---|---|
| writer.go:127-136 | On the final flush with rotation, `writeToDisk(true)` closes the newly created file, then writes the buffer to the closed handle. The pending bytes are lost. | `Close()` on a writer whose file is larger than `maxCapacity` while the buffer holds data | The buffered bytes are written to the new file before it is closed | not executed | Sinks.CloseWithRotationDropsPending | Sinks.FlushFixedKeepsPending |
| writer.go:107-112 | `Write` flushes, then copies a `p` longer than the whole buffer truncated and sets `buflen` to `len(p)`, beyond the capacity. The next flush slices `buffer[:buflen]` out of range and panics; the truncated bytes are lost. | `Write` of 2 MiB + 1 bytes | An oversized write goes to disk directly and the buffer stays consistent | not executed | Sinks.FileWriter.Write | Sinks.FileWriter.WriteChecked |
