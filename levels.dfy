/** The log levels (Logger.go): a byte-sized number from TRACE up to PANIC,
    with DISABLE above them all, and the name each level is logged under. */
module Levels {
  newtype Level = x: int | 0 <= x < 256

  const TRACE: Level := 0
  const DEBUG: Level := 1
  const INFO: Level := 2
  const WARN: Level := 3
  const ERROR: Level := 4
  const FATAL: Level := 5
  const PANIC: Level := 6
  const DISABLE: Level := 7

  /** Level.String: the upper-case name of the seven levels, and the empty
      string for DISABLE and every other value. */
  function LevelString(l: Level): (r: string)
    ensures r != "" <==> l <= PANIC
    ensures 0 < |r| ==> forall j :: 0 <= j < |r| ==> 'A' <= r[j] <= 'Z'
  {
    match l
    case 0 => "TRACE"
    case 1 => "DEBUG"
    case 2 => "INFO"
    case 3 => "WARN"
    case 4 => "ERROR"
    case 5 => "FATAL"
    case 6 => "PANIC"
    case _ => ""
  }

  /** The seven names are all different, so a name tells its level. */
  lemma LevelStringInjective(a: Level, b: Level)
    requires a <= PANIC && b <= PANIC && a != b
    ensures LevelString(a) != LevelString(b)
  {
  }
}
