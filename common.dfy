/** Shared vocabulary of the probe model: optional values, the outcome of a
    Python call that may raise, the configuration record and the command
    runner that stands for storcli. */
module Common {

  datatype Option<+T> = None | Some(value: T)

  /** A Python call either returns a value or raises an exception
      (IndexError, ValueError, KeyError or TypeError in this program).
      Nothing in the probe catches these, so any `Raised` ends the run. */
  datatype Outcome<+T> = Returned(value: T) | Raised

  /** The module-level settings of check_megaraid.py after argument parsing.
      The four temperature limits are integers; the Fahrenheit defaults
      int(60 * 9/5 + 32) and int(80 * 9/5 + 32) are 140 and 176. */
  datatype Config = Config(
    expectBattery: bool,
    expectHotspare: bool,
    ignoreUgood: bool,
    ignoreOthers: bool,
    missingOk: bool,
    slotStart: int,
    useFahrenheit: bool,
    tempLimitCWa: int,
    tempLimitCCr: int,
    tempLimitFWa: int,
    tempLimitFCr: int)

  const DefaultConfig: Config :=
    Config(true, true, false, true, false, 0, false, 60, 80, 140, 176)

  /** ERROR_LIMIT_W and ERROR_LIMIT_C. */
  const ErrorLimitW: int := 1
  const ErrorLimitC: int := 11

  /** Slots are drawn from range(SLOT_START, 2049). */
  const SlotEnd: int := 2049

  function WarnTempLimit(cfg: Config): int {
    if cfg.useFahrenheit then cfg.tempLimitFWa else cfg.tempLimitCWa
  }

  function CritTempLimit(cfg: Config): int {
    if cfg.useFahrenheit then cfg.tempLimitFCr else cfg.tempLimitCCr
  }

  /** The unit letter printed after a drive temperature. */
  function TempUnit(cfg: Config): string {
    if cfg.useFahrenheit then "F" else "C"
  }

  /** The storcli executable: the arguments after the executable path to the
      text the command prints on standard output. */
  type Runner = seq<string> -> string

  /** Concatenation associates; the solver does not find this unaided. */
  lemma AppendAssociates<T>(a: seq<T>, b: seq<T>, c: seq<T>)
    ensures (a + b) + c == a + (b + c)
  {
  }
}
