/**
 * What the core takes from the libraries and the machine it runs on, as values:
 * `time.Parse` per layout, the clock, Go's regular-expression engine, and the
 * `String()` renderings of times and decimals. Each is a total function, so the
 * model holds for every behaviour those libraries could have.
 */
module Host {
  import opened Wrappers
  import GoTime

  datatype Platform = Platform(
    /** `time.Parse(layout, text)`, `None` standing for its error. */
    parse: (string, string) -> Option<GoTime.Time>,
    /** `time.Now()`, read once for the whole run. */
    now: GoTime.Time,
    /** Whether `regexp.Compile` accepts a pattern. */
    compiles: string -> bool,
    /** `MatchString` of a compiled pattern on a text. */
    matches: (string, string) -> bool,
    /** `time.Time.String()`. */
    showTime: GoTime.Time -> string,
    /** `decimal.Decimal.String()`. */
    showDecimal: real -> string)
}
