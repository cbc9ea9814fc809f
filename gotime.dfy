/**
 * The part of Go's `time` package the core relies on: a `time.Time` as its calendar
 * fields and a location, `time.Date`, and the instant comparisons `Before`, `After`
 * and `Equal`. A location is a fixed offset from UTC.
 */
module GoTime {

  /** A time zone with a fixed offset east of UTC, in seconds. */
  datatype Location = Location(name: string, offsetSeconds: int)

  /** A `time.Time`: wall-clock fields read in `loc`. */
  datatype Time = Time(year: int, month: int, day: int, hour: int, minute: int,
                       second: int, nanosecond: int, loc: Location)

  const NanosPerSecond: int := 1_000_000_000

  /**
   * The number of days from 1970-01-01 to the given civil date, proleptic
   * Gregorian. A month outside 1..12 carries into the year and a day outside the
   * month carries into the following months, as `time.Date` normalises them.
   */
  function DaysFromCivil(year: int, month: int, day: int): int {
    var y0 := year + (month - 1) / 12;
    var m := (month - 1) % 12 + 1;
    var y := if m <= 2 then y0 - 1 else y0;
    var era := y / 400;
    var yoe := y - era * 400;
    var mp := (m + 9) % 12;
    var doy := (153 * mp + 2) / 5 + day - 1;
    var doe := yoe * 365 + yoe / 4 - yoe / 100 + doy;
    era * 146097 + doe - 719468
  }

  /** The instant `t` denotes, in nanoseconds since 1970-01-01T00:00:00Z. */
  function UnixNanos(t: Time): int {
    var days := DaysFromCivil(t.year, t.month, t.day);
    var seconds := ((days * 24 + t.hour) * 60 + t.minute) * 60 + t.second - t.loc.offsetSeconds;
    seconds * NanosPerSecond + t.nanosecond
  }

  /** `t.Before(u)`: `t` is an earlier instant than `u`. */
  predicate Before(t: Time, u: Time) {
    UnixNanos(t) < UnixNanos(u)
  }

  /** `t.After(u)`: `t` is a later instant than `u`. */
  predicate After(t: Time, u: Time) {
    UnixNanos(t) > UnixNanos(u)
  }

  /** `t.Equal(u)`: the same instant, whatever the locations. */
  predicate Equal(t: Time, u: Time) {
    UnixNanos(t) == UnixNanos(u)
  }

  /**
   * `time.Date`. The fields are kept as given; out-of-range fields are not
   * rewritten into range, but the instant is the one Go computes for them.
   */
  function Date(year: int, month: int, day: int, hour: int, minute: int, second: int,
                nanosecond: int, loc: Location): (t: Time)
    ensures t.loc == loc && t.hour == hour && t.minute == minute
    ensures UnixNanos(t) == ((DaysFromCivil(year, month, day) * 86400 + hour * 3600 + minute * 60 + second
                              - loc.offsetSeconds) * NanosPerSecond + nanosecond)
  {
    Time(year, month, day, hour, minute, second, nanosecond, loc)
  }

  /** Exactly one of `Before`, `Equal` and `After` holds for two times. */
  lemma Trichotomy(t: Time, u: Time)
    ensures Before(t, u) || Equal(t, u) || After(t, u)
    ensures !(Before(t, u) && Equal(t, u)) && !(Before(t, u) && After(t, u)) && !(Equal(t, u) && After(t, u))
  {
  }

  /** `Before` and `After` are mirror images, and `Equal` is symmetric. */
  lemma BeforeAfterMirror(t: Time, u: Time)
    ensures Before(t, u) <==> After(u, t)
    ensures Equal(t, u) <==> Equal(u, t)
  {
  }

  /** Moving to another zone while keeping the wall clock moves the instant by the offsets' difference. */
  lemma {:induction false} ChangeLocation(t: Time, loc: Location)
    ensures UnixNanos(t.(loc := loc)) == UnixNanos(t) + (t.loc.offsetSeconds - loc.offsetSeconds) * NanosPerSecond
  {
    var days := DaysFromCivil(t.year, t.month, t.day);
    var base := ((days * 24 + t.hour) * 60 + t.minute) * 60 + t.second;
    assert (base - loc.offsetSeconds) * NanosPerSecond
      == (base - t.loc.offsetSeconds) * NanosPerSecond + (t.loc.offsetSeconds - loc.offsetSeconds) * NanosPerSecond;
  }
}
