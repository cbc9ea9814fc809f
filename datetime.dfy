/**
 * `datetime/datetime.go`: the date-and-time format tables and `ParseDateTime`,
 * which tries each format's layout in order and adjusts the first parse that
 * succeeds with the current year, the current day or the local zone.
 */
module DateTime {
  import opened Wrappers
  import GoText
  import GoTime
  import Host

  datatype DateTimeFormat = DateTimeFormat(
    layout: string,
    /** The layout has no year: take the current one. */
    useCurrentYear: bool,
    /** The layout has no date: take today's month and day. */
    useCurrentDay: bool,
    /** The layout has no zone: read the wall clock in the local zone. */
    useLocalTimezone: bool)

  /** The formats a date/time literal written unquoted in a script may take. */
  const LiteralFormats: seq<DateTimeFormat> := [
    DateTimeFormat("2006-01-02T15:04:05.000Z", false, false, false),
    DateTimeFormat("2006-01-02T15:04:05", false, false, true),
    DateTimeFormat("2006-01-02T15:04", false, false, true),
    DateTimeFormat("2006-01-02T15", false, false, true),
    DateTimeFormat("2006-01-02T", false, false, true),
    DateTimeFormat("01-02T", true, false, true),
    DateTimeFormat("20060102T15:04:05.000Z", false, false, false),
    DateTimeFormat("20060102T15:04:05", false, false, true),
    DateTimeFormat("20060102T15:04", false, false, true),
    DateTimeFormat("20060102T15", false, false, true),
    DateTimeFormat("20060102T", false, false, true),
    DateTimeFormat("0102T", true, false, true)
  ]

  /** The formats tried when untyped text is compared with a date/time. */
  const CoercionFormats: seq<DateTimeFormat> := [
    DateTimeFormat("2006-01-02T15:04:05.000Z", false, false, false),
    DateTimeFormat("2006-01-02T15:04:05", false, false, true),
    DateTimeFormat("2006-01-02T15:04", false, false, true),
    DateTimeFormat("2006-01-02T15", false, false, true),
    DateTimeFormat("2006-01-02T", false, false, true),
    DateTimeFormat("2006-01-02", false, false, true),
    DateTimeFormat("20060102T15:04:05.000Z", false, false, false),
    DateTimeFormat("20060102T15:04:05", false, false, true),
    DateTimeFormat("20060102T15:04", false, false, true),
    DateTimeFormat("20060102T15", false, false, true),
    DateTimeFormat("20060102T", false, false, true),
    DateTimeFormat("20060102", false, false, true),
    DateTimeFormat("Mon Jan 2 15:04:05 PST 2006", false, false, false),
    DateTimeFormat("Monday Jan 2 15:04:05 PST 2006", false, false, false),
    DateTimeFormat("Mon Jan 2 15:04:05", true, false, true),
    DateTimeFormat("Monday Jan 2 15:04:05", true, false, true),
    DateTimeFormat("2Jan06", false, false, true),
    DateTimeFormat("15:05AM", true, true, true),
    DateTimeFormat("Jan 2 15:04", true, false, true),
    DateTimeFormat("Jan 2, 2006", false, false, true),
    DateTimeFormat("January 2, 2006", false, false, true),
    DateTimeFormat("Jan _2 2006", false, false, true)
  ]

  /** Whether `text` ends with `s`. */
  predicate EndsWith(text: string, s: string) {
    |s| <= |text| && text[|text| - |s|..] == s
  }

  /** The error `ParseDateTime` reports when no layout accepts the text. */
  function NoDateMessage(s: string): (m: string)
    ensures GoText.HasPrefix(m, "Unable to convert \"")
  {
    "Unable to convert " + GoText.Quote(s) + " to a date"
  }

  /**
   * The first format, in table order, whose layout parses `s`, and what it parsed.
   */
  function FirstParsed(parse: (string, string) -> Option<GoTime.Time>, formats: seq<DateTimeFormat>, s: string)
    : (r: Option<(nat, GoTime.Time)>)
    ensures r.Some? ==> r.value.0 < |formats| && parse(formats[r.value.0].layout, s) == Some(r.value.1)
    ensures r.Some? ==> forall j :: 0 <= j < r.value.0 ==> parse(formats[j].layout, s).None?
    ensures r.None? <==> forall j :: 0 <= j < |formats| ==> parse(formats[j].layout, s).None?
  {
    if formats == [] then None
    else match parse(formats[0].layout, s)
      case Some(t) => Some((0, t))
      case None =>
        match FirstParsed(parse, formats[1..], s)
        case None => None
        case Some((k, t)) => Some((k + 1, t))
  }

  /**
   * The three replacements of `ParseDateTime`, applied in order to a parsed time.
   * Each flag replaces only its own fields: the year, the month and day, or the
   * location. The clock fields always come from the parsed time.
   */
  function Adjust(f: DateTimeFormat, t: GoTime.Time, now: GoTime.Time): (a: GoTime.Time)
    ensures a.year == (if f.useCurrentYear then now.year else t.year)
    ensures a.month == (if f.useCurrentDay then now.month else t.month)
    ensures a.day == (if f.useCurrentDay then now.day else t.day)
    ensures a.loc == (if f.useLocalTimezone then now.loc else t.loc)
    ensures a.hour == t.hour && a.minute == t.minute
    ensures a.second == t.second && a.nanosecond == t.nanosecond
  {
    var t1 := if f.useCurrentYear
      then GoTime.Date(now.year, t.month, t.day, t.hour, t.minute, t.second, t.nanosecond, t.loc) else t;
    var t2 := if f.useCurrentDay
      then GoTime.Date(t1.year, now.month, now.day, t1.hour, t1.minute, t1.second, t1.nanosecond, t1.loc) else t1;
    if f.useLocalTimezone
      then GoTime.Date(t2.year, t2.month, t2.day, t2.hour, t2.minute, t2.second, t2.nanosecond, now.loc) else t2
  }

  /**
   * What `ParseDateTime(formats, s)` returns: it fails, with the text quoted in the
   * message, exactly when no layout parses.
   */
  function ParseDateTimeSpec(p: Host.Platform, formats: seq<DateTimeFormat>, s: string): (r: Result<GoTime.Time, string>)
    ensures r.Err? <==> forall j :: 0 <= j < |formats| ==> p.parse(formats[j].layout, s).None?
    ensures r.Err? ==> r.error == NoDateMessage(s)
  {
    match FirstParsed(p.parse, formats, s)
    case None => Err(NoDateMessage(s))
    case Some((k, t)) => Ok(Adjust(formats[k], t, p.now))
  }

  /** `ParseDateTime`: try the layouts in order; the first that parses is adjusted and returned. */
  method ParseDateTime(p: Host.Platform, formats: seq<DateTimeFormat>, s: string) returns (r: Result<GoTime.Time, string>)
    ensures r == ParseDateTimeSpec(p, formats, s)
  {
    for i := 0 to |formats|
      invariant forall j :: 0 <= j < i ==> p.parse(formats[j].layout, s).None?
    {
      var f := formats[i];
      var parsed := p.parse(f.layout, s);
      if parsed.Some? {
        var t := parsed.value;
        if f.useCurrentYear {
          t := GoTime.Date(p.now.year, t.month, t.day, t.hour, t.minute, t.second, t.nanosecond, t.loc);
        }
        if f.useCurrentDay {
          t := GoTime.Date(t.year, p.now.month, p.now.day, t.hour, t.minute, t.second, t.nanosecond, t.loc);
        }
        if f.useLocalTimezone {
          t := GoTime.Date(t.year, t.month, t.day, t.hour, t.minute, t.second, t.nanosecond, p.now.loc);
        }
        FirstParsedIsFirst(p.parse, formats, s, i);
        return Ok(t);
      }
    }
    return Err(NoDateMessage(s));
  }

  /** The first format whose layout parses decides the result. */
  lemma FirstParsedIsFirst(parse: (string, string) -> Option<GoTime.Time>, formats: seq<DateTimeFormat>, s: string, k: nat)
    requires k < |formats| && parse(formats[k].layout, s).Some?
    requires forall j :: 0 <= j < k ==> parse(formats[j].layout, s).None?
    ensures FirstParsed(parse, formats, s) == Some((k, parse(formats[k].layout, s).value))
  {
  }

  /** `ParseDateTime` returns the adjusted result of the first layout that parses. */
  lemma ParseDateTimeFirstMatch(p: Host.Platform, formats: seq<DateTimeFormat>, s: string, k: nat)
    requires k < |formats| && p.parse(formats[k].layout, s).Some?
    requires forall j :: 0 <= j < k ==> p.parse(formats[j].layout, s).None?
    ensures ParseDateTimeSpec(p, formats, s) == Ok(Adjust(formats[k], p.parse(formats[k].layout, s).value, p.now))
  {
    FirstParsedIsFirst(p.parse, formats, s, k);
  }

  /** With no flag set the parsed time is returned as it is. */
  lemma AdjustWithoutFlags(f: DateTimeFormat, t: GoTime.Time, now: GoTime.Time)
    requires !f.useCurrentYear && !f.useCurrentDay && !f.useLocalTimezone
    ensures Adjust(f, t, now) == t
  {
  }

  /** The literal layouts without a year, and only those, take the current year. */
  lemma LiteralFormatsYearless()
    ensures forall i :: 0 <= i < |LiteralFormats| ==>
      (LiteralFormats[i].useCurrentYear <==> LiteralFormats[i].layout in {"01-02T", "0102T"})
  {
  }

  /** The layouts that end in a literal `Z` zone never take the local zone. */
  lemma ZuluFormatsKeepTheirZone()
    ensures forall i :: 0 <= i < |LiteralFormats| && EndsWith(LiteralFormats[i].layout, ".000Z") ==>
      !LiteralFormats[i].useLocalTimezone
    ensures forall i :: 0 <= i < |CoercionFormats| && EndsWith(CoercionFormats[i].layout, ".000Z") ==>
      !CoercionFormats[i].useLocalTimezone
  {
    forall i | 0 <= i < |LiteralFormats| && EndsWith(LiteralFormats[i].layout, ".000Z")
      ensures !LiteralFormats[i].useLocalTimezone
    {
      EndsInZ(LiteralFormats[i].layout);
    }
    forall i | 0 <= i < |CoercionFormats| && EndsWith(CoercionFormats[i].layout, ".000Z")
      ensures !CoercionFormats[i].useLocalTimezone
    {
      EndsInZ(CoercionFormats[i].layout);
    }
  }

  /** A layout ending in `.000Z` ends in `Z`. */
  lemma EndsInZ(layout: string)
    requires EndsWith(layout, ".000Z")
    ensures layout != [] && layout[|layout| - 1] == 'Z'
  {
    assert layout[|layout| - 5..][4] == 'Z';
  }

  /** Only the clock-only coercion layout takes today's date. */
  lemma CoercionFormatsCurrentDay()
    ensures forall i :: 0 <= i < |CoercionFormats| ==>
      (CoercionFormats[i].useCurrentDay <==> CoercionFormats[i].layout == "15:05AM")
  {
  }
}
