/**
  Instants as Python datetimes: a wall-clock reading plus an optional fixed
  UTC offset. Covers `parse_timestamp` (the local-zone fallback),
  `normalize_to_utc` and `parse_log_timestamp`.
*/
module Timestamps {
  import opened Wrappers

  const SecondsPerHour: int := 3600
  const SecondsPerDay: int := 86400

  /**
    A datetime: `clock` is the wall-clock reading in seconds since
    0001-01-01 00:00, `tz` the offset of its zone in seconds east of UTC,
    or None for a naive datetime.
  */
  datatype DateTime = DateTime(clock: int, tz: Option<int>)

  /** The date parser the tool delegates to: a text gives a datetime, naive or aware, or fails. */
  type DateParser = string -> Option<DateTime>

  predicate Aware(d: DateTime) {
    d.tz.Some?
  }

  /** The absolute instant of an aware datetime, as a UTC reading. */
  function UtcSeconds(d: DateTime): int
    requires Aware(d)
  {
    d.clock - d.tz.value
  }

  /** Python's `<=` on aware datetimes compares the absolute instants. */
  predicate Le(a: DateTime, b: DateTime)
    requires Aware(a) && Aware(b)
  {
    UtcSeconds(a) <= UtcSeconds(b)
  }

  /** Python's `<` on aware datetimes. */
  predicate Lt(a: DateTime, b: DateTime)
    requires Aware(a) && Aware(b)
  {
    UtcSeconds(a) < UtcSeconds(b)
  }

  /** Python's `==` on aware datetimes. */
  predicate SameInstant(a: DateTime, b: DateTime)
    requires Aware(a) && Aware(b)
  {
    UtcSeconds(a) == UtcSeconds(b)
  }

  /** `d.replace(tzinfo=tz)`: the same wall-clock reading under another zone label. */
  function Replace(d: DateTime, tz: Option<int>): DateTime
  {
    DateTime(d.clock, tz)
  }

  /** `d - timedelta(seconds=s)`: moves the wall clock and keeps the zone. */
  function Minus(d: DateTime, s: int): (r: DateTime)
    ensures r.tz == d.tz && r.clock == d.clock - s
    ensures Aware(d) ==> Aware(r) && UtcSeconds(r) == UtcSeconds(d) - s
  {
    DateTime(d.clock - s, d.tz)
  }

  /** `d.hour`. */
  function Hour(d: DateTime): (h: int)
    ensures 0 <= h < 24
  {
    (d.clock / SecondsPerHour) % 24
  }

  /** The wall-clock reading of `hour:minute` on the day that starts at `day`. */
  function At(day: int, hour: int, minute: int): int
  {
    day + hour * SecondsPerHour + minute * 60
  }

  // ---------------------------------------------------------------------
  // parse_timestamp

  /**
    `parse_timestamp(text)`: the parser's result, with the local zone
    attached when the parser found no zone. Parse failures are None.
  */
  function ParseTimestamp(parser: DateParser, localOffset: int, text: string): (r: Option<DateTime>)
    ensures r.Some? <==> parser(text).Some?
    ensures r.Some? ==> Aware(r.value) && r.value.clock == parser(text).value.clock
    ensures r.Some? && Aware(parser(text).value) ==> r.value == parser(text).value
    ensures r.Some? && !Aware(parser(text).value) ==> r.value.tz == Some(localOffset)
  {
    match parser(text)
    case None => None
    case Some(dt) => Some(if dt.tz.None? then Replace(dt, Some(localOffset)) else dt)
  }

  /** The zone offset a parsed text ends up with: its own, or the local one attached by `parse_timestamp`. */
  function ZoneOf(parsed: DateTime, localOffset: int): int
  {
    if parsed.tz.Some? then parsed.tz.value else localOffset
  }

  /**
    The same clock reading ending up in two different zones gives two
    different instants (`test_parse_timestamp`: "8:33am PDT" against
    "8:33am CEST"). The zones may both be explicit, or one may be the
    local zone attached to a text whose zone the parser did not know.
  */
  lemma DifferentZonesDifferentInstants(parser: DateParser, localOffset: int, t1: string, t2: string)
    requires parser(t1).Some? && parser(t2).Some?
    requires parser(t1).value.clock == parser(t2).value.clock
    requires ZoneOf(parser(t1).value, localOffset) != ZoneOf(parser(t2).value, localOffset)
    ensures var a, b := ParseTimestamp(parser, localOffset, t1), ParseTimestamp(parser, localOffset, t2);
      a.Some? && b.Some? && !SameInstant(a.value, b.value)
  {
  }

  /** A text without a zone denotes its clock reading in the local zone. */
  lemma NaiveTextIsLocal(parser: DateParser, localOffset: int, text: string)
    requires parser(text).Some? && !Aware(parser(text).value)
    ensures var r := ParseTimestamp(parser, localOffset, text);
      r.Some? && UtcSeconds(r.value) == parser(text).value.clock - localOffset
  {
  }

  // ---------------------------------------------------------------------
  // normalize_to_utc

  /** `normalize_to_utc(d)`: the same instant, relabelled with offset 0. */
  function NormalizeToUtc(d: DateTime): (r: DateTime)
    requires Aware(d)
    ensures r.tz == Some(0) && SameInstant(r, d)
  {
    DateTime(UtcSeconds(d), Some(0))
  }

  /** Normalizing is the identity on UTC datetimes, hence idempotent. */
  lemma NormalizeUtcIsIdentity(d: DateTime)
    requires d.tz == Some(0)
    ensures NormalizeToUtc(d) == d
  {
  }

  /** Normalizing preserves the order of instants in both directions. */
  lemma NormalizePreservesOrder(a: DateTime, b: DateTime)
    requires Aware(a) && Aware(b)
    ensures Le(NormalizeToUtc(a), NormalizeToUtc(b)) <==> Le(a, b)
    ensures NormalizeToUtc(a) == NormalizeToUtc(b) <==> SameInstant(a, b)
  {
  }

  /** Midnight of 2014-01-01, in seconds since 0001-01-01 00:00 (735233 days). */
  const Jan1Of2014: int := 735233 * SecondsPerDay

  const PdtOffset: int := -7 * SecondsPerHour

  /**
    `test_normalize_to_utc`: 10:00 on 2014-01-01 is hour 17 in UTC
    when read in PDT, hour 18 when read in a local zone of UTC-8, and stays
    hour 10 when read in UTC.
  */
  lemma NormalizeHourExamples()
    ensures Hour(NormalizeToUtc(DateTime(At(Jan1Of2014, 10, 0), Some(PdtOffset)))) == 17
    ensures Hour(NormalizeToUtc(DateTime(At(Jan1Of2014, 10, 0), Some(-8 * SecondsPerHour)))) == 18
    ensures Hour(NormalizeToUtc(DateTime(At(Jan1Of2014, 10, 0), Some(0)))) == 10
  {
  }

  // ---------------------------------------------------------------------
  // parse_log_timestamp

  /** The reference format whose length gives the width of a log line's timestamp. */
  const DateFormat: string := "Jul 20 06:39:45"

  /** `line[0:len(DATE_FORMAT)]`: the first 15 characters, or the whole line if shorter. */
  function LogPrefix(line: string): (p: string)
    ensures |p| == if |line| < |DateFormat| then |line| else |DateFormat|
    ensures p == line[..|p|]
  {
    if |line| <= |DateFormat| then line else line[..|DateFormat|]
  }

  /**
    `parse_log_timestamp(line)`: the prefix is parsed with `parse_timestamp`
    and the result relabelled as UTC, whatever zone the text named.
  */
  function ParseLogTimestamp(parser: DateParser, localOffset: int, line: string): (r: Option<DateTime>)
    ensures r.Some? <==> parser(LogPrefix(line)).Some?
    ensures r.Some? ==> r.value.tz == Some(0) && r.value.clock == parser(LogPrefix(line)).value.clock
  {
    match ParseTimestamp(parser, localOffset, LogPrefix(line))
    case None => None
    case Some(dt) => Some(Replace(dt, Some(0)))
  }

  /** A log line's timestamp depends only on its first 15 characters. */
  lemma LogTimestampReadsPrefixOnly(parser: DateParser, localOffset: int, line1: string, line2: string)
    requires LogPrefix(line1) == LogPrefix(line2)
    ensures ParseLogTimestamp(parser, localOffset, line1) == ParseLogTimestamp(parser, localOffset, line2)
  {
  }

  /** The local zone plays no part in a log line's timestamp. */
  lemma LogTimestampIgnoresLocalZone(parser: DateParser, local1: int, local2: int, line: string)
    ensures ParseLogTimestamp(parser, local1, line) == ParseLogTimestamp(parser, local2, line)
  {
  }

  /** A zone named in the line does not shift the instant: the clock reading is taken as UTC. */
  lemma LogTimestampIsClockAsUtc(parser: DateParser, localOffset: int, line: string)
    requires parser(LogPrefix(line)).Some?
    ensures var r := ParseLogTimestamp(parser, localOffset, line);
      r.Some? && UtcSeconds(r.value) == parser(LogPrefix(line)).value.clock
  {
  }
}
