/**
 * The part of java.time that the clocks rely on, for time-zones with a fixed
 * UTC offset (no daylight saving). A date is a day count from 1970-01-01, a
 * time of day and an instant are nanosecond counts, and a zone carries its id
 * and its offset.
 */
module Temporal {

  const NanosPerSecond: int := 1_000_000_000
  const NanosPerDay: int := 86_400_000_000_000

  /** LocalDate: days since 1970-01-01 (negative before it). */
  type Date = int

  /** LocalTime: nanoseconds since midnight. */
  type Time = t: int | 0 <= t < 86_400_000_000_000

  /** Instant: nanoseconds since 1970-01-01T00:00Z. */
  type Instant = int

  /** Duration: a signed number of nanoseconds. */
  type Duration = int

  const Midnight: Time := 0

  /** ZoneId with a fixed offset; two zones are equal only when their ids are. */
  datatype Zone = Zone(id: string, offsetSeconds: int)

  /** ZoneOffset.UTC, whose id is "Z". */
  const UTC: Zone := Zone("Z", 0)

  datatype LocalDateTime = LocalDateTime(date: Date, time: Time)

  datatype ZonedDateTime = ZonedDateTime(dateTime: LocalDateTime, zone: Zone)

  /** LocalDate.atTime. */
  function AtTime(date: Date, time: Time): (dt: LocalDateTime)
    ensures dt.date == date && dt.time == time
  {
    LocalDateTime(date, time)
  }

  /** Position of a local date-time on the local time line, in nanoseconds. */
  function LocalNanos(dt: LocalDateTime): int
  {
    dt.date * NanosPerDay + dt.time
  }

  /** Euclidean division by the length of a day has one answer. */
  lemma DayDivision(n: int, date: int, time: int)
    requires 0 <= time < NanosPerDay && n == date * NanosPerDay + time
    ensures n / NanosPerDay == date && n % NanosPerDay == time
  {
  }

  /** The local date-time a local nanosecond count falls on. */
  function OfLocalNanos(n: int): (dt: LocalDateTime)
    ensures LocalNanos(dt) == n
  {
    LocalDateTime(n / NanosPerDay, n % NanosPerDay)
  }

  lemma {:induction false} LocalNanosRoundTrip(dt: LocalDateTime)
    ensures OfLocalNanos(LocalNanos(dt)) == dt
  {
    DayDivision(LocalNanos(dt), dt.date, dt.time);
  }

  function OffsetNanos(zone: Zone): int
  {
    zone.offsetSeconds * NanosPerSecond
  }

  /** ZonedDateTime.toInstant: the local date-time minus the zone's offset. */
  function ToInstant(z: ZonedDateTime): (i: Instant)
    ensures i + OffsetNanos(z.zone) == LocalNanos(z.dateTime)
  {
    LocalNanos(z.dateTime) - OffsetNanos(z.zone)
  }

  /** ZonedDateTime.ofInstant: the instant as seen in the zone. */
  function OfInstant(i: Instant, zone: Zone): (z: ZonedDateTime)
    ensures ToInstant(z) == i && z.zone == zone
  {
    ZonedDateTime(OfLocalNanos(i + OffsetNanos(zone)), zone)
  }

  /** A zoned date-time is determined by its instant and its zone. */
  lemma {:induction false} OfInstantToInstant(z: ZonedDateTime)
    ensures OfInstant(ToInstant(z), z.zone) == z
  {
    LocalNanosRoundTrip(z.dateTime);
  }

  /** ZonedDateTime.with(LocalDate): replaces the date, keeps time and zone. */
  function WithDate(z: ZonedDateTime, date: Date): (r: ZonedDateTime)
    ensures r.dateTime.date == date && r.dateTime.time == z.dateTime.time && r.zone == z.zone
  {
    ZonedDateTime(LocalDateTime(date, z.dateTime.time), z.zone)
  }

  /** ZonedDateTime.with(LocalTime): replaces the time, keeps date and zone. */
  function WithTime(z: ZonedDateTime, time: Time): (r: ZonedDateTime)
    ensures r.dateTime.date == z.dateTime.date && r.dateTime.time == time && r.zone == z.zone
  {
    ZonedDateTime(LocalDateTime(z.dateTime.date, time), z.zone)
  }

  /** ZonedDateTime.with(LocalDateTime): replaces date and time, keeps the zone. */
  function WithDateTime(z: ZonedDateTime, dateTime: LocalDateTime): (r: ZonedDateTime)
    ensures r.dateTime == dateTime && r.zone == z.zone
  {
    ZonedDateTime(dateTime, z.zone)
  }

  /** ZonedDateTime.plus(Duration): moves the instant, keeps the zone. */
  function Plus(z: ZonedDateTime, d: Duration): (r: ZonedDateTime)
    ensures ToInstant(r) == ToInstant(z) + d && r.zone == z.zone
    ensures LocalNanos(r.dateTime) == LocalNanos(z.dateTime) + d
  {
    OfInstant(ToInstant(z) + d, z.zone)
  }

  /** Adding nothing gives back the same zoned date-time. */
  lemma {:induction false} PlusZero(z: ZonedDateTime)
    ensures Plus(z, 0) == z
  {
    OfInstantToInstant(z);
  }

  /** Adding one day moves the date by one and keeps the time of day. */
  lemma {:induction false} PlusOneDay(z: ZonedDateTime)
    ensures Plus(z, NanosPerDay).dateTime == LocalDateTime(z.dateTime.date + 1, z.dateTime.time)
    ensures Plus(z, NanosPerDay).zone == z.zone
  {
    var r := Plus(z, NanosPerDay);
    DayDivision(LocalNanos(r.dateTime), z.dateTime.date + 1, z.dateTime.time);
    LocalNanosRoundTrip(r.dateTime);
  }

  /** ZonedDateTime.withZoneSameInstant. */
  function WithZoneSameInstant(z: ZonedDateTime, zone: Zone): (r: ZonedDateTime)
    ensures ToInstant(r) == ToInstant(z) && r.zone == zone
  {
    OfInstant(ToInstant(z), zone)
  }

  /** Re-zoning to a zone with the same id keeps the zoned date-time itself. */
  lemma {:induction false} WithSameZoneKeepsValue(z: ZonedDateTime)
    ensures WithZoneSameInstant(z, z.zone) == z
  {
    OfInstantToInstant(z);
  }
}
