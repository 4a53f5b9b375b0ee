/**
 * The readings every WallClock derives from its zoned date-time: the default
 * methods date(), time() and dateTime(), and the contract of offset.
 */
module WallClock {
  import T = Temporal

  /** date(): the day on which the clock's instant falls in the clock's zone. */
  function Date(z: T.ZonedDateTime): (d: T.Date)
    ensures d == (T.ToInstant(z) + T.OffsetNanos(z.zone)) / T.NanosPerDay
  {
    T.DayDivision(T.LocalNanos(z.dateTime), z.dateTime.date, z.dateTime.time);
    z.dateTime.date
  }

  /** time(): how far into that day the clock's instant is, in the clock's zone. */
  function Time(z: T.ZonedDateTime): (t: T.Time)
    ensures t == (T.ToInstant(z) + T.OffsetNanos(z.zone)) % T.NanosPerDay
  {
    T.DayDivision(T.LocalNanos(z.dateTime), z.dateTime.date, z.dateTime.time);
    z.dateTime.time
  }

  /** dateTime(): the clock's instant as a local date-time in its zone, zone dropped. */
  function DateTime(z: T.ZonedDateTime): (dt: T.LocalDateTime)
    ensures dt == T.OfLocalNanos(T.ToInstant(z) + T.OffsetNanos(z.zone))
  {
    T.LocalNanosRoundTrip(z.dateTime);
    z.dateTime
  }

  /** The three readings agree: dateTime() is date() at time(). */
  lemma {:induction false} ProjectionsAgree(z: T.ZonedDateTime)
    ensures DateTime(z) == T.AtTime(Date(z), Time(z))
  {
  }

  /** The readings together with the zone give back the zoned date-time. */
  lemma {:induction false} ProjectionsDetermine(z: T.ZonedDateTime)
    ensures T.ZonedDateTime(T.AtTime(Date(z), Time(z)), z.zone) == z
  {
  }

  /**
   * offset(d): the date and the time read from the offset value are those of
   * this clock's local reading moved on by d, in the same zone.
   */
  lemma {:induction false} OffsetAddsDuration(z: T.ZonedDateTime, d: T.Duration)
    ensures Date(T.Plus(z, d)) == (T.LocalNanos(DateTime(z)) + d) / T.NanosPerDay
    ensures Time(T.Plus(z, d)) == (T.LocalNanos(DateTime(z)) + d) % T.NanosPerDay
    ensures T.Plus(z, d).zone == z.zone
  {
    var r := T.Plus(z, d);
    T.DayDivision(T.LocalNanos(r.dateTime), r.dateTime.date, r.dateTime.time);
  }
}
