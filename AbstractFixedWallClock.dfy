/**
 * The state shared by the settable clocks: one zoned date-time and a cache
 * of its instant, with the getters over them, the null-checked replacement
 * `set`, and the values the convenience constructors start from.
 *
 * The concrete clocks own a FixedValue (composition in place of the
 * source's inheritance from an abstract base class).
 */
module AbstractFixedWallClock {
  import T = Temporal
  import W = WallClock
  import opened Wrappers

  /** The zoned date-time the (LocalDate[, ZoneId]) constructors start from. */
  function OfDate(date: T.Date, zone: T.Zone := T.UTC): (z: T.ZonedDateTime)
    ensures W.Date(z) == date && W.Time(z) == T.Midnight && z.zone == zone
    ensures T.ToInstant(z) == date * T.NanosPerDay - T.OffsetNanos(zone)
  {
    T.ZonedDateTime(T.AtTime(date, T.Midnight), zone)
  }

  /**
   * The zoned date-time the (LocalTime[, ZoneId]) constructors start from;
   * `today` stands for the current date in the zone, which the source reads
   * from the system clock.
   */
  function OfTime(time: T.Time, today: T.Date, zone: T.Zone := T.UTC): (z: T.ZonedDateTime)
    ensures W.Date(z) == today && W.Time(z) == time && z.zone == zone
  {
    T.ZonedDateTime(T.AtTime(today, time), zone)
  }

  /** The zoned date-time the (LocalDateTime[, ZoneId]) constructors start from. */
  function OfDateTime(dateTime: T.LocalDateTime, zone: T.Zone := T.UTC): (z: T.ZonedDateTime)
    ensures W.DateTime(z) == dateTime && z.zone == zone
    ensures T.ToInstant(z) == T.LocalNanos(dateTime) - T.OffsetNanos(zone)
  {
    T.ZonedDateTime(dateTime, zone)
  }

  /** The mutable value of a fixed clock: a zoned date-time and its cached instant. */
  class FixedValue {
    var zdt: T.ZonedDateTime
    var instant: T.Instant

    /** The cached instant is the instant of the zoned date-time. */
    ghost predicate Valid()
      reads this
    {
      instant == T.ToInstant(zdt)
    }

    /** The ZonedDateTime constructor, for a non-null source. */
    constructor (source: T.ZonedDateTime)
      ensures Valid() && zdt == source
    {
      zdt := source;
      instant := T.ToInstant(source);
    }

    /** The ZonedDateTime constructor: a null source throws IllegalStateException. */
    static method Of(source: Option<T.ZonedDateTime>) returns (r: Result<FixedValue>)
      ensures source.None? ==> r == Err(IllegalState)
      ensures source.Some? ==> r.Ok? && fresh(r.value) && r.value.Valid()
      ensures source.Some? ==> r.value.zdt == source.value && r.value.instant == T.ToInstant(source.value)
    {
      match source
      case None =>
        r := Err(IllegalState);
      case Some(s) =>
        var v := new FixedValue(s);
        r := Ok(v);
    }

    /** zonedDateTime(): the reading, whose instant is the cached one. */
    function ZonedDateTime(): (z: T.ZonedDateTime)
      reads this
      ensures Valid() ==> T.ToInstant(z) == instant
    {
      zdt
    }

    /** instant(): the cached instant, which seen in the zone gives back the reading. */
    function Instant(): (i: T.Instant)
      reads this
      ensures Valid() ==> T.OfInstant(i, zdt.zone) == zdt
    {
      T.OfInstantToInstant(zdt);
      instant
    }

    /** getZone(): the zone of the reading; with the instant it rebuilds the reading. */
    function GetZone(): (zone: T.Zone)
      reads this
      ensures zone == zdt.zone
      ensures Valid() ==> T.OfInstant(instant, zone) == zdt
    {
      T.OfInstantToInstant(zdt);
      zdt.zone
    }

    /** equalsZonedDateTime(other): other is non-null and holds an equal reading. */
    function EqualsZonedDateTime(other: FixedValue?): (b: bool)
      reads this, other
      ensures b <==> other != null && zdt == other.zdt
      ensures b && Valid() && other.Valid() ==> instant == other.instant
    {
      other != null && zdt == other.ZonedDateTime()
    }

    /**
     * set(source): replaces the reading and then the cached instant; a null
     * source throws IllegalArgumentException and changes nothing.
     */
    method Set(source: Option<T.ZonedDateTime>) returns (r: Result<()>)
      modifies this
      ensures source.None? ==> r == Err(IllegalArgument) && unchanged(this)
      ensures source.Some? ==> r == Ok(()) && zdt == source.value && Valid()
    {
      if source.Some? {
        zdt := source.value;
        instant := T.ToInstant(zdt);
        return Ok(());
      }
      r := Err(IllegalArgument);
    }
  }
}
