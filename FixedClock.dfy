/**
 * FixedClock: a settable clock. Each setter changes only the component it
 * targets, does nothing when that component already has the value, sends
 * every real change through FixedValue.Set, and returns the clock itself.
 */
module FixedClock {
  import T = Temporal
  import W = WallClock
  import opened Wrappers
  import opened AbstractFixedWallClock

  class FixedClock {
    const value: FixedValue

    ghost predicate Valid()
      reads this, value
    {
      value.Valid()
    }

    /** Builds the clock's own holder at `source` (super(source) on a non-null argument). */
    constructor (source: T.ZonedDateTime)
      ensures fresh(value) && Valid() && value.zdt == source
    {
      value := new FixedValue(source);
    }

    /** new FixedClock(ZonedDateTime): a null source throws IllegalStateException. */
    static method Of(source: Option<T.ZonedDateTime>) returns (r: Result<FixedClock>)
      ensures source.None? ==> r == Err(IllegalState)
      ensures source.Some? ==> r.Ok? && fresh(r.value) && fresh(r.value.value) && r.value.Valid()
      ensures source.Some? ==> r.value.value.zdt == source.value
    {
      match source
      case None =>
        r := Err(IllegalState);
      case Some(s) =>
        var c := new FixedClock(s);
        r := Ok(c);
    }

    /** setDate(date): moves to `date`, keeping time and zone; the same date is a no-op. */
    method SetDate(date: T.Date) returns (r: FixedClock)
      requires Valid()
      modifies value
      ensures r == this && Valid()
      ensures W.Date(value.zdt) == date
      ensures W.Time(value.zdt) == old(W.Time(value.zdt)) && value.zdt.zone == old(value.zdt.zone)
      ensures date == old(W.Date(value.zdt)) ==> unchanged(value)
    {
      var current := value.ZonedDateTime();
      if date != W.Date(current) {
        var outcome := value.Set(Some(T.WithDate(current, date)));
      }
      r := this;
    }

    /** setTime(time): moves to `time`, keeping date and zone; the same time is a no-op. */
    method SetTime(time: T.Time) returns (r: FixedClock)
      requires Valid()
      modifies value
      ensures r == this && Valid()
      ensures W.Time(value.zdt) == time
      ensures W.Date(value.zdt) == old(W.Date(value.zdt)) && value.zdt.zone == old(value.zdt.zone)
      ensures time == old(W.Time(value.zdt)) ==> unchanged(value)
    {
      var current := value.ZonedDateTime();
      if time != W.Time(current) {
        var outcome := value.Set(Some(T.WithTime(current, time)));
      }
      r := this;
    }

    /** setDateTime(dateTime): moves to `dateTime`, keeping the zone; the same date-time is a no-op. */
    method SetDateTime(dateTime: T.LocalDateTime) returns (r: FixedClock)
      requires Valid()
      modifies value
      ensures r == this && Valid()
      ensures W.DateTime(value.zdt) == dateTime && value.zdt.zone == old(value.zdt.zone)
      ensures dateTime == old(W.DateTime(value.zdt)) ==> unchanged(value)
    {
      var current := value.ZonedDateTime();
      if dateTime != W.DateTime(current) {
        var outcome := value.Set(Some(T.WithDateTime(current, dateTime)));
      }
      r := this;
    }

    /** offset(duration): advances the instant by `duration` in the same zone; zero is a no-op. */
    method Offset(duration: T.Duration) returns (r: FixedClock)
      requires Valid()
      modifies value
      ensures r == this && Valid()
      ensures value.instant == old(value.instant) + duration && value.zdt.zone == old(value.zdt.zone)
      ensures value.zdt == T.Plus(old(value.zdt), duration)
      ensures duration == 0 ==> unchanged(value)
    {
      var current := value.ZonedDateTime();
      if duration != 0 {
        var outcome := value.Set(Some(T.Plus(current, duration)));
      } else {
        T.PlusZero(current);
      }
      r := this;
    }

    /** withZone(zone): a new clock at the same instant seen in `zone`; this clock is untouched. */
    method WithZone(zone: T.Zone) returns (c: FixedClock)
      requires Valid()
      ensures fresh(c) && fresh(c.value) && c.Valid()
      ensures c.value.instant == value.instant && c.value.zdt.zone == zone
      ensures zone == value.zdt.zone ==> c.value.EqualsZonedDateTime(value)
    {
      c := new FixedClock(T.WithZoneSameInstant(value.ZonedDateTime(), zone));
      T.WithSameZoneKeepsValue(value.zdt);
    }
  }
}
