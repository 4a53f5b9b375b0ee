/**
 * FixedAlarmClock: a settable clock with an alarm registry. Its `set` first
 * replaces the value and then notifies listeners; the setters behave as
 * FixedClock's and report the notifications their update caused.
 */
module FixedAlarmClock {
  import T = Temporal
  import W = WallClock
  import opened Wrappers
  import opened AbstractFixedWallClock
  import R = AlarmRegistry

  class FixedAlarmClock {
    const value: FixedValue
    var listeners: R.Registry

    /** The holder's cache invariant; the registry takes no part, so alarm and snooze keep it. */
    ghost predicate Valid()
      reads value
    {
      value.Valid()
    }

    /** Builds the clock's own holder at `source` with no listeners (super(source) on a non-null argument). */
    constructor (source: T.ZonedDateTime)
      ensures fresh(value) && Valid() && value.zdt == source && listeners == map[]
    {
      value := new FixedValue(source);
      listeners := map[];
    }

    /** new FixedAlarmClock(ZonedDateTime): a null source throws IllegalStateException. */
    static method Of(source: Option<T.ZonedDateTime>) returns (r: Result<FixedAlarmClock>)
      ensures source.None? ==> r == Err(IllegalState)
      ensures source.Some? ==> r.Ok? && fresh(r.value) && fresh(r.value.value) && r.value.Valid()
      ensures source.Some? ==> r.value.value.zdt == source.value && r.value.listeners == map[]
    {
      match source
      case None =>
        r := Err(IllegalState);
      case Some(s) =>
        var c := new FixedAlarmClock(s);
        r := Ok(c);
    }

    /**
     * set(source): the value is replaced first, then every listener is
     * notified with the new value as the registry says; a null source throws
     * IllegalArgumentException before anything changes or anyone is notified.
     * The registry is never changed.
     */
    method Set(source: Option<T.ZonedDateTime>) returns (r: Result<multiset<R.Notification>>)
      requires Valid()
      modifies value
      ensures listeners == old(listeners)
      ensures source.None? ==> r == Err(IllegalArgument) && unchanged(value)
      ensures source.Some? ==> value.zdt == source.value && Valid()
      ensures source.Some? ==> r.Ok? && R.Notified(r.value, listeners, source.value)
    {
      var outcome := value.Set(source);
      if outcome.Err? {
        return Err(outcome.error);
      }
      var fired := R.Notify(listeners, value.ZonedDateTime());
      r := Ok(fired);
    }

    /** setDate(date): as FixedClock.SetDate; only a real change notifies. */
    method SetDate(date: T.Date) returns (r: FixedAlarmClock, fired: multiset<R.Notification>)
      requires Valid()
      modifies value
      ensures r == this && Valid() && listeners == old(listeners)
      ensures W.Date(value.zdt) == date
      ensures W.Time(value.zdt) == old(W.Time(value.zdt)) && value.zdt.zone == old(value.zdt.zone)
      ensures date == old(W.Date(value.zdt)) ==> unchanged(value) && fired == multiset{}
      ensures date != old(W.Date(value.zdt)) ==> R.Notified(fired, listeners, value.zdt)
    {
      fired := multiset{};
      var current := value.ZonedDateTime();
      if date != W.Date(current) {
        var outcome := Set(Some(T.WithDate(current, date)));
        fired := outcome.value;
      }
      r := this;
    }

    /** setTime(time): as FixedClock.SetTime; only a real change notifies. */
    method SetTime(time: T.Time) returns (r: FixedAlarmClock, fired: multiset<R.Notification>)
      requires Valid()
      modifies value
      ensures r == this && Valid() && listeners == old(listeners)
      ensures W.Time(value.zdt) == time
      ensures W.Date(value.zdt) == old(W.Date(value.zdt)) && value.zdt.zone == old(value.zdt.zone)
      ensures time == old(W.Time(value.zdt)) ==> unchanged(value) && fired == multiset{}
      ensures time != old(W.Time(value.zdt)) ==> R.Notified(fired, listeners, value.zdt)
    {
      fired := multiset{};
      var current := value.ZonedDateTime();
      if time != W.Time(current) {
        var outcome := Set(Some(T.WithTime(current, time)));
        fired := outcome.value;
      }
      r := this;
    }

    /** setDateTime(dateTime): as FixedClock.SetDateTime; only a real change notifies. */
    method SetDateTime(dateTime: T.LocalDateTime) returns (r: FixedAlarmClock, fired: multiset<R.Notification>)
      requires Valid()
      modifies value
      ensures r == this && Valid() && listeners == old(listeners)
      ensures W.DateTime(value.zdt) == dateTime && value.zdt.zone == old(value.zdt.zone)
      ensures dateTime == old(W.DateTime(value.zdt)) ==> unchanged(value) && fired == multiset{}
      ensures dateTime != old(W.DateTime(value.zdt)) ==> R.Notified(fired, listeners, value.zdt)
    {
      fired := multiset{};
      var current := value.ZonedDateTime();
      if dateTime != W.DateTime(current) {
        var outcome := Set(Some(T.WithDateTime(current, dateTime)));
        fired := outcome.value;
      }
      r := this;
    }

    /** offset(duration): as FixedClock.Offset; a zero duration notifies no one. */
    method Offset(duration: T.Duration) returns (r: FixedAlarmClock, fired: multiset<R.Notification>)
      requires Valid()
      modifies value
      ensures r == this && Valid() && listeners == old(listeners)
      ensures value.instant == old(value.instant) + duration && value.zdt.zone == old(value.zdt.zone)
      ensures value.zdt == T.Plus(old(value.zdt), duration)
      ensures duration == 0 ==> unchanged(value) && fired == multiset{}
      ensures duration != 0 ==> R.Notified(fired, listeners, value.zdt)
    {
      fired := multiset{};
      var current := value.ZonedDateTime();
      if duration != 0 {
        var outcome := Set(Some(T.Plus(current, duration)));
        fired := outcome.value;
      } else {
        T.PlusZero(current);
      }
      r := this;
    }

    /** withZone(zone): a new clock, with no listeners, at the same instant seen in `zone`. */
    method WithZone(zone: T.Zone) returns (c: FixedAlarmClock)
      requires Valid()
      ensures fresh(c) && fresh(c.value) && c.Valid() && c.listeners == map[]
      ensures c.value.instant == value.instant && c.value.zdt.zone == zone
      ensures zone == value.zdt.zone ==> c.value.EqualsZonedDateTime(value)
    {
      c := new FixedAlarmClock(T.WithZoneSameInstant(value.ZonedDateTime(), zone));
      T.WithSameZoneKeepsValue(value.zdt);
    }

    /** alarm(listener): registers for every update unless already registered. */
    method Alarm(listener: R.Listener)
      modifies this
      ensures listeners == R.AlarmAll(old(listeners), listener) && unchanged(value)
    {
      listeners := R.AlarmAll(listeners, listener);
    }

    /** alarm(listener, date | time | dateTime): adds one target. */
    method AlarmFor(listener: R.Listener, target: R.Target)
      modifies this
      ensures listeners == R.AlarmFor(old(listeners), listener, target) && unchanged(value)
    {
      listeners := R.AlarmFor(listeners, listener, target);
    }

    /** snooze(listener): unregisters the listener entirely. */
    method Snooze(listener: R.Listener)
      modifies this
      ensures listeners == R.SnoozeAll(old(listeners), listener) && unchanged(value)
    {
      listeners := R.SnoozeAll(listeners, listener);
    }

    /** snooze(listener, date | time | dateTime): removes one target. */
    method SnoozeFor(listener: R.Listener, target: R.Target)
      modifies this
      ensures listeners == R.SnoozeFor(old(listeners), listener, target) && unchanged(value)
    {
      listeners := R.SnoozeFor(listeners, listener, target);
    }
  }

  /** 2016-01-01 as a day count from 1970-01-01. */
  const NewYear2016: T.Date := 16801

  /**
   * A clock at 2016-01-01T00:00Z with `listener` waiting for 2016-01-02:
   * setting the date it already has notifies no one, moving on by one day
   * notifies the listener once with the new value, and after the target is
   * snoozed a further change notifies no one.
   */
  method NextDayAlarm(listener: R.Listener)
      returns (sameDate: multiset<R.Notification>, nextDay: multiset<R.Notification>, snoozed: multiset<R.Notification>)
    ensures sameDate == multiset{}
    ensures nextDay == multiset{R.Notification(listener, OfDate(NewYear2016 + 1))}
    ensures snoozed == multiset{}
  {
    var made := FixedAlarmClock.Of(Some(OfDate(NewYear2016)));
    var clock := made.value;
    clock.AlarmFor(listener, R.DateT(NewYear2016 + 1));
    var _, f1 := clock.SetDate(NewYear2016);
    sameDate := f1;

    T.PlusOneDay(OfDate(NewYear2016));
    var _, f2 := clock.Offset(T.NanosPerDay);
    var expected := multiset{R.Notification(listener, OfDate(NewYear2016 + 1))};
    assert clock.value.zdt == OfDate(NewYear2016 + 1);
    assert R.Fires(clock.listeners, listener, clock.value.zdt) == 1;
    assert R.Notified(expected, clock.listeners, clock.value.zdt);
    R.NotifiedUnique(f2, expected, clock.listeners, clock.value.zdt);
    nextDay := f2;

    clock.SnoozeFor(listener, R.DateT(NewYear2016 + 1));
    var _, f3 := clock.SetDate(NewYear2016);
    R.NotifiedUnique(f3, multiset{}, clock.listeners, clock.value.zdt);
    snoozed := f3;
  }
}
