# wallclock: settable clocks with alarms

A Dafny model of the core of `com.ikueb.wallclock`, a Java library of mutable
clocks for tests and simulations. It covers:

- the readings every `WallClock` derives from its zoned date-time (`date()`,
  `time()`, `dateTime()`) and the `offset` contract;
- `AbstractFixedWallClock`: one zoned date-time plus a cached instant, the
  getters, `equalsZonedDateTime`, the null-checked `set`, and the values the
  convenience constructors start from (midnight for a bare date, UTC when no
  zone is given);
- `FixedClock`: `setDate`, `setTime`, `setDateTime` and `offset`. Each changes
  only the component it targets. Each is a no-op when nothing would change.
  Each returns the clock itself. `withZone` builds a new clock at the same
  instant;
- `FixedAlarmClock`: the listener registry (`alarm`/`snooze` and their
  targeted forms) and the overridden `set`. That `set` replaces the value and
  then notifies listeners.

Time is abstracted to integers over zones with a fixed UTC offset (module
`Temporal`). A date is a day count from 1970-01-01. A time of day, an
instant and a duration are nanosecond counts. A zone is an id with its offset
in seconds, and two zones are equal only when their ids are.

Listener callbacks become data. Each update returns the multiset of
`Notification(listener, value)` calls it makes, and `AlarmRegistry.Notified`
says exactly how often each listener is called. A listener registered for
every update (empty target set) is called once. Any other listener is called
once per target equal to the new date, time or date-time. The code does not
deduplicate, so one update may call a listener up to three times.

The Java inheritance (`FixedClock` and `FixedAlarmClock` extend
`AbstractFixedWallClock`) becomes composition: each clock class owns a
`FixedValue` that holds the state of the abstract base class. A Java
exception becomes the `Err` branch of `Wrappers.Result`. A nullable argument
becomes `Wrappers.Option`.

Three behaviours of the code that are easy to miss, and that the model keeps:

- a listener is called once per matching target, so up to three times per
  update (FixedAlarmClock.java:227-231);
- any targeted `snooze` drops an "every update" entry, because removing from
  an empty set leaves it empty (FixedAlarmClock.java:260-276);
- a null passed to the `ZonedDateTime` constructor throws
  `IllegalStateException`; only `set` throws `IllegalArgumentException`
  (AbstractFixedWallClock.java:140-146, 180-187).

## Model

| member | source | states |
|---|---|---|
| `Temporal.AtTime` | src/main/java/com/ikueb/wallclock/AbstractFixedWallClock.java:93 | `date.atTime(time)` is the local date-time with exactly that date and that time |
| `Temporal.ToInstant` | src/main/java/com/ikueb/wallclock/AbstractFixedWallClock.java:24-28 | the instant is the local date-time shifted back by the zone's offset |
| `Temporal.OfInstant` | src/main/java/com/ikueb/wallclock/AbstractFixedWallClock.java:73-75 | the (Instant, ZoneId) constructor's value has exactly that instant and that zone |
| `Temporal.OfInstantToInstant` | src/main/java/com/ikueb/wallclock/AbstractFixedWallClock.java:24-28 | a zoned date-time is rebuilt from its instant and zone, so the cached instant loses nothing |
| `Temporal.WithDate` | src/main/java/com/ikueb/wallclock/FixedClock.java:150 | `with(date)` sets the date and keeps time and zone |
| `Temporal.WithTime` | src/main/java/com/ikueb/wallclock/FixedClock.java:164 | `with(time)` sets the time and keeps date and zone |
| `Temporal.WithDateTime` | src/main/java/com/ikueb/wallclock/FixedClock.java:179 | `with(dateTime)` sets the date-time and keeps the zone |
| `Temporal.Plus` | src/main/java/com/ikueb/wallclock/FixedClock.java:194 | `plus(duration)` moves both the instant and the local time line by the duration, same zone |
| `Temporal.PlusZero` | src/main/java/com/ikueb/wallclock/FixedClock.java:192-197 | adding a zero duration gives the same value |
| `Temporal.PlusOneDay` | src/test/java/com/ikueb/wallclock/FixedClockTest.java:137-141 | adding one day moves the date by one and keeps the time and the zone |
| `Temporal.WithZoneSameInstant` | src/main/java/com/ikueb/wallclock/FixedClock.java:201 | re-zoning keeps the instant and takes the new zone |
| `Temporal.WithSameZoneKeepsValue` | src/test/java/com/ikueb/wallclock/FixedClockTest.java:195-197 | re-zoning to the clock's own zone gives back the same zoned date-time |
| `WallClock.Date` | src/main/java/com/ikueb/wallclock/WallClock.java:40-42 | `date()` is the day the instant falls on in the clock's zone |
| `WallClock.Time` | src/main/java/com/ikueb/wallclock/WallClock.java:47-49 | `time()` is the time into that day, in the clock's zone |
| `WallClock.DateTime` | src/main/java/com/ikueb/wallclock/WallClock.java:54-56 | `dateTime()` is the instant as a local date-time in the zone, zone dropped |
| `WallClock.ProjectionsAgree` | src/test/java/com/ikueb/wallclock/FixedClockTest.java:180-182 | `dateTime() == date().atTime(time())` for every value |
| `WallClock.ProjectionsDetermine` | src/main/java/com/ikueb/wallclock/WallClock.java:40-56 | date, time and zone together give back the zoned date-time |
| `WallClock.OffsetAddsDuration` | src/main/java/com/ikueb/wallclock/WallClock.java:76-84 | `date()` and `time()` of the offset value are the day and the time of day of the old local reading plus the duration; the zone is kept |
| `AbstractFixedWallClock.OfDate` | src/main/java/com/ikueb/wallclock/AbstractFixedWallClock.java:82-94 | a bare date starts at midnight of that date, UTC unless a zone is given |
| `AbstractFixedWallClock.OfTime` | src/main/java/com/ikueb/wallclock/AbstractFixedWallClock.java:101-113 | a bare time starts on the given "today", UTC unless a zone is given |
| `AbstractFixedWallClock.OfDateTime` | src/main/java/com/ikueb/wallclock/AbstractFixedWallClock.java:120-132 | a bare date-time keeps its reading, UTC unless a zone is given |
| `AbstractFixedWallClock.FixedValue.constructor` | src/main/java/com/ikueb/wallclock/AbstractFixedWallClock.java:140-146 | a non-null source gives that reading and its instant |
| `AbstractFixedWallClock.FixedValue.Of` | src/main/java/com/ikueb/wallclock/AbstractFixedWallClock.java:140-146 | null throws IllegalStateException; otherwise a fresh value holding the source and its instant |
| `AbstractFixedWallClock.FixedValue.ZonedDateTime` | src/main/java/com/ikueb/wallclock/AbstractFixedWallClock.java:148-151 | the reading, whose instant is the cached instant |
| `AbstractFixedWallClock.FixedValue.Instant` | src/main/java/com/ikueb/wallclock/AbstractFixedWallClock.java:153-156 | the cached instant, seen in the zone, is the reading |
| `AbstractFixedWallClock.FixedValue.GetZone` | src/main/java/com/ikueb/wallclock/AbstractFixedWallClock.java:158-161 | the reading's zone, which with the instant rebuilds the reading |
| `AbstractFixedWallClock.FixedValue.EqualsZonedDateTime` | src/main/java/com/ikueb/wallclock/AbstractFixedWallClock.java:172-174 | true iff the other is non-null with an equal reading; equal readings have equal instants |
| `AbstractFixedWallClock.FixedValue.Set` | src/main/java/com/ikueb/wallclock/AbstractFixedWallClock.java:180-187 | null throws IllegalArgumentException and changes nothing; otherwise reading and cache are replaced and agree |
| `FixedClock.FixedClock.constructor` | src/main/java/com/ikueb/wallclock/FixedClock.java:137-139 | a non-null source gives a clock owning a fresh value at that reading |
| `FixedClock.FixedClock.Of` | src/main/java/com/ikueb/wallclock/FixedClock.java:137-139 | null throws IllegalStateException; otherwise a fresh clock holding the source |
| `FixedClock.FixedClock.SetDate` | src/main/java/com/ikueb/wallclock/FixedClock.java:148-153 | returns the clock; date becomes the argument, time and zone kept; same date changes nothing |
| `FixedClock.FixedClock.SetTime` | src/main/java/com/ikueb/wallclock/FixedClock.java:162-167 | returns the clock; time becomes the argument, date and zone kept; same time changes nothing |
| `FixedClock.FixedClock.SetDateTime` | src/main/java/com/ikueb/wallclock/FixedClock.java:177-182 | returns the clock; date-time becomes the argument, zone kept; same date-time changes nothing |
| `FixedClock.FixedClock.Offset` | src/main/java/com/ikueb/wallclock/FixedClock.java:192-197 | returns the clock; instant advances by the duration in the same zone; zero changes nothing |
| `FixedClock.FixedClock.WithZone` | src/main/java/com/ikueb/wallclock/FixedClock.java:199-202 | a fresh clock at the same instant in the new zone; the receiver is untouched |
| `AlarmRegistry.Readings` | src/main/java/com/ikueb/wallclock/FixedAlarmClock.java:227-230 | the `temporals` list of an update holds three distinct readings: its date, its time and its date-time |
| `AlarmRegistry.Matches` | src/main/java/com/ikueb/wallclock/FixedAlarmClock.java:227-230 | `temporals::contains`: a target matches iff it is one of the update's three readings |
| `AlarmRegistry.MatchingByKind` | src/main/java/com/ikueb/wallclock/FixedAlarmClock.java:227-231 | the matching targets are counted kind by kind: no cross-kind match |
| `AlarmRegistry.MatchCount` | src/main/java/com/ikueb/wallclock/FixedAlarmClock.java:227-231 | one call per target equal to the date, time or date-time reading, so at most 3 |
| `AlarmRegistry.Fires` | src/main/java/com/ikueb/wallclock/FixedAlarmClock.java:222-231 | calls per update: 0 if unregistered, 1 for "every update", else per matching target; zero iff unregistered or nothing matches |
| `AlarmRegistry.NotifiedUnique` | src/main/java/com/ikueb/wallclock/FixedAlarmClock.java:219-233 | one update has a single outcome |
| `AlarmRegistry.NotifiedOnlyRegistered` | src/main/java/com/ikueb/wallclock/FixedAlarmClock.java:219-233 | every call carries the new value, goes to a registered listener, and repeats at most 3 times |
| `AlarmRegistry.Notify` | src/main/java/com/ikueb/wallclock/FixedAlarmClock.java:222-231 | the loop over listeners and their targets makes exactly the calls `Notified` prescribes |
| `AlarmRegistry.AlarmAll` | src/main/java/com/ikueb/wallclock/FixedAlarmClock.java:235-238 | `l` gets an empty set only if absent; other entries unchanged |
| `AlarmRegistry.AlarmFor` | src/main/java/com/ikueb/wallclock/FixedAlarmClock.java:240-253 | `l`'s set becomes old set (or empty) plus the target; other entries unchanged |
| `AlarmRegistry.SnoozeAll` | src/main/java/com/ikueb/wallclock/FixedAlarmClock.java:255-258 | `l` removed; other entries unchanged |
| `AlarmRegistry.SnoozeFor` | src/main/java/com/ikueb/wallclock/FixedAlarmClock.java:260-276 | target removed from `l`'s set; `l` kept iff targets remain; other entries unchanged |
| `AlarmRegistry.OthersUnaffected` | src/main/java/com/ikueb/wallclock/FixedAlarmClock.java:235-276 | a registry call on one listener never changes how often another is called |
| `AlarmRegistry.AlarmAllKeepsTargets` | src/main/java/com/ikueb/wallclock/AlarmFixedWallClock.java:27-33 | `alarm(l)` leaves an existing registration as it is |
| `AlarmRegistry.AlarmForIdempotent` | src/main/java/com/ikueb/wallclock/FixedAlarmClock.java:240-253 | repeating `alarm(l, target)` changes nothing more |
| `AlarmRegistry.AlarmForOverridesAll` | src/main/java/com/ikueb/wallclock/AlarmFixedWallClock.java:35-42 | a target replaces "every update": `l` is called once exactly when the target matches |
| `AlarmRegistry.SnoozeAllSilences` | src/main/java/com/ikueb/wallclock/FixedAlarmClock.java:255-258 | after `snooze(l)`, `l` is never called |
| `AlarmRegistry.SnoozeForLastSilences` | src/main/java/com/ikueb/wallclock/AlarmFixedWallClock.java:69-77 | snoozing the last target, or any target of an "every update" entry, unregisters `l` |
| `AlarmRegistry.SnoozeForAbsent` | src/main/java/com/ikueb/wallclock/FixedAlarmClock.java:260-264 | targeted snooze of an unregistered listener changes nothing |
| `AlarmRegistry.SnoozeForUndoesAlarmFor` | src/test/java/com/ikueb/wallclock/FixedAlarmClockTest.java:132-139 | snoozing a newly added target restores the registry |
| `AlarmRegistry.SnoozeForAfterAlarmForDropsAll` | src/main/java/com/ikueb/wallclock/FixedAlarmClock.java:260-264 | alarm then snooze of one target on an "every update" entry leaves `l` unregistered |
| `FixedAlarmClock.FixedAlarmClock.constructor` | src/main/java/com/ikueb/wallclock/FixedAlarmClock.java:142-144 | a non-null source gives a clock owning a fresh value at that reading, with no listeners |
| `FixedAlarmClock.FixedAlarmClock.Of` | src/main/java/com/ikueb/wallclock/FixedAlarmClock.java:142-144 | null throws IllegalStateException; otherwise a fresh clock holding the source, no listeners |
| `FixedAlarmClock.FixedAlarmClock.Set` | src/main/java/com/ikueb/wallclock/FixedAlarmClock.java:219-233 | null throws before any change or call; otherwise value replaced first, then exactly the `Notified` calls with it; registry unchanged |
| `FixedAlarmClock.FixedAlarmClock.SetDate` | src/main/java/com/ikueb/wallclock/FixedAlarmClock.java:152-158 | as FixedClock's setDate; same date calls no one, otherwise the `Notified` calls for the new value |
| `FixedAlarmClock.FixedAlarmClock.SetTime` | src/main/java/com/ikueb/wallclock/FixedAlarmClock.java:166-172 | as FixedClock's setTime; same time calls no one, otherwise the `Notified` calls |
| `FixedAlarmClock.FixedAlarmClock.SetDateTime` | src/main/java/com/ikueb/wallclock/FixedAlarmClock.java:181-187 | as FixedClock's setDateTime; same date-time calls no one, otherwise the `Notified` calls |
| `FixedAlarmClock.FixedAlarmClock.Offset` | src/main/java/com/ikueb/wallclock/FixedAlarmClock.java:196-202 | as FixedClock's offset; zero calls no one, otherwise the `Notified` calls |
| `FixedAlarmClock.FixedAlarmClock.WithZone` | src/main/java/com/ikueb/wallclock/FixedAlarmClock.java:204-207 | a fresh clock with no listeners at the same instant in the new zone |
| `FixedAlarmClock.FixedAlarmClock.Alarm` | src/main/java/com/ikueb/wallclock/FixedAlarmClock.java:235-238 | registry becomes `AlarmAll` of the old one; clock value untouched |
| `FixedAlarmClock.FixedAlarmClock.AlarmFor` | src/main/java/com/ikueb/wallclock/FixedAlarmClock.java:240-253 | registry becomes `AlarmFor` of the old one; clock value untouched |
| `FixedAlarmClock.FixedAlarmClock.Snooze` | src/main/java/com/ikueb/wallclock/FixedAlarmClock.java:255-258 | registry becomes `SnoozeAll` of the old one; clock value untouched |
| `FixedAlarmClock.FixedAlarmClock.SnoozeFor` | src/main/java/com/ikueb/wallclock/FixedAlarmClock.java:260-276 | registry becomes `SnoozeFor` of the old one; clock value untouched |
| `FixedAlarmClock.NextDayAlarm` | src/test/java/com/ikueb/wallclock/FixedAlarmClockTest.java:132-139 | date alarm at 2016-01-01Z: same date calls no one, +1 day calls once with the new value, after snooze no one |

## Left out

- Constructors seeded from the current time (no-argument, and the field initialisers): their value comes from the system clock. For the `LocalTime` constructors "today" is a parameter of `OfTime`.
- The `Clock` constructor: it reads `ZonedDateTime.now(clock)` from whatever `Clock` it is given (AbstractFixedWallClock.java:53-55), an external object outside the model.
- The `WallClock` copy constructor: it is the `ZonedDateTime` constructor applied to the other clock's reading.
- Concurrency: the `AtomicReference` fields, `ConcurrentHashMap`, `listeners.forEach(1, …)` and `parallelStream` are modelled sequentially. Calls are a multiset, so their order is not modelled. The reading and the cached instant are written one after the other, so their agreement (`FixedValue.Valid`) holds between operations only.
- Time-zone rules: only fixed-offset zones are modelled, so gap and overlap handling in `with`, `plus` and `withZoneSameInstant` is absent. Dates are day counts, not year-month-day values.
- The range limits of `java.time`: the model's integers are unbounded, so it never throws the source's `DateTimeException` or `ArithmeticException`.
- `equals` and `hashCode` of both clocks: they defer to `java.time.Clock` (FixedClock.java:204-212, FixedAlarmClock.java:209-217), whose code is not part of this model. Value comparison is `EqualsZonedDateTime` only.
- `toString` (AbstractFixedWallClock.java:163-166, the class name, "@" and the reading): string formatting is not modelled.
- Serialization (`Serializable`, transient fields).
- Null arguments other than `set`'s and the `ZonedDateTime` constructor's source: the setters, `offset`, `withZone`, a null listener, the convenience constructors (a null `LocalDate`, `LocalTime`, `LocalDateTime`, `Instant` or `WallClock` is dereferenced at AbstractFixedWallClock.java:93, 112, 131, 74, 63) and a null `ZoneId` anywhere have no check and fail with `NullPointerException`; the model's parameters cannot be null.
- Null targets of the targeted `alarm`/`snooze` overloads: the source accepts them, since a `HashSet` holds null (FixedAlarmClock.java:242, 247, 252, 262, 268, 274). `alarm(l, null)` stores a target that no reading equals, so an "every update" listener goes silent. `snooze(l, null)` drops an "every update" entry as any targeted snooze does. The model's `Target` has no null value, so neither effect is modelled.
- Listener callbacks: what a listener does, and any exception it throws, which propagates out of `set`.
- `TickingClock`: it reads real time.
- The `TimeMatchers` test helper: it compares two values with a one-second tolerance; only the tests that use it read real time, and it is test support rather than library behaviour.
