/**
 * The alarm registry of FixedAlarmClock and its trigger engine. The registry
 * maps each listener to the targets it waits for; an empty target set means
 * "every update". On an update to `z` a listener with an empty set is
 * notified once, and a listener with targets is notified once for each of
 * its targets equal to the date, the time or the date-time of `z`.
 */
module AlarmRegistry {
  import T = Temporal
  import W = WallClock

  /** An AlarmClockListener, known only by its identity. */
  datatype Listener = Listener(id: nat)

  /** What a listener can wait for: a LocalDate, a LocalTime or a LocalDateTime. */
  datatype Target =
    | DateT(date: T.Date)
    | TimeT(time: T.Time)
    | DateTimeT(dateTime: T.LocalDateTime)

  type Registry = map<Listener, set<Target>>

  /** One call of listener.alarmTriggered(at). */
  datatype Notification = Notification(listener: Listener, at: T.ZonedDateTime)

  /**
   * The list `temporals` an update to z is compared with: its date, its time
   * and its date-time. They are of different kinds, so they are three.
   */
  function Readings(z: T.ZonedDateTime): (r: set<Target>)
    ensures |r| == 3
  {
    var d, tm, dt := DateT(W.Date(z)), TimeT(W.Time(z)), DateTimeT(W.DateTime(z));
    assert {d, tm} == {d} + {tm} && |{d, tm}| == 2;
    assert {d, tm, dt} == {d, tm} + {dt};
    {d, tm, dt}
  }

  /**
   * `temporals.contains(target)` for temporals = [date, time, dateTime] of z:
   * a date never equals a time or a date-time, so each kind is compared
   * only with its own reading.
   */
  predicate Matches(target: Target, z: T.ZonedDateTime): (b: bool)
    ensures b <==> target in Readings(z)
  {
    match target
    case DateT(d) => d == W.Date(z)
    case TimeT(t) => t == W.Time(z)
    case DateTimeT(dt) => dt == W.DateTime(z)
  }

  function Indicator(b: bool): nat
  {
    if b then 1 else 0
  }

  /** A set holds at most one of three targets of different kinds each, counted kind by kind. */
  lemma {:induction false} CountByKind(targets: set<Target>, d: T.Date, tm: T.Time, dt: T.LocalDateTime)
    ensures |targets * {DateT(d), TimeT(tm), DateTimeT(dt)}|
         == Indicator(DateT(d) in targets) + Indicator(TimeT(tm) in targets) + Indicator(DateTimeT(dt) in targets)
  {
    var a: set<Target> := if DateT(d) in targets then {DateT(d)} else {};
    var b: set<Target> := if TimeT(tm) in targets then {TimeT(tm)} else {};
    var c: set<Target> := if DateTimeT(dt) in targets then {DateTimeT(dt)} else {};
    assert targets * {DateT(d), TimeT(tm), DateTimeT(dt)} == a + b + c;
    assert a * b == {};
    assert |a + b| == |a| + |b|;
    assert (a + b) * c == {};
    assert |a + b + c| == |a + b| + |c|;
  }

  /** The targets of a set that an update to z matches, counted kind by kind. */
  lemma {:induction false} MatchingByKind(targets: set<Target>, z: T.ZonedDateTime)
    ensures |set t | t in targets && Matches(t, z)|
         == Indicator(DateT(W.Date(z)) in targets)
          + Indicator(TimeT(W.Time(z)) in targets)
          + Indicator(DateTimeT(W.DateTime(z)) in targets)
  {
    var m := set t | t in targets && Matches(t, z);
    assert m == targets * Readings(z);
    CountByKind(targets, W.Date(z), W.Time(z), W.DateTime(z));
  }

  /**
   * How many times `times.parallelStream().filter(temporals::contains)`
   * notifies: one per matching target, so at most one per kind.
   */
  function MatchCount(targets: set<Target>, z: T.ZonedDateTime): (n: nat)
    ensures n == Indicator(DateT(W.Date(z)) in targets)
               + Indicator(TimeT(W.Time(z)) in targets)
               + Indicator(DateTimeT(W.DateTime(z)) in targets)
    ensures n <= 3
  {
    MatchingByKind(targets, z);
    |set t | t in targets && Matches(t, z)|
  }

  /** Adding one more target adds one to the count exactly when it matches. */
  lemma {:induction false} MatchCountAdd(targets: set<Target>, t: Target, z: T.ZonedDateTime)
    requires t !in targets
    ensures MatchCount(targets + {t}, z) == MatchCount(targets, z) + Indicator(Matches(t, z))
  {
  }

  /** The number of notifications `l` receives when the clock is set to z. */
  function Fires(reg: Registry, l: Listener, z: T.ZonedDateTime): (n: nat)
    ensures n <= 3
    ensures l in reg && reg[l] == {} ==> n == 1
    ensures n == 0 <==> l !in reg || (reg[l] != {} && forall t :: t in reg[l] ==> !Matches(t, z))
  {
    if l !in reg then 0
    else if reg[l] == {} then 1
    else
      assert forall t :: t in reg[l] && Matches(t, z) ==> t in {DateT(W.Date(z)), TimeT(W.Time(z)), DateTimeT(W.DateTime(z))};
      MatchCount(reg[l], z)
  }

  /**
   * `fired` is what one update to z sends: `Fires(reg, l, z)` notifications
   * carrying z for every listener l, and nothing else.
   */
  ghost predicate Notified(fired: multiset<Notification>, reg: Registry, z: T.ZonedDateTime)
  {
    forall n :: fired[n] == if n.at == z then Fires(reg, n.listener, z) else 0
  }

  /** One update has only one possible set of notifications. */
  lemma NotifiedUnique(f: multiset<Notification>, g: multiset<Notification>, reg: Registry, z: T.ZonedDateTime)
    requires Notified(f, reg, z) && Notified(g, reg, z)
    ensures f == g
  {
    assert forall n :: f[n] == g[n];
  }

  /** Every notification carries the new value and goes to a registered listener, at most 3 times. */
  lemma NotifiedOnlyRegistered(fired: multiset<Notification>, reg: Registry, z: T.ZonedDateTime, n: Notification)
    requires Notified(fired, reg, z) && n in fired
    ensures n.at == z && n.listener in reg && fired[n] <= 3
  {
  }

  /** Multiplicity of `n` once the listeners outside `pending` have been notified. */
  ghost function Done(reg: Registry, pending: set<Listener>, z: T.ZonedDateTime, n: Notification): nat
  {
    if n.at == z && n.listener in reg && n.listener !in pending then Fires(reg, n.listener, z) else 0
  }

  /**
   * The trigger engine: for each registered listener, one notification if
   * it waits for every update, else one per target the update matches.
   */
  method Notify(reg: Registry, z: T.ZonedDateTime) returns (fired: multiset<Notification>)
    ensures Notified(fired, reg, z)
  {
    fired := multiset{};
    var pending := reg.Keys;
    while pending != {}
      invariant pending <= reg.Keys
      invariant forall n :: fired[n] == Done(reg, pending, z, n)
      decreases pending
    {
      var l :| l in pending;
      var times := reg[l];
      if times == {} {
        fired := fired + multiset{Notification(l, z)};
      } else {
        var rest := times;
        while rest != {}
          invariant rest <= times
          invariant forall n :: fired[n] ==
                     if n == Notification(l, z) then MatchCount(times - rest, z) else Done(reg, pending, z, n)
          decreases rest
        {
          var t :| t in rest;
          if Matches(t, z) {
            fired := fired + multiset{Notification(l, z)};
          }
          MatchCountAdd(times - rest, t, z);
          assert times - (rest - {t}) == (times - rest) + {t};
          rest := rest - {t};
        }
        assert times - rest == times;
      }
      pending := pending - {l};
    }
  }

  /** Everything but `l`'s entry is as in `reg`. */
  ghost predicate SameExcept(r: Registry, reg: Registry, l: Listener)
  {
    forall k :: k != l ==> (k in r <==> k in reg) && (k in r ==> r[k] == reg[k])
  }

  /** alarm(l): registers `l` for every update unless it is already registered. */
  function AlarmAll(reg: Registry, l: Listener): (r: Registry)
    ensures l in r && r[l] == (if l in reg then reg[l] else {})
    ensures SameExcept(r, reg, l)
  {
    if l in reg then reg else reg[l := {}]
  }

  /** alarm(l, target): adds `target` to `l`'s targets, registering `l` if needed. */
  function AlarmFor(reg: Registry, l: Listener, target: Target): (r: Registry)
    ensures l in r && r[l] == (if l in reg then reg[l] else {}) + {target}
    ensures SameExcept(r, reg, l)
  {
    reg[l := (if l in reg then reg[l] else {}) + {target}]
  }

  /** snooze(l): forgets `l` and its targets. */
  function SnoozeAll(reg: Registry, l: Listener): (r: Registry)
    ensures l !in r && SameExcept(r, reg, l)
  {
    reg - {l}
  }

  /** snooze(l, target): drops `target` from `l`'s targets, and `l` itself once none is left. */
  function SnoozeFor(reg: Registry, l: Listener, target: Target): (r: Registry)
    ensures l in r <==> l in reg && reg[l] - {target} != {}
    ensures l in r ==> r[l] == reg[l] - {target}
    ensures SameExcept(r, reg, l)
  {
    if l !in reg then reg
    else
      var rest := reg[l] - {target};
      if rest == {} then reg - {l} else reg[l := rest]
  }

  /** Only `l`'s notifications can change when only `l`'s entry changes. */
  lemma OthersUnaffected(r: Registry, reg: Registry, l: Listener, k: Listener, z: T.ZonedDateTime)
    requires SameExcept(r, reg, l) && k != l
    ensures Fires(r, k, z) == Fires(reg, k, z)
  {
  }

  /** alarm(l) on a listener that is already registered leaves its targets alone. */
  lemma AlarmAllKeepsTargets(reg: Registry, l: Listener)
    requires l in reg
    ensures AlarmAll(reg, l) == reg
  {
  }

  /** alarm(l, target) twice is alarm(l, target) once. */
  lemma AlarmForIdempotent(reg: Registry, l: Listener, target: Target)
    ensures AlarmFor(AlarmFor(reg, l, target), l, target) == AlarmFor(reg, l, target)
  {
  }

  /**
   * alarm(l, target) overrides an "every update" registration: afterwards
   * `l` hears only of updates matching `target`.
   */
  lemma {:induction false} AlarmForOverridesAll(reg: Registry, l: Listener, target: Target, z: T.ZonedDateTime)
    requires l in reg && reg[l] == {}
    ensures Fires(AlarmFor(reg, l, target), l, z) == Indicator(Matches(target, z))
  {
    assert AlarmFor(reg, l, target)[l] == {} + {target};
    MatchCountAdd({}, target, z);
  }

  /** After snooze(l), `l` is never notified. */
  lemma SnoozeAllSilences(reg: Registry, l: Listener, z: T.ZonedDateTime)
    ensures Fires(SnoozeAll(reg, l), l, z) == 0
  {
  }

  /**
   * snooze(l, target) of the last target, or of any target when `l` waits
   * for every update, unregisters `l`: it is never notified again.
   */
  lemma SnoozeForLastSilences(reg: Registry, l: Listener, target: Target, z: T.ZonedDateTime)
    requires l in reg && reg[l] <= {target}
    ensures l !in SnoozeFor(reg, l, target) && Fires(SnoozeFor(reg, l, target), l, z) == 0
  {
  }

  /** snooze(l, target) does nothing when `l` is not registered. */
  lemma SnoozeForAbsent(reg: Registry, l: Listener, target: Target)
    requires l !in reg
    ensures SnoozeFor(reg, l, target) == reg
  {
  }

  /** snooze(l, target) undoes alarm(l, target) when `target` was new to a specific registration. */
  lemma {:induction false} SnoozeForUndoesAlarmFor(reg: Registry, l: Listener, target: Target)
    requires l !in reg || (reg[l] != {} && target !in reg[l])
    ensures SnoozeFor(AlarmFor(reg, l, target), l, target) == reg
  {
    var r := SnoozeFor(AlarmFor(reg, l, target), l, target);
    if l in reg {
      assert reg[l] + {target} - {target} == reg[l];
    }
    assert r.Keys == reg.Keys;
  }

  /** But alarm(l, target) then snooze(l, target) loses an "every update" registration. */
  lemma {:induction false} SnoozeForAfterAlarmForDropsAll(reg: Registry, l: Listener, target: Target)
    requires l in reg && reg[l] == {}
    ensures l !in SnoozeFor(AlarmFor(reg, l, target), l, target)
  {
    assert AlarmFor(reg, l, target)[l] - {target} == {};
  }
}
