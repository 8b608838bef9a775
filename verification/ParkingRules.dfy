/** Source-supplied local-time parking rules, and when a rule applies. */
module ParkingRules {
  import opened Wrappers
  import opened Timestamps

  datatype Effect = Park | Caution | DoNotPark

  datatype Window = Window(startsAt: Time, endsAt: Time)

  datatype Rule = Rule(
    ruleId: string,
    effect: Effect,
    weekdays: seq<int>,
    window: Window,
    timezone: string,
    validFrom: DateTime,
    validUntil: Option<DateTime>,
    exceptionDates: seq<Date>,
    notApplicable: seq<Window>,
    specialRestrictions: seq<string>)

  /** What the timezone database says of a zone name at an instant; some names make the lookup raise. */
  datatype Local = Local(weekday: int, date: Date, time: nat) | UnknownZone | BadName

  type ZoneTable = (string, int) -> Local

  /** Equality of times: aware times with different offsets compare shifted by the whole seconds of the offset. */
  predicate SameTime(t: Time, u: Time) {
    if t.offset == u.offset then t == u
    else
      && t.offset.Some? && u.offset.Some?
      && t.micro == u.micro
      && (t.hour * 60 + t.minute) * 60 + t.second - t.offset.value / MICROS_PER_SECOND
         == (u.hour * 60 + u.minute) * 60 + u.second - u.offset.value / MICROS_PER_SECOND
  }

  /** Membership of a time of day in a window that may run past midnight. */
  predicate InWindow(value: int, starts: int, ends: int) {
    if starts < ends then starts <= value < ends else value >= starts || value < ends
  }

  /** Comparing the local time with an aware bound raises. */
  function Contains(w: Window, value: int): Option<bool> {
    if w.startsAt.offset.Some? || w.endsAt.offset.Some? then None
    else Some(InWindow(value, TimeOfDay(w.startsAt), TimeOfDay(w.endsAt)))
  }

  /** `any` over the windows, which stops at the first that contains the value. */
  function AnyContains(windows: seq<Window>, value: int): Option<bool> {
    if windows == [] then Some(false)
    else match Contains(windows[0], value)
      case None => None
      case Some(true) => Some(true)
      case Some(false) => AnyContains(windows[1..], value)
  }

  predicate IsIncomplete(r: Rule) {
    || r.ruleId == ""
    || r.weekdays == []
    || (exists day :: day in r.weekdays && !(0 <= day < 7))
    || SameTime(r.window.startsAt, r.window.endsAt)
    || r.validFrom.time.offset.None?
    || r.validUntil.None?
    || r.validUntil.value.time.offset.None?
    || Instant(r.validUntil.value) <= Instant(r.validFrom)
  }

  datatype Status = Active | Inactive | Unverifiable | Incomplete | Raises

  function StatusOf(zones: ZoneTable, r: Rule, now: int): Status {
    match zones(r.timezone, now)
    case UnknownZone => Unverifiable
    case BadName => Raises
    case Local(weekday, date, time) =>
      if IsIncomplete(r) then Incomplete
      else if now >= Instant(r.validUntil.value) then Inactive
      else if now < Instant(r.validFrom) || weekday !in r.weekdays || date in r.exceptionDates then Inactive
      else match Contains(r.window, time)
        case None => Raises
        case Some(false) => Inactive
        case Some(true) =>
          match AnyContains(r.notApplicable, time)
          case None => Raises
          case Some(true) => Inactive
          case Some(false) => Active
  }

  /** A window is an arc of the day: its start is in it, its end is not, and it may pass midnight. */
  lemma WindowIsArc(value: int, starts: int, ends: int)
    requires 0 <= value < MICROS_PER_DAY && 0 <= starts < MICROS_PER_DAY && 0 <= ends < MICROS_PER_DAY
    requires starts != ends
    ensures InWindow(value, starts, ends)
            <==> (value - starts) % MICROS_PER_DAY < (ends - starts) % MICROS_PER_DAY
  {
  }

  /** A window and the one from its end back to its start split the day between them. */
  lemma WindowsSplitDay(value: int, starts: int, ends: int)
    requires starts != ends
    ensures InWindow(value, starts, ends) <==> !InWindow(value, ends, starts)
  {
  }

  /** Some window that can be compared contains the value, and none before it raises. */
  lemma {:induction false} AnyContainsMeaning(windows: seq<Window>, value: int)
    ensures AnyContains(windows, value) == Some(true) <==>
              exists i: nat :: i < |windows| && Contains(windows[i], value) == Some(true)
                               && forall j: nat :: j < i ==> Contains(windows[j], value).Some?
    ensures AnyContains(windows, value) == Some(false) <==>
              forall i: nat :: i < |windows| ==> Contains(windows[i], value) == Some(false)
  {
    if windows != [] {
      AnyContainsMeaning(windows[1..], value);
      if AnyContains(windows[1..], value) == Some(true) && Contains(windows[0], value).Some? {
        var i: nat :| i < |windows[1..]| && Contains(windows[1..][i], value) == Some(true)
                      && forall j: nat :: j < i ==> Contains(windows[1..][j], value).Some?;
        assert Contains(windows[i + 1], value) == Some(true);
        forall j: nat | j < i + 1 ensures Contains(windows[j], value).Some? {
          assert j > 0 ==> windows[j] == windows[1..][j - 1];
        }
      }
      forall i: nat | i < |windows| ensures i > 0 ==> windows[i] == windows[1..][i - 1] {}
    }
  }

  /** The naive window holds the time of day: no more lies between its start and the time than to its end. */
  predicate HoldsTime(w: Window, time: int) {
    && w.startsAt.offset.None? && w.endsAt.offset.None?
    && var starts, ends := TimeOfDay(w.startsAt), TimeOfDay(w.endsAt);
       starts == ends || (time - starts) % MICROS_PER_DAY < (ends - starts) % MICROS_PER_DAY
  }

  lemma ContainsMeaning(w: Window, time: int)
    requires 0 <= time < MICROS_PER_DAY
    ensures Contains(w, time) == Some(true) <==> HoldsTime(w, time)
    ensures Contains(w, time) == None <==> w.startsAt.offset.Some? || w.endsAt.offset.Some?
  {
    var starts, ends := TimeOfDay(w.startsAt), TimeOfDay(w.endsAt);
    if starts != ends {
      WindowIsArc(time, starts, ends);
    }
  }

  predicate IsNaive(w: Window) {
    w.startsAt.offset.None? && w.endsAt.offset.None?
  }

  lemma {:induction false} NoWindowHolds(windows: seq<Window>, time: int)
    requires 0 <= time < MICROS_PER_DAY
    ensures AnyContains(windows, time) == Some(false) <==>
              forall w :: w in windows ==> IsNaive(w) && !HoldsTime(w, time)
  {
    AnyContainsMeaning(windows, time);
    forall i: nat | i < |windows|
      ensures Contains(windows[i], time) == Some(false) <==> IsNaive(windows[i]) && !HoldsTime(windows[i], time)
    {
      ContainsMeaning(windows[i], time);
    }
    if forall w :: w in windows ==> IsNaive(w) && !HoldsTime(w, time) {
      forall i: nat | i < |windows| ensures Contains(windows[i], time) == Some(false) {
        assert windows[i] in windows;
      }
    }
  }

  /**
   A rule is active exactly when it has an identifier, sound weekdays, a window that
   is no single moment and aware bounds around the instant, the local day is one of
   its weekdays and no exception, and the local time of day is in its window and in
   none of the exempt ones.
   */
  lemma ActiveIff(zones: ZoneTable, r: Rule, now: int)
    requires var local := zones(r.timezone, now); local.Local? ==> local.time < MICROS_PER_DAY
    ensures StatusOf(zones, r, now).Active? <==>
              var local := zones(r.timezone, now);
              && local.Local? && r.ruleId != "" && (forall day :: day in r.weekdays ==> 0 <= day < 7)
              && r.window.startsAt != r.window.endsAt
              && r.validFrom.time.offset.Some? && r.validUntil.Some? && r.validUntil.value.time.offset.Some?
              && Instant(r.validFrom) <= now < Instant(r.validUntil.value)
              && local.weekday in r.weekdays && local.date !in r.exceptionDates
              && HoldsTime(r.window, local.time)
              && forall w :: w in r.notApplicable ==> IsNaive(w) && !HoldsTime(w, local.time)
  {
    var local := zones(r.timezone, now);
    if local.Local? {
      ContainsMeaning(r.window, local.time);
      NoWindowHolds(r.notApplicable, local.time);
    }
  }

  /** Outside its validity, days and exceptions a complete rule says nothing, whatever its windows. */
  lemma InactiveOutside(zones: ZoneTable, r: Rule, now: int)
    requires var local := zones(r.timezone, now); local.Local? && !IsIncomplete(r)
    ensures var local := zones(r.timezone, now);
            now < Instant(r.validFrom) || now >= Instant(r.validUntil.value)
            || local.weekday !in r.weekdays || local.date in r.exceptionDates
            ==> StatusOf(zones, r, now) == Inactive
  {
  }

  /** A complete rule in force raises exactly when it meets a window with an aware bound before it is exempt. */
  lemma RaisesIff(zones: ZoneTable, r: Rule, now: int)
    requires var local := zones(r.timezone, now);
             && local.Local? && !IsIncomplete(r) && local.time < MICROS_PER_DAY
             && Instant(r.validFrom) <= now < Instant(r.validUntil.value)
             && local.weekday in r.weekdays && local.date !in r.exceptionDates
    ensures var time := zones(r.timezone, now).time;
            StatusOf(zones, r, now).Raises? <==>
              || !IsNaive(r.window)
              || (&& HoldsTime(r.window, time)
                  && exists i: nat :: i < |r.notApplicable| && !IsNaive(r.notApplicable[i])
                                      && forall j: nat :: j < i ==> IsNaive(r.notApplicable[j])
                                                                    && !HoldsTime(r.notApplicable[j], time))
  {
    var time := zones(r.timezone, now).time;
    ContainsMeaning(r.window, time);
    FirstAwareWindow(r.notApplicable, time);
  }

  lemma {:induction false} FirstAwareWindow(windows: seq<Window>, time: int)
    requires 0 <= time < MICROS_PER_DAY
    ensures AnyContains(windows, time).None? <==>
              exists i: nat :: i < |windows| && !IsNaive(windows[i])
                               && forall j: nat :: j < i ==> IsNaive(windows[j]) && !HoldsTime(windows[j], time)
  {
    if windows != [] {
      ContainsMeaning(windows[0], time);
      FirstAwareWindow(windows[1..], time);
      if AnyContains(windows[1..], time).None? && IsNaive(windows[0]) && !HoldsTime(windows[0], time) {
        var i: nat :| i < |windows[1..]| && !IsNaive(windows[1..][i])
                      && forall j: nat :: j < i ==> IsNaive(windows[1..][j]) && !HoldsTime(windows[1..][j], time);
        assert !IsNaive(windows[i + 1]);
        forall j: nat | j < i + 1 ensures IsNaive(windows[j]) && !HoldsTime(windows[j], time) {
          assert j > 0 ==> windows[j] == windows[1..][j - 1];
        }
      }
      if i: nat :| i < |windows| && !IsNaive(windows[i])
                   && forall j: nat :: j < i ==> IsNaive(windows[j]) && !HoldsTime(windows[j], time) {
        if i > 0 {
          assert windows[1..][i - 1] == windows[i];
          forall j: nat | j < i - 1 ensures IsNaive(windows[1..][j]) && !HoldsTime(windows[1..][j], time) {
            assert windows[1..][j] == windows[j + 1];
          }
        }
      }
    }
  }

  /** A rule of an unknown zone cannot be verified, and some zone names raise; a rule is incomplete in eight ways. */
  lemma IncompleteIff(zones: ZoneTable, r: Rule, now: int)
    ensures StatusOf(zones, r, now).Unverifiable? <==> zones(r.timezone, now).UnknownZone?
    ensures zones(r.timezone, now).BadName? ==> StatusOf(zones, r, now).Raises?
    ensures StatusOf(zones, r, now).Incomplete? <==>
              && zones(r.timezone, now).Local?
              && (|| r.ruleId == "" || r.weekdays == [] || (exists day :: day in r.weekdays && (day < 0 || day > 6))
                  || SameTime(r.window.startsAt, r.window.endsAt)
                  || r.validFrom.time.offset.None?
                  || r.validUntil.None? || r.validUntil.value.time.offset.None?
                  || Instant(r.validUntil.value) <= Instant(r.validFrom))
  {
  }

  lemma TimeOfDayTellsApart(t: Time, u: Time)
    requires t.offset == u.offset
    ensures t == u <==> TimeOfDay(t) == TimeOfDay(u)
  {
    if TimeOfDay(t) == TimeOfDay(u) {
      var minutes, minutes' := t.hour * 60 + t.minute, u.hour * 60 + u.minute;
      DigitsTellApart(minutes * 60 + t.second, t.micro, minutes' * 60 + u.second, u.micro, MICROS_PER_SECOND);
      DigitsTellApart(minutes, t.second, minutes', u.second, 60);
      DigitsTellApart(t.hour, t.minute, u.hour, u.minute, 60);
    }
  }

  lemma DigitsTellApart(high: nat, low: nat, high': nat, low': nat, base: nat)
    requires low < base && low' < base && high * base + low == high' * base + low'
    ensures high == high' && low == low'
  {
    MultipleIsLarge(high - high', base);
  }

  /** Naive times are the same if they read the same, aware ones of whole-second offsets if they meet in time. */
  lemma SameTimeIsSameMoment(t: Time, u: Time, date: Date)
    ensures t.offset.None? || u.offset.None? ==> (SameTime(t, u) <==> t == u)
    ensures && t.offset.Some? && u.offset.Some?
            && t.offset.value % MICROS_PER_SECOND == 0 && u.offset.value % MICROS_PER_SECOND == 0 ==>
              (SameTime(t, u) <==> Instant(DateTime(date, t)) == Instant(DateTime(date, u)))
  {
    if t.offset == u.offset {
      TimeOfDayTellsApart(t, u);
    }
  }
}
