/** The trading-window filter: second-of-day tests against a linear timeline. */
module TradingWindow {
  import opened Common

  const DAY: int := 86400
  const SUNDAY: int := 0
  const SATURDAY: int := 6

  /** A half-open interval of the local day; it crosses midnight when it starts after it ends. */
  datatype TradingTimeWindow = TradingTimeWindow(startSecond: uint32, endSecond: uint32) {
    predicate Valid() {
      startSecond < 86400 && endSecond <= 86400 && startSecond != endSecond
    }

    predicate Contains(secondOfDay: uint32) {
      && Valid() && secondOfDay < 86400
      && if startSecond < endSecond then startSecond <= secondOfDay < endSecond
         else startSecond <= secondOfDay || secondOfDay < endSecond
    }
  }

  datatype Reason =
    | InvalidConfiguration | MissingEvaluationTime | TimeDenied | TimeNotAllowed | WeekdayNotAllowed

  datatype Decision = Allow | Reject(reason: Reason) | Unavailable(reason: Reason)

  /** The evaluation time in local seconds from the epoch, unless it is missing or has no local time. */
  datatype Clock = NoTime | NoLocalTime | Local(second: int)

  // The timeline.

  /** Second `t` lies in the occurrence of the window that starts on day `d`. */
  predicate Covers(w: TradingTimeWindow, d: int, t: int) {
    d * DAY + w.startSecond as int <= t <
    (if w.startSecond > w.endSecond then d + 1 else d) * DAY + w.endSecond as int
  }

  /** Day 0 of the epoch was a Thursday. */
  function WeekdayOf(d: int): int {
    (d + 4) % 7
  }

  predicate DayAllowed(weekdays: seq<int>, weekday: int) {
    weekdays == [] || weekday in weekdays
  }

  ghost predicate Covered(windows: seq<TradingTimeWindow>, t: int) {
    exists i, d :: 0 <= i < |windows| && Covers(windows[i], d, t)
  }

  /** Some window that starts on an allowed day covers `t`. */
  ghost predicate Open(windows: seq<TradingTimeWindow>, weekdays: seq<int>, t: int) {
    exists i, d :: 0 <= i < |windows| && Covers(windows[i], d, t) && DayAllowed(weekdays, WeekdayOf(d))
  }

  /** The only day on which an occurrence covering `t` can have started. */
  function StartDay(w: TradingTimeWindow, t: int): int {
    if w.startSecond > w.endSecond && t % DAY < w.endSecond as int then t / DAY - 1 else t / DAY
  }

  function SecondOfDay(t: int): uint32 {
    (t % DAY) as uint32
  }

  lemma CoversExactlyWhen(w: TradingTimeWindow, d: int, t: int)
    requires w.Valid()
    ensures Covers(w, d, t) <==> w.Contains(SecondOfDay(t)) && d == StartDay(w, t)
  {
    assert t == t / DAY * DAY + t % DAY;
    if d < t / DAY - 1 {
      assert (d + 1) * DAY <= (t / DAY - 1) * DAY;
    } else if d > t / DAY {
      assert d * DAY >= (t / DAY + 1) * DAY;
    }
  }

  lemma CoveredExactlyWhen(windows: seq<TradingTimeWindow>, t: int)
    requires forall i :: 0 <= i < |windows| ==> windows[i].Valid()
    ensures Covered(windows, t) <==> exists i :: 0 <= i < |windows| && windows[i].Contains(SecondOfDay(t))
  {
    hide Covers;
    if i :| 0 <= i < |windows| && windows[i].Contains(SecondOfDay(t)) {
      CoversExactlyWhen(windows[i], StartDay(windows[i], t), t);
    }
    if i, d :| 0 <= i < |windows| && Covers(windows[i], d, t) {
      CoversExactlyWhen(windows[i], d, t);
    }
  }

  /**
   * The calendar: the epoch began on a Thursday, every day is followed by the next weekday and a Saturday by
   * a Sunday. Day 19723 is the first of January 2024, a Monday.
   */
  lemma WeekdaysExactly(d: int, weekdays: seq<int>)
    ensures SUNDAY <= WeekdayOf(d) <= SATURDAY && WeekdayOf(0) == 4 && WeekdayOf(19723) == 1
    ensures WeekdayOf(d + 1) == if WeekdayOf(d) == 6 then 0 else WeekdayOf(d) + 1
    ensures DayAllowed([], WeekdayOf(d))
    ensures weekdays != [] ==> (DayAllowed(weekdays, WeekdayOf(d)) <==> WeekdayOf(d) in weekdays)
  {
  }

  /** How many seconds an occurrence lasts, counted round the clock. */
  function Length(w: TradingTimeWindow): int {
    if w.startSecond == 0 && w.endSecond == 86400 then 86400 else (w.endSecond as int - w.startSecond as int) % 86400
  }

  /** A window holds the seconds from its start round the clock for its length, its end not included. */
  lemma WindowsExactly(w: TradingTimeWindow, secondOfDay: uint32)
    ensures w.Valid() <==>
      0 <= w.startSecond as int < 86400 && 0 <= w.endSecond as int < 86401 && w.startSecond != w.endSecond
    ensures w.Contains(secondOfDay) <==>
      w.Valid() && secondOfDay < 86400 && (secondOfDay as int - w.startSecond as int) % 86400 < Length(w)
  {
  }

  /** On the timeline an occurrence is one stretch of that length, beginning at the start second of its day. */
  lemma OccurrencesExactly(w: TradingTimeWindow, d: int, t: int)
    requires w.Valid()
    ensures Covers(w, d, t) <==> Begun(w, d, t)
  {
  }

  /** A time is covered, or open, by stretches that begin at some day's start second, on an allowed day. */
  lemma OpenExactly(windows: seq<TradingTimeWindow>, weekdays: seq<int>, t: int)
    requires forall i :: 0 <= i < |windows| ==> windows[i].Valid()
    ensures Covered(windows, t) <==> exists i, d :: 0 <= i < |windows| && Begun(windows[i], d, t)
    ensures Open(windows, weekdays, t) <==>
      exists i, d :: 0 <= i < |windows| && Begun(windows[i], d, t) && (weekdays == [] || (d + 4) % 7 in weekdays)
  {
    forall i, d | 0 <= i < |windows|
      ensures Covers(windows[i], d, t) <==> Begun(windows[i], d, t)
    {
      OccurrencesExactly(windows[i], d, t);
    }
    hide Covers, Begun;
    if i, d :| 0 <= i < |windows| && Begun(windows[i], d, t) && (weekdays == [] || (d + 4) % 7 in weekdays) {
      assert Covers(windows[i], d, t) && DayAllowed(weekdays, WeekdayOf(d));
    }
  }

  /** Of the occurrence that began on day `d`, less than its length has passed. */
  predicate Begun(w: TradingTimeWindow, d: int, t: int) {
    0 <= t - (d * 86400 + w.startSecond as int) < Length(w)
  }

  // The filter.

  method AnyContains(windows: seq<TradingTimeWindow>, secondOfDay: uint32) returns (found: bool)
    ensures found <==> exists i :: 0 <= i < |windows| && windows[i].Contains(secondOfDay)
  {
    for i := 0 to |windows|
      invariant forall k :: 0 <= k < i ==> !windows[k].Contains(secondOfDay)
    {
      if windows[i].Contains(secondOfDay) {
        return true;
      }
    }
    return false;
  }

  function PreviousWeekday(weekday: int): (r: int)
    requires SUNDAY <= weekday <= SATURDAY
    ensures forall d :: WeekdayOf(d) == weekday ==> WeekdayOf(d - 1) == r
  {
    if weekday == SUNDAY then SATURDAY else weekday - 1
  }

  class TradingWindowFilter {
    const allowedWindows: seq<TradingTimeWindow>
    const deniedWindows: seq<TradingTimeWindow>
    const allowedWeekdays: seq<int>
    const valid: bool

    ghost predicate WellFormed() {
      && (forall i :: 0 <= i < |allowedWindows| ==> allowedWindows[i].Valid())
      && (forall i :: 0 <= i < |deniedWindows| ==> deniedWindows[i].Valid())
      && (forall i :: 0 <= i < |allowedWeekdays| ==> SUNDAY <= allowedWeekdays[i] <= SATURDAY)
    }

    /** The flag computed at construction tells whether the configuration is well-formed. */
    ghost predicate Valid() {
      valid <==> WellFormed()
    }

    constructor (allowed: seq<TradingTimeWindow>, denied: seq<TradingTimeWindow>, weekdays: seq<int>)
      ensures allowedWindows == allowed && deniedWindows == denied && allowedWeekdays == weekdays
      ensures Valid()
    {
      var good := true;
      for i := 0 to |allowed|
        invariant good <==> forall k :: 0 <= k < i ==> allowed[k].Valid()
      {
        good := good && allowed[i].Valid();
      }
      var windowsGood := good;
      for i := 0 to |denied|
        invariant good <==> windowsGood && forall k :: 0 <= k < i ==> denied[k].Valid()
      {
        good := good && denied[i].Valid();
      }
      windowsGood := good;
      for i := 0 to |weekdays|
        invariant good <==> windowsGood && forall k :: 0 <= k < i ==> SUNDAY <= weekdays[k] <= SATURDAY
      {
        if weekdays[i] < SUNDAY || weekdays[i] > SATURDAY {
          good := false;
        }
      }
      allowedWindows, deniedWindows, allowedWeekdays, valid := allowed, denied, weekdays, good;
    }

    /**
     * Denied windows come first; without allowed windows the current day decides; otherwise the time is
     * allowed exactly when an allowed window that started on an allowed day covers it.
     */
    method Evaluate(clock: Clock) returns (decision: Decision)
      requires Valid()
      ensures !WellFormed() ==> decision == Unavailable(InvalidConfiguration)
      ensures WellFormed() && clock.NoTime? ==> decision == Unavailable(MissingEvaluationTime)
      ensures WellFormed() && clock.NoLocalTime? ==> decision == Unavailable(InvalidConfiguration)
      ensures WellFormed() && clock.Local? ==>
        var t := clock.second;
        && (decision == Reject(TimeDenied) <==> Covered(deniedWindows, t))
        && (decision == Allow <==>
              && !Covered(deniedWindows, t)
              && if allowedWindows == [] then DayAllowed(allowedWeekdays, WeekdayOf(t / DAY))
                 else Open(allowedWindows, allowedWeekdays, t))
        && (decision == Reject(TimeNotAllowed) <==>
              !Covered(deniedWindows, t) && allowedWindows != [] && !Covered(allowedWindows, t))
        && (decision in {Allow, Reject(TimeDenied), Reject(TimeNotAllowed), Reject(WeekdayNotAllowed)})
    {
      hide Covers;
      if !valid {
        return Unavailable(InvalidConfiguration);
      }
      if clock.NoTime? {
        return Unavailable(MissingEvaluationTime);
      }
      if clock.NoLocalTime? {
        return Unavailable(InvalidConfiguration);
      }
      var t := clock.second;
      var secondOfDay := SecondOfDay(t);
      var weekday := WeekdayOf(t / DAY);
      CoveredExactlyWhen(deniedWindows, t);
      CoveredExactlyWhen(allowedWindows, t);

      var denied := AnyContains(deniedWindows, secondOfDay);
      if denied {
        return Reject(TimeDenied);
      }
      if allowedWindows == [] {
        return if allowedWeekdays != [] && weekday !in allowedWeekdays then Reject(WeekdayNotAllowed) else Allow;
      }

      var matchesTime := false;
      for i := 0 to |allowedWindows|
        invariant matchesTime <==> exists k :: 0 <= k < i && allowedWindows[k].Contains(secondOfDay)
        invariant forall k, d :: 0 <= k < i && Covers(allowedWindows[k], d, t) ==>
          !DayAllowed(allowedWeekdays, WeekdayOf(d))
      {
        var window := allowedWindows[i];
        var windowWeekday := weekday;
        if window.startSecond > window.endSecond && secondOfDay < window.endSecond {
          windowWeekday := PreviousWeekday(weekday);
        }
        assert windowWeekday == WeekdayOf(StartDay(window, t));
        forall d
          ensures Covers(window, d, t) <==> window.Contains(secondOfDay) && d == StartDay(window, t)
        {
          CoversExactlyWhen(window, d, t);
        }
        if window.Contains(secondOfDay) {
          matchesTime := true;
          if allowedWeekdays == [] || windowWeekday in allowedWeekdays {
            assert Covers(allowedWindows[i], StartDay(window, t), t);
            return Allow;
          }
        }
      }
      return Reject(if matchesTime then WeekdayNotAllowed else TimeNotAllowed);
    }
  }
}
