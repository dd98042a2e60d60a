/**
 * The date arithmetic of `get_reports_by_period`: a period keyword and the
 * current date become an inclusive range of visit dates. The business week
 * runs Friday to Thursday. `today` is a parameter where the bot reads the
 * clock.
 */
module Periods {
  import opened Wrappers
  import opened Calendar

  datatype DateRange = DateRange(start: Date, end: Date)

  /**
   * InvalidPeriod: a keyword other than today, week or month (the bot then
   * returns no reports). DateOverflow: the range leaves the years 1..9999
   * (Python's OverflowError).
   */
  datatype PeriodError = InvalidPeriod | DateOverflow

  predicate IsPeriod(period: string)
  {
    period == "today" || period == "week" || period == "month"
  }

  /** Days back from `today` to the Friday that opens its business week. */
  function DaysSinceFriday(today: Date): (n: int)
    requires Valid(today)
    ensures 0 <= n < 7
  {
    (Weekday(today) + 3) % 7
  }

  function Resolve(period: string, today: Date): (r: Result<DateRange, PeriodError>)
    requires Valid(today)
    ensures r == Err(InvalidPeriod) <==> !IsPeriod(period)
    ensures r.Ok? ==> Valid(r.value.start) && Valid(r.value.end)
    ensures r.Ok? ==> Ordinal(r.value.start) <= Ordinal(today) <= Ordinal(r.value.end)
  {
    if period == "today" then Ok(DateRange(today, today))
    else if period == "week" then WeekRange(today)
    else if period == "month" then MonthRange(today)
    else Err(InvalidPeriod)
  }

  /** `start = today - timedelta(days_since_friday)`, `end = start + timedelta(6)`. */
  function WeekRange(today: Date): (r: Result<DateRange, PeriodError>)
    requires Valid(today)
    ensures r.Ok? || r == Err(DateOverflow)
    ensures r.Ok? <==> 1 <= Ordinal(today) - DaysSinceFriday(today) && Ordinal(today) - DaysSinceFriday(today) + 6 <= MaxOrdinal
    ensures r.Ok? ==> Valid(r.value.start) && Valid(r.value.end)
    ensures r.Ok? ==> Ordinal(r.value.start) == Ordinal(today) - DaysSinceFriday(today)
    ensures r.Ok? ==> Ordinal(r.value.end) == Ordinal(r.value.start) + 6
  {
    match AddDays(today, -DaysSinceFriday(today))
    case None => Err(DateOverflow)
    case Some(start) =>
      match AddDays(start, 6)
      case None => Err(DateOverflow)
      case Some(end) => Ok(DateRange(start, end))
  }

  /**
   * `start = today.replace(day=1)`; `end` is the 31st for December and
   * otherwise the first of the next month minus one day.
   */
  function MonthRange(today: Date): (r: Result<DateRange, PeriodError>)
    requires Valid(today)
    ensures r.Ok? || r == Err(DateOverflow)
    ensures r.Ok? ==> Valid(r.value.start) && Valid(r.value.end)
    ensures r.Ok? ==> Ordinal(r.value.start) <= Ordinal(today) <= Ordinal(r.value.end)
  {
    var start := Date(today.year, today.month, 1);
    OrdinalOrder(start, today);
    if today.month == 12 then
      OrdinalOrder(today, Date(today.year, 12, 31));
      Ok(DateRange(start, Date(today.year, 12, 31)))
    else
      match AddDays(Date(today.year, today.month + 1, 1), -1)
      case None => Err(DateOverflow)
      case Some(end) =>
        OrdinalOrder(today, end);
        Ok(DateRange(start, end))
  }

  /** The day number of a range's last day minus that of its first, plus one. */
  function Length(r: DateRange): int
    requires Valid(r.start) && Valid(r.end)
  {
    Ordinal(r.end) - Ordinal(r.start) + 1
  }

  /** 'today' is the one-day range of today itself. */
  lemma ResolveToday(today: Date)
    requires Valid(today)
    ensures Resolve("today", today) == Ok(DateRange(today, today))
    ensures Length(DateRange(today, today)) == 1
  {
  }

  /** 'week' fails only when its first or last day leaves the calendar. */
  lemma ResolveWeekDefined(today: Date)
    requires Valid(today)
    ensures var first := Ordinal(today) - DaysSinceFriday(today);
            Resolve("week", today).Ok? <==> 1 <= first && first + 6 <= MaxOrdinal
  {
    assert Resolve("week", today) == WeekRange(today);
  }

  /** 'week' opens on the Friday `DaysSinceFriday` days before today. */
  lemma ResolveWeekStart(today: Date)
    requires Valid(today) && Resolve("week", today).Ok?
    ensures var w := Resolve("week", today).value;
            Ordinal(w.start) == Ordinal(today) - DaysSinceFriday(today) && Weekday(w.start) == Friday
  {
    assert Resolve("week", today) == WeekRange(today);
    DaysSinceFridayIsFriday(today, WeekRange(today).value.start);
  }

  /** The day `DaysSinceFriday(today)` days before today is a Friday. */
  lemma DaysSinceFridayIsFriday(today: Date, s: Date)
    requires Valid(today) && Valid(s) && Ordinal(s) == Ordinal(today) - DaysSinceFriday(today)
    ensures Weekday(s) == Friday
  {
    WeekdayShift(today, s);
    BackToFriday(Weekday(today), Weekday(s), Ordinal(s) - Ordinal(today));
  }

  /** 'week' closes six days after it opens, on a Thursday: seven days in all. */
  lemma ResolveWeekEnd(today: Date)
    requires Valid(today) && Resolve("week", today).Ok?
    ensures var w := Resolve("week", today).value;
            Ordinal(w.end) == Ordinal(w.start) + 6 && Length(w) == 7 && Weekday(w.end) == Thursday
  {
    assert Resolve("week", today) == WeekRange(today);
    var w := WeekRange(today).value;
    ResolveWeekStart(today);
    SixDaysAfterFriday(w.start, w.end);
  }

  lemma SixDaysAfterFriday(a: Date, b: Date)
    requires Valid(a) && Valid(b) && Weekday(a) == Friday && Ordinal(b) == Ordinal(a) + 6
    ensures Weekday(b) == Thursday
  {
    WeekdayShift(a, b);
    SixAfterFriday(Weekday(a), Weekday(b), Ordinal(b) - Ordinal(a));
  }

  lemma SixAfterFriday(w: int, v: int, delta: int)
    requires w == Friday && delta == 6 && v == (w + delta) % 7
    ensures v == Thursday
  {
  }

  /** From weekday `w`, going back `(w + 3) % 7` days reaches Friday. */
  lemma BackToFriday(w: int, v: int, delta: int)
    requires 0 <= w < 7 && delta == -((w + 3) % 7) && v == (w + delta) % 7
    ensures v == Friday
  {
  }

  /** No Friday on or before today is later than the start of the week. */
  lemma ResolveWeekLatestFriday(today: Date, f: Date)
    requires Valid(today) && Resolve("week", today).Ok?
    requires Valid(f) && Weekday(f) == Friday && Ordinal(f) <= Ordinal(today)
    ensures Ordinal(f) <= Ordinal(Resolve("week", today).value.start)
  {
    var w := Resolve("week", today).value;
    ResolveWeekStart(today);
    FridaysAreAWeekApart(w.start, f);
  }

  /** A Friday no more than six days after another Friday is not after it. */
  lemma FridaysAreAWeekApart(s: Date, f: Date)
    requires Valid(s) && Valid(f) && Weekday(s) == Friday && Weekday(f) == Friday
    requires Ordinal(f) <= Ordinal(s) + 6
    ensures Ordinal(f) <= Ordinal(s)
  {
    WeekdayShift(s, f);
    SameWeekdayWithinWeek(Ordinal(f) - Ordinal(s));
  }

  lemma SameWeekdayWithinWeek(k: int)
    requires k <= 6 && (Friday + k) % 7 == Friday
    ensures k <= 0
  {
    var q := (Friday + k) / 7;
    assert Friday + k == 7 * q + Friday;
  }

  /** The offset back to Friday is 0 on a Friday and 6 on a Thursday. */
  lemma DaysSinceFridayEnds(today: Date)
    requires Valid(today)
    ensures DaysSinceFriday(today) == 0 <==> Weekday(today) == Friday
    ensures DaysSinceFriday(today) == 6 <==> Weekday(today) == Thursday
  {
  }

  /**
   * 'month' runs from the first to the last day of today's month; December
   * closes on the 31st of the same year, February on the 29th exactly in a
   * leap year.
   */
  lemma ResolveMonth(today: Date)
    requires Valid(today)
    ensures var y, m := today.year, today.month;
            Resolve("month", today) == Ok(DateRange(Date(y, m, 1), Date(y, m, DaysInMonth(y, m))))
    ensures var y, m := today.year, today.month;
            var len := Length(DateRange(Date(y, m, 1), Date(y, m, DaysInMonth(y, m))));
            len == DaysInMonth(y, m) && 28 <= len <= 31
    ensures today.month == 12 ==> Resolve("month", today).value.end == Date(today.year, 12, 31)
    ensures today.month == 2 ==> (Resolve("month", today).value.end.day == 29 <==> IsLeapYear(today.year))
  {
    assert Resolve("month", today) == MonthRange(today);
    var y, m := today.year, today.month;
    var last := Date(y, m, DaysInMonth(y, m));
    if m < 12 {
      var next := Date(y, m + 1, 1);
      assert PrevDay(next) == Some(last);
      assert AddDays(next, -1) == AddDays(last, 0);
    }
  }

  /** An example: Wednesday 2024-12-18 lies in the week 2024-12-13 .. 2024-12-19. */
  lemma ResolveWeekExample()
    ensures Resolve("week", Date(2024, 12, 18)) == Ok(DateRange(Date(2024, 12, 13), Date(2024, 12, 19)))
  {
    var today := Date(2024, 12, 18);
    assert Weekday(today) == 2;
    assert DaysSinceFriday(today) == 5;
    ResolveWeekDefined(today);
    ResolveWeekStart(today);
    ResolveWeekEnd(today);
    var w := Resolve("week", today).value;
    var expected := DateRange(Date(2024, 12, 13), Date(2024, 12, 19));
    assert Ordinal(expected.start) == Ordinal(today) - 5;
    assert Ordinal(expected.end) == Ordinal(today) + 1;
    OrdinalOrder(w.start, expected.start);
    OrdinalOrder(w.end, expected.end);
  }
}
