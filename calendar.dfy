/**
 * Proleptic Gregorian calendar dates with the range and arithmetic of
 * Python's `datetime.date`: years 1 to 9999, day numbers ("ordinals") with
 * 0001-01-01 as day 1, weekday 0 for Monday, and `date ± timedelta(days)`
 * that fails with OverflowError when the result leaves the range.
 */
module Calendar {
  import opened Wrappers

  const MinYear := 1
  const MaxYear := 9999
  /** The ordinal of 9999-12-31. */
  const MaxOrdinal := 3652059

  /** Weekday numbers, Monday = 0. */
  const Thursday := 3
  const Friday := 4

  datatype Date = Date(year: int, month: int, day: int)

  const FirstDate := Date(MinYear, 1, 1)
  const LastDate := Date(MaxYear, 12, 31)

  predicate IsLeapYear(y: int)
  {
    y % 4 == 0 && (y % 100 != 0 || y % 400 == 0)
  }

  function DaysInYear(y: int): int
  {
    if IsLeapYear(y) then 366 else 365
  }

  function DaysInMonth(y: int, m: int): (n: int)
    requires 1 <= m <= 12
    ensures 28 <= n <= 31
    ensures m == 2 ==> (n == 29 <==> IsLeapYear(y))
    ensures m != 2 ==> n >= 30
  {
    if m == 2 then (if IsLeapYear(y) then 29 else 28)
    else if m == 4 || m == 6 || m == 9 || m == 11 then 30
    else 31
  }

  /** A date the Python `date` constructor accepts. */
  predicate Valid(d: Date)
  {
    MinYear <= d.year <= MaxYear && 1 <= d.month <= 12 && 1 <= d.day <= DaysInMonth(d.year, d.month)
  }

  /** Days in the years before `y` (Python's `_days_before_year`). */
  function DaysBeforeYear(y: int): int
    requires y >= 1
  {
    var p := y - 1;
    p * 365 + p / 4 - p / 100 + p / 400
  }

  /** Days in the months of year `y` before month `m` (Python's `_days_before_month`). */
  function DaysBeforeMonth(y: int, m: int): int
    requires 1 <= m <= 12
  {
    var common :=
      if m <= 6 then
        (if m == 1 then 0 else if m == 2 then 31 else if m == 3 then 59
         else if m == 4 then 90 else if m == 5 then 120 else 151)
      else
        (if m == 7 then 181 else if m == 8 then 212 else if m == 9 then 243
         else if m == 10 then 273 else if m == 11 then 304 else 334);
    common + (if m > 2 && IsLeapYear(y) then 1 else 0)
  }

  /** Day number of a date, 0001-01-01 being day 1 (Python's `toordinal`). */
  function Ordinal(d: Date): int
    requires Valid(d)
  {
    DaysBeforeYear(d.year) + DaysBeforeMonth(d.year, d.month) + d.day
  }

  /** Python's `date.weekday()`: Monday is 0 and Sunday is 6. */
  function Weekday(d: Date): (w: int)
    requires Valid(d)
    ensures 0 <= w < 7
  {
    (Ordinal(d) + 6) % 7
  }

  /** Strict chronological order, field by field. */
  predicate Precedes(a: Date, b: Date)
  {
    a.year < b.year
    || (a.year == b.year && a.month < b.month)
    || (a.year == b.year && a.month == b.month && a.day < b.day)
  }

  lemma DaysBeforeMonthStep(y: int, m: int)
    requires 1 <= m <= 12
    ensures m < 12 ==> DaysBeforeMonth(y, m + 1) == DaysBeforeMonth(y, m) + DaysInMonth(y, m)
    ensures m == 12 ==> DaysBeforeMonth(y, m) + DaysInMonth(y, m) == DaysInYear(y)
  {
  }

  lemma DaysBeforeYearStep(y: int)
    requires y >= 1
    ensures DaysBeforeYear(y + 1) == DaysBeforeYear(y) + DaysInYear(y)
  {
    var p := y - 1;
    assert y / 4 == p / 4 + (if y % 4 == 0 then 1 else 0);
    assert y / 100 == p / 100 + (if y % 100 == 0 then 1 else 0);
    assert y / 400 == p / 400 + (if y % 400 == 0 then 1 else 0);
  }

  lemma {:induction false} DaysBeforeYearMonotone(a: int, b: int)
    requires 1 <= a <= b
    ensures DaysBeforeYear(a) + 365 * (b - a) <= DaysBeforeYear(b)
    decreases b - a
  {
    if a < b {
      DaysBeforeYearMonotone(a, b - 1);
      DaysBeforeYearStep(b - 1);
    }
  }

  lemma {:induction false} DaysBeforeMonthMonotone(y: int, a: int, b: int)
    requires 1 <= a <= b <= 12
    ensures DaysBeforeMonth(y, a) + (if a < b then DaysInMonth(y, a) else 0) <= DaysBeforeMonth(y, b)
    decreases b - a
  {
    if a < b {
      DaysBeforeMonthStep(y, a);
      if a + 1 < b {
        DaysBeforeMonthMonotone(y, a + 1, b);
      }
    }
  }

  lemma FirstDateOrdinal()
    ensures Valid(FirstDate) && Ordinal(FirstDate) == 1
  {
  }

  lemma LastDateOrdinal()
    ensures Valid(LastDate) && Ordinal(LastDate) == MaxOrdinal
  {
    assert DaysBeforeYear(MaxYear) == 9998 * 365 + 2499 - 99 + 24;
    assert DaysBeforeMonth(MaxYear, 12) == 334;
  }

  /** A date's day number lies within its year. */
  lemma OrdinalWithinYear(d: Date)
    requires Valid(d)
    ensures DaysBeforeYear(d.year) < Ordinal(d) <= DaysBeforeYear(d.year + 1)
  {
    DaysBeforeMonthMonotone(d.year, d.month, 12);
    DaysBeforeMonthStep(d.year, 12);
    DaysBeforeYearStep(d.year);
  }

  /** Chronological order is day-number order. */
  lemma OrdinalMonotone(a: Date, b: Date)
    requires Valid(a) && Valid(b) && Precedes(a, b)
    ensures Ordinal(a) < Ordinal(b)
  {
    if a.year < b.year {
      OrdinalWithinYear(a);
      OrdinalWithinYear(b);
      DaysBeforeYearMonotone(a.year + 1, b.year);
    } else if a.month < b.month {
      DaysBeforeMonthMonotone(a.year, a.month, b.month);
    }
  }

  lemma OrdinalOrder(a: Date, b: Date)
    requires Valid(a) && Valid(b)
    ensures Ordinal(a) < Ordinal(b) <==> Precedes(a, b)
    ensures Ordinal(a) == Ordinal(b) <==> a == b
  {
    if Precedes(a, b) {
      OrdinalMonotone(a, b);
    } else if Precedes(b, a) {
      OrdinalMonotone(b, a);
    }
  }

  lemma OrdinalBounds(d: Date)
    requires Valid(d)
    ensures 1 <= Ordinal(d) <= MaxOrdinal
    ensures Ordinal(d) == 1 <==> d == FirstDate
    ensures Ordinal(d) == MaxOrdinal <==> d == LastDate
  {
    OrdinalLowerBound(d);
    OrdinalUpperBound(d);
  }

  lemma OrdinalLowerBound(d: Date)
    requires Valid(d)
    ensures 1 <= Ordinal(d)
    ensures Ordinal(d) == 1 <==> d == FirstDate
  {
    assert DaysBeforeYear(d.year) >= 0;
    if d != FirstDate {
      FirstDateOrdinal();
      assert Precedes(FirstDate, d);
      OrdinalMonotone(FirstDate, d);
    }
  }

  lemma OrdinalUpperBound(d: Date)
    requires Valid(d)
    ensures Ordinal(d) <= MaxOrdinal
    ensures Ordinal(d) == MaxOrdinal <==> d == LastDate
  {
    LastDateOrdinal();
    if d != LastDate {
      assert Precedes(d, LastDate);
      OrdinalMonotone(d, LastDate);
    }
  }

  /** The following day, or None after 9999-12-31. */
  function NextDay(d: Date): (r: Option<Date>)
    requires Valid(d)
    ensures r.None? <==> d == LastDate
    ensures r.Some? ==> Valid(r.value) && Ordinal(r.value) == Ordinal(d) + 1
  {
    if d.day < DaysInMonth(d.year, d.month) then
      Some(Date(d.year, d.month, d.day + 1))
    else if d.month < 12 then
      DaysBeforeMonthStep(d.year, d.month);
      Some(Date(d.year, d.month + 1, 1))
    else if d.year < MaxYear then
      DaysBeforeMonthStep(d.year, 12);
      DaysBeforeYearStep(d.year);
      Some(Date(d.year + 1, 1, 1))
    else
      None
  }

  /** The preceding day, or None before 0001-01-01. */
  function PrevDay(d: Date): (r: Option<Date>)
    requires Valid(d)
    ensures r.None? <==> d == FirstDate
    ensures r.Some? ==> Valid(r.value) && Ordinal(r.value) + 1 == Ordinal(d)
  {
    if d.day > 1 then
      Some(Date(d.year, d.month, d.day - 1))
    else if d.month > 1 then
      DaysBeforeMonthStep(d.year, d.month - 1);
      Some(Date(d.year, d.month - 1, DaysInMonth(d.year, d.month - 1)))
    else if d.year > MinYear then
      DaysBeforeMonthStep(d.year - 1, 12);
      DaysBeforeYearStep(d.year - 1);
      Some(Date(d.year - 1, 12, 31))
    else
      None
  }

  /**
   * `d + timedelta(days=k)`: the date whose day number is `Ordinal(d) + k`,
   * or None where Python raises OverflowError.
   */
  function AddDays(d: Date, k: int): (r: Option<Date>)
    requires Valid(d)
    ensures r.Some? <==> 1 <= Ordinal(d) + k <= MaxOrdinal
    ensures r.Some? ==> Valid(r.value) && Ordinal(r.value) == Ordinal(d) + k
    decreases if k < 0 then -k else k
  {
    if k == 0 then
      OrdinalBounds(d);
      Some(d)
    else if k > 0 then
      match NextDay(d)
      case None => LastDateOrdinal(); None
      case Some(n) => AddDays(n, k - 1)
    else
      match PrevDay(d)
      case None => FirstDateOrdinal(); None
      case Some(p) => AddDays(p, k + 1)
  }

  /** Adding days moves the weekday round the week. */
  lemma AddDaysWeekday(d: Date, k: int)
    requires Valid(d) && AddDays(d, k).Some?
    ensures Weekday(AddDays(d, k).value) == (Weekday(d) + k) % 7
  {
    var r := AddDays(d, k).value;
    WeekdayShift(d, r);
  }

  /** The weekday moves on by the difference of day numbers. */
  lemma WeekdayShift(a: Date, b: Date)
    requires Valid(a) && Valid(b)
    ensures Weekday(b) == (Weekday(a) + (Ordinal(b) - Ordinal(a))) % 7
  {
    WeekdayOfShift(Ordinal(a), Ordinal(b));
  }

  lemma WeekdayOfShift(x: int, y: int)
    ensures (y + 6) % 7 == ((x + 6) % 7 + (y - x)) % 7
  {
    Mod7AddLeft(x + 6, y - x);
  }

  lemma Mod7AddLeft(a: int, b: int)
    ensures (a + b) % 7 == (a % 7 + b) % 7
  {
  }
}
