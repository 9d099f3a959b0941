/** The exchange's year as a list of dates: which days db/load_reference_data.py closes and shortens, named by
    month, day and weekday. */
module CalendarYear {
  import opened Calendar
  import opened CalendarLoader

  // ---- days and weekdays -----------------------------------------------------------------------

  /** Thirty days have September, April, June and November. */
  lemma MonthLengths(y: int, m: int)
    requires 1 <= m <= 12
    ensures DaysBeforeMonth(y, 1) == 0
    ensures DaysBeforeMonth(y, m + 1) - DaysBeforeMonth(y, m)
            == if m == 2 then (if Leap(y) then 29 else 28) else if m in {4, 6, 9, 11} then 30 else 31
  {
  }

  /** A leap year is a multiple of 4, and of 400 if of 100; a date has a month from 1 to 12 and a day of it. */
  lemma DatesAre(d: Date)
    ensures Leap(d.year) <==>
              (exists k :: d.year == 4 * k) && ((exists k :: d.year == 100 * k) ==> exists k :: d.year == 400 * k)
    ensures ValidDate(d) <==>
              && d.month in {1, 2, 3, 4, 5, 6, 7, 8, 9, 10, 11, 12} && 1 <= d.day
              && d.day <= if d.month == 2 then (if Leap(d.year) then 29 else 28)
                          else if d.month in {4, 6, 9, 11} then 30 else 31
  {
    if 1 <= d.month <= 12 { MonthLengths(d.year, d.month); }
    MultipleIff(d.year, 4);
    MultipleIff(d.year, 100);
    MultipleIff(d.year, 400);
    hide DaysBeforeMonth;
  }

  lemma MultipleIff(y: int, n: int)
    requires n in {4, 100, 400}
    ensures y % n == 0 <==> exists k :: y == n * k
  {
    if n == 4 { assert y % 4 == 0 ==> y == 4 * (y / 4); }
    else if n == 100 { assert y % 100 == 0 ==> y == 100 * (y / 100); }
    else { assert y % 400 == 0 ==> y == 400 * (y / 400); }
  }

  /** Day 1 is 1 January of year 1, a Monday. */
  lemma DayOne()
    ensures Ordinal(Date(1, 1, 1)) == 1 && Weekday(1) == 0
  {
    YearOne(1);
    MonthLengths(1, 1);
    hide DaysBeforeYear, DaysBeforeMonth, Weekday;
    Monday(1);
  }

  lemma YearOne(y: int)
    requires y == 1
    ensures DaysBeforeYear(y) == 0
  {
  }

  lemma Monday(n: int)
    requires n == 1
    ensures Weekday(n) == 0
  {
  }

  /** Each day follows the one before, over the ends of months and years. */
  lemma DaysFollow(d: Date)
    requires ValidDate(d)
    ensures ValidDate(Date(d.year, d.month, d.day + 1)) ==>
              Ordinal(Date(d.year, d.month, d.day + 1)) == Ordinal(d) + 1
    ensures !ValidDate(Date(d.year, d.month, d.day + 1)) && d.month < 12 ==>
              Ordinal(Date(d.year, d.month + 1, 1)) == Ordinal(d) + 1
    ensures !ValidDate(Date(d.year, d.month, d.day + 1)) && d.month == 12 ==>
              Ordinal(Date(d.year + 1, 1, 1)) == Ordinal(d) + 1
  {
    YearLength(d.year);
    if d.month == 12 { EndOfYear(d.year); }
    hide DaysBeforeYear, DaysBeforeMonth;
  }

  lemma EndOfYear(y: int)
    ensures DaysBeforeMonth(y, 13) == 365 + LeapDay(y) && DaysBeforeMonth(y + 1, 1) == 0
  {
  }

  /** Weekdays go round. */
  lemma RoundTheWeek(n: int)
    ensures Weekday(n + 1) == (if Weekday(n) == 6 then 0 else Weekday(n) + 1)
  {
  }

  lemma SameWeek(a: int, b: int)
    requires Weekday(a) == Weekday(b) && -7 < a - b < 7
    ensures a == b
  {
    var q, r := (a + 6) / 7, (b + 6) / 7;
    assert a - b == 7 * (q - r);
  }

  // ---- closures --------------------------------------------------------------------------------

  /** That weekday, between those two days of the month. */
  predicate WeekdayWithin(n: int, y: int, m: int, weekday: int, from: int, to: int)
    requires 1 <= m <= 12
  {
    Weekday(n) == weekday && Ordinal(Date(y, m, from)) <= n <= Ordinal(Date(y, m, to))
  }

  /** The holiday itself, or the Friday before or Monday after it. */
  predicate TakenOn(n: int, y: int, m: int, d: int)
    requires 1 <= m <= 12
  {
    var day := Ordinal(Date(y, m, d));
    (n == day && Weekday(n) < 5) || (n == day - 1 && Weekday(n) == 4) || (n == day + 1 && Weekday(n) == 0)
  }

  /** New Year's Day, on a Saturday too; after a Sunday the Monday. */
  predicate NewYear(n: int, y: int) {
    var day := Ordinal(Date(y, 1, 1));
    (n == day && Weekday(n) != 6) || (n == day + 1 && Weekday(n) == 0)
  }

  lemma ObservedIs(n: int, y: int, m: int, d: int)
    requires 1 <= m <= 12
    ensures n == Observed(Ordinal(Date(y, m, d))) <==> TakenOn(n, y, m, d)
  {
    var day := Ordinal(Date(y, m, d));
    RoundTheWeek(day - 1);
    RoundTheWeek(day);
    hide Ordinal, Weekday;
  }

  lemma ObservedNewYearIs(n: int, y: int)
    ensures n == ObservedNewYear(Ordinal(Date(y, 1, 1))) <==> NewYear(n, y)
  {
    RoundTheWeek(Ordinal(Date(y, 1, 1)));
    hide Ordinal, Weekday;
  }

  lemma NthIs(n: int, y: int, m: int, weekday: int, k: int)
    requires 1 <= m <= 12 && 0 <= weekday < 7
    ensures n == NthWeekday(y, m, weekday, k) <==> WeekdayWithin(n, y, m, weekday, 7 * k - 6, 7 * k)
  {
    WeekdayRules(y, m, weekday, k);
    hide NthWeekday, Weekday, DaysBeforeYear, DaysBeforeMonth;
    if WeekdayWithin(n, y, m, weekday, 7 * k - 6, 7 * k) { SameWeek(n, NthWeekday(y, m, weekday, k)); }
  }

  lemma LastMondayIs(n: int, y: int)
    ensures n == LastWeekday(y, 5, 0) <==> WeekdayWithin(n, y, 5, 0, 25, 31)
  {
    WeekdayRules(y, 5, 0, 0);
    MonthLengths(y, 5);
    assert DaysBeforeMonth(y, 6) == DaysBeforeMonth(y, 5) + 31;
    hide LastWeekday, Weekday, DaysBeforeYear, DaysBeforeMonth;
    if WeekdayWithin(n, y, 5, 0, 25, 31) { SameWeek(n, LastWeekday(y, 5, 0)); }
  }

  predicate Scheduled(n: int, y: int) {
    || NewYear(n, y)
    || WeekdayWithin(n, y, 1, 0, 15, 21)
    || WeekdayWithin(n, y, 2, 0, 15, 21)
    || n == Ordinal(Easter(y)) - 2
    || WeekdayWithin(n, y, 5, 0, 25, 31)
    || (2022 <= y && TakenOn(n, y, 6, 19))
    || TakenOn(n, y, 7, 4)
    || WeekdayWithin(n, y, 9, 0, 1, 7)
    || WeekdayWithin(n, y, 11, 3, 22, 28)
    || TakenOn(n, y, 12, 25)
  }

  /** THE CLOSURES: New Year, Martin Luther King's and Washington's birthdays, Good Friday, Memorial Day, from
      2022 Juneteenth, Independence Day, Labor Day, Thanksgiving and Christmas, and 9 January 2025. */
  lemma ClosuresAre(y: int, n: int)
    ensures n in NyseHolidays(y) <==> Scheduled(n, y) || (y == 2025 && n == Ordinal(Date(2025, 1, 9)))
  {
    hide WeekdayWithin, TakenOn, NewYear, Ordinal, Weekday, NthWeekday, LastWeekday, Observed, ObservedNewYear, Easter;
    OneOfTheScheduled(y, n);
    AdHocAre(y, n);
    ObservedNewYearIs(n, y);
    NthIs(n, y, 1, 0, 3);
    NthIs(n, y, 2, 0, 3);
    LastMondayIs(n, y);
    ObservedIs(n, y, 6, 19);
    ObservedIs(n, y, 7, 4);
    NthIs(n, y, 9, 0, 1);
    NthIs(n, y, 11, 3, 4);
    ObservedIs(n, y, 12, 25);
    hide ScheduledClosures, AdHocClosures;
  }

  lemma OneOfTheScheduled(y: int, n: int)
    ensures n in ScheduledClosures(y)
            <==> || n == ObservedNewYear(Ordinal(Date(y, 1, 1)))
                 || n == NthWeekday(y, 1, 0, 3)
                 || n == NthWeekday(y, 2, 0, 3)
                 || n == Ordinal(Easter(y)) - 2
                 || n == LastWeekday(y, 5, 0)
                 || (2022 <= y && n == Observed(Ordinal(Date(y, 6, 19))))
                 || n == Observed(Ordinal(Date(y, 7, 4)))
                 || n == NthWeekday(y, 9, 0, 1)
                 || n == NthWeekday(y, 11, 3, 4)
                 || n == Observed(Ordinal(Date(y, 12, 25)))
  {
    hide Ordinal, Weekday, NthWeekday, LastWeekday, Observed, ObservedNewYear, Easter;
  }

  lemma AdHocAre(y: int, n: int)
    ensures n in NyseHolidays(y)
            <==> n in ScheduledClosures(y) || (y == 2025 && n == Ordinal(Date(2025, 1, 9)))
  {
    hide Ordinal, ScheduledClosures;
    assert Date(2025, 1, 9) in AdHocClosures();
  }

  /** THE EARLY CLOSES: the Friday after Thanksgiving, and 3 July and 24 December when they fall on a day from
      Monday to Thursday. */
  lemma EarlyClosesAre(y: int, n: int)
    ensures n in EarlyCloses(y)
            <==> || WeekdayWithin(n, y, 11, 4, 23, 29)
                 || (n == Ordinal(Date(y, 7, 3)) && Weekday(n) <= 3)
                 || (n == Ordinal(Date(y, 12, 24)) && Weekday(n) <= 3)
  {
    NthIs(n - 1, y, 11, 3, 4);
    RoundTheWeek(n - 1);
    RoundTheWeek(Ordinal(Date(y, 7, 3)));
    RoundTheWeek(Ordinal(Date(y, 12, 24)));
    hide Weekday, NthWeekday, DaysBeforeYear, DaysBeforeMonth;
  }

  /** THE SESSION of a day of year y: closed at weekends and on closures, to 13:00 on an early close and
      otherwise to 16:00. */
  lemma SessionMeans(n: int, y: int)
    ensures match SessionOn(n, y)
            case Closed => Weekday(n) in {5, 6} || n in NyseHolidays(y)
            case Open(hour) => Weekday(n) !in {5, 6} && n !in NyseHolidays(y)
                               && hour == if n in EarlyCloses(y) then 13 else 16
  {
    hide NyseHolidays, EarlyCloses;
  }
}
