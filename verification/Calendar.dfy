/** The NYSE calendar rules of db/load_reference_data.py over the proleptic Gregorian calendar
    (section 3.2.1 of ISO 8601:2004). A day is its ordinal: day 1 is 1 January of year 1, a Monday. */
module Calendar {

  datatype Date = Date(year: int, month: int, day: int)

  predicate Leap(y: int) {
    y % 4 == 0 && (y % 100 != 0 || y % 400 == 0)
  }

  function LeapDay(y: int): int {
    if Leap(y) then 1 else 0
  }

  /** The ordinal of 31 December of the year before. */
  function DaysBeforeYear(y: int): int {
    365 * (y - 1) + (y - 1) / 4 - (y - 1) / 100 + (y - 1) / 400
  }

  function DaysBeforeMonth(y: int, m: int): int
    requires 1 <= m <= 13
  {
    [0, 31, 59, 90, 120, 151, 181, 212, 243, 273, 304, 334, 365][m - 1] + (if m > 2 then LeapDay(y) else 0)
  }

  predicate ValidDate(d: Date) {
    1 <= d.month <= 12
    && 1 <= d.day <= DaysBeforeMonth(d.year, d.month + 1) - DaysBeforeMonth(d.year, d.month)
  }

  function Ordinal(d: Date): int
    requires 1 <= d.month <= 12
  {
    DaysBeforeYear(d.year) + DaysBeforeMonth(d.year, d.month) + d.day
  }

  /** Monday is 0, Sunday is 6. */
  function Weekday(n: int): (w: int)
    ensures 0 <= w < 7
  {
    (n + 6) % 7
  }

  predicate InYear(n: int, y: int) {
    DaysBeforeYear(y) < n <= DaysBeforeYear(y + 1)
  }

  lemma YearLength(y: int)
    ensures DaysBeforeYear(y + 1) == DaysBeforeYear(y) + 365 + LeapDay(y)
  {
    DivStep(y, 4);
    DivStep(y, 100);
    DivStep(y, 400);
    Divides(y);
  }

  lemma DivStep(y: int, n: int)
    requires n == 4 || n == 100 || n == 400
    ensures y / n == (y - 1) / n + (if y % n == 0 then 1 else 0)
  {
    if n == 4 {} else if n == 100 {} else {}
  }

  lemma Divides(y: int)
    ensures y % 400 == 0 ==> y % 100 == 0
    ensures y % 100 == 0 ==> y % 4 == 0
  {
    var q, c := y / 400, y / 100;
    if y % 400 == 0 { Multiple(100, 4 * q, y); }
    if y % 100 == 0 { Multiple(4, 25 * c, y); }
  }

  lemma Multiple(n: int, k: int, y: int)
    requires (n == 100 || n == 4) && y == n * k
    ensures y % n == 0
  {
    if n == 4 { assert y / 4 == k; } else { assert y / 100 == k; }
  }

  // ---- weekday rules -------------------------------------------------------------------------

  function NthWeekday(y: int, m: int, weekday: int, n: int): int
    requires 1 <= m <= 12
  {
    var first := Ordinal(Date(y, m, 1));
    first + (weekday - Weekday(first)) % 7 + 7 * (n - 1)
  }

  function LastWeekday(y: int, m: int, weekday: int): int
    requires 1 <= m <= 12
  {
    var last := if m < 12 then Ordinal(Date(y, m + 1, 1)) - 1 else Ordinal(Date(y, 12, 31));
    last - (Weekday(last) - weekday) % 7
  }

  lemma WeekdayInReach(d: int, weekday: int)
    requires 0 <= weekday < 7
    ensures Weekday(d + (weekday - Weekday(d)) % 7) == weekday
    ensures Weekday(d - (Weekday(d) - weekday) % 7) == weekday
  {
    var q, ahead, back := (d + 6) / 7, (weekday - Weekday(d)) / 7, (Weekday(d) - weekday) / 7;
    RemainderIs(d + (weekday - Weekday(d)) % 7 + 6, q - ahead, weekday);
    RemainderIs(d - (Weekday(d) - weekday) % 7 + 6, q + back, weekday);
  }

  lemma RemainderIs(x: int, q: int, r: int)
    requires 0 <= r < 7 && x == 7 * q + r
    ensures x % 7 == r
  {
    assert x / 7 == q;
  }

  /** The n-th such weekday falls on that weekday, in the n-th group of seven days of the month;
      the last one falls within the final seven. */
  lemma WeekdayRules(y: int, m: int, weekday: int, n: int)
    requires 1 <= m <= 12 && 0 <= weekday < 7
    ensures Weekday(NthWeekday(y, m, weekday, n)) == weekday
    ensures Ordinal(Date(y, m, 7 * n - 6)) <= NthWeekday(y, m, weekday, n) <= Ordinal(Date(y, m, 7 * n))
    ensures Weekday(LastWeekday(y, m, weekday)) == weekday
    ensures DaysBeforeMonth(y, m + 1) - 7 < LastWeekday(y, m, weekday) - DaysBeforeYear(y) <= DaysBeforeMonth(y, m + 1)
  {
    hide DaysBeforeYear, Weekday;
    var first := Ordinal(Date(y, m, 1));
    WeekdayInReach(first, weekday);
    var w := NthWeekday(y, m, weekday, 1);
    WeeksLater(w, n - 1);
    assert NthWeekday(y, m, weekday, n) == w + 7 * (n - 1);
    WeekdayInReach(if m < 12 then Ordinal(Date(y, m + 1, 1)) - 1 else Ordinal(Date(y, 12, 31)), weekday);
  }

  lemma WeeksLater(d: int, weeks: int)
    ensures Weekday(d + 7 * weeks) == Weekday(d)
  {
    RemainderIs(d + 7 * weeks + 6, (d + 6) / 7 + weeks, (d + 6) % 7);
  }

  // ---- Easter --------------------------------------------------------------------------------

  function Easter(y: int): Date {
    var a, b, c := y % 19, y / 100, y % 100;
    var d, e := b / 4, b % 4;
    var f := (b + 8) / 25;
    var g := (b - f + 1) / 3;
    var h := (19 * a + b - d - g + 15) % 30;
    var i, k := c / 4, c % 4;
    var lu := (32 + 2 * e + 2 * i - h - k) % 7;
    var m := (a + 11 * h + 22 * lu) / 451;
    Date(y, (h + lu - 7 * m + 114) / 31, (h + lu - 7 * m + 114) % 31 + 1)
  }

  /** The Paschal full moon as a day of March, by the epact rule of the Gregorian reform: golden
      number, solar and lunar corrections, epact. */
  ghost function PaschalMoon(y: int): int {
    var golden, century := y % 19 + 1, y / 100 + 1;
    var solar, lunar := 3 * century / 4 - 12, (8 * century + 5) / 25 - 5;
    var epact := (11 * golden + 20 + lunar - solar) % 30;
    var moved := if epact == 24 || (epact == 25 && golden > 11) then epact + 1 else epact;
    if 44 - moved < 21 then 74 - moved else 44 - moved
  }

  lemma MarchOrdinal(y: int)
    ensures var b, c := y / 100, y % 100;
            Ordinal(Date(y, 3, 0)) == 146097 * (b / 4) + 36524 * (b % 4) + 1461 * (c / 4) + 365 * (c % 4) - 306
  {
    YearLength(y);
    var b, c := y / 100, y % 100;
    var d, e, i, k := b / 4, b % 4, c / 4, c % 4;
    assert y == 400 * d + 100 * e + 4 * i + k;
    assert y / 4 == 25 * b + i && y / 400 == d;
  }

  /** h + lu - 7m days after 22 March is a Sunday, whatever h and m are: lu is solved for it. */
  lemma SundayOffset(y: int, h: int, m: int)
    ensures var b, c := y / 100, y % 100;
            var lu := (32 + 2 * (b % 4) + 2 * (c / 4) - h - c % 4) % 7;
            Weekday(Ordinal(Date(y, 3, 0)) + 22 + h + lu - 7 * m) == 6
  {
    MarchOrdinal(y);
    var b, c := y / 100, y % 100;
    var d, e, i, k := b / 4, b % 4, c / 4, c % 4;
    var t := 32 + 2 * e + 2 * i - h - k;
    var lu := t % 7;
    assert lu == t - 7 * (t / 7);
    var n := Ordinal(Date(y, 3, 0)) + 22 + h + lu - 7 * m;
    hide Ordinal;
    assert n == 7 * (20871 * d + 5218 * e + 209 * i + 52 * k - 36 - t / 7 - m);
    RemainderIs(n + 6, 20871 * d + 5218 * e + 209 * i + 52 * k - 36 - t / 7 - m, 6);
  }

  /** How far past 22 March Easter falls; h is the paschal moon's distance from 21 March before the
      two epact exceptions, and m removes a week exactly when one of them bites on a Saturday. */
  lemma EasterOffset(y: int) returns (h: int, lu: int, m: int)
    ensures 0 <= h < 30 && 0 <= lu < 7
    ensures h == (19 * (y % 19) + y / 100 - y / 100 / 4 - (y / 100 - (y / 100 + 8) / 25 + 1) / 3 + 15) % 30
    ensures m == if lu == 6 && (h == 29 || (h == 28 && y % 19 >= 11)) then 1 else 0
    ensures 0 <= h + lu - 7 * m <= 34
    ensures Easter(y) == if h + lu - 7 * m <= 9 then Date(y, 3, 22 + h + lu - 7 * m) else Date(y, 4, h + lu - 7 * m - 9)
    ensures Weekday(Ordinal(Date(y, 3, 0)) + 22 + h + lu - 7 * m) == 6
  {
    hide DaysBeforeYear, Weekday;
    var b, c := y / 100, y % 100;
    h := (19 * (y % 19) + b - b / 4 - (b - (b + 8) / 25 + 1) / 3 + 15) % 30;
    lu := (32 + 2 * (b % 4) + 2 * (c / 4) - h - c % 4) % 7;
    m := (y % 19 + 11 * h + 22 * lu) / 451;
    WeekRemoved(y % 19, h, lu);
    MonthAndDay(h + lu - 7 * m);
    SundayOffset(y, h, m);
  }

  lemma WeekRemoved(a: int, h: int, lu: int)
    requires 0 <= a < 19 && 0 <= h < 30 && 0 <= lu < 7
    ensures (a + 11 * h + 22 * lu) / 451 == if lu == 6 && (h == 29 || (h == 28 && a >= 11)) then 1 else 0
  {
  }

  lemma MonthAndDay(n: int)
    requires 0 <= n <= 34
    ensures (n + 114) / 31 == if n <= 9 then 3 else 4
    ensures (n + 114) % 31 + 1 == if n <= 9 then 22 + n else n - 9
  {
  }

  /** For every year Easter is a valid date from 22 March to 25 April, and a Sunday; so the day two
      before it, Good Friday, is a Friday. */
  lemma EasterIsSunday(y: int)
    ensures var e := Easter(y);
            && e.year == y && ((e.month == 3 && 22 <= e.day <= 31) || (e.month == 4 && 1 <= e.day <= 25))
            && ValidDate(e) && Weekday(Ordinal(e)) == 6 && Weekday(Ordinal(e) - 2) == 4
  {
    hide DaysBeforeYear, Weekday, Easter;
    var h, lu, m := EasterOffset(y);
    var n := h + lu - 7 * m;
    assert Ordinal(Easter(y)) == Ordinal(Date(y, 3, 0)) + 22 + n;
    TwoDaysBefore(Ordinal(Easter(y)));
  }

  lemma TwoDaysBefore(n: int)
    requires Weekday(n) == 6
    ensures Weekday(n - 2) == 4
  {
  }

  /** The month-length corrections of the two algorithms agree: (b - (b+8)/25 + 1)/3 = (8b+13)/25. */
  lemma LunarCorrection(b: int)
    ensures (b - (b + 8) / 25 + 1) / 3 == (8 * b + 13) / 25 == (8 * (b + 1) + 5) / 25
  {
    var f, r := (b + 8) / 25, (b + 8) % 25;
    var g, s := (b - f + 1) / 3, (b - f + 1) % 3;
    assert b == 25 * f + r - 8 && 24 * f + r - 7 == 3 * g + s;
    assert 3 * (8 * b + 13 - 25 * g) == 22 - r + 25 * s;
    assert 0 <= 8 * b + 13 - 25 * g < 25;
  }

  /** The anonymous algorithm is the Gregorian rule: Easter is the Sunday strictly after the Paschal
      full moon, and no later than a week after it. */
  lemma EasterFollowsPaschalMoon(y: int)
    ensures Ordinal(Date(y, 3, PaschalMoon(y))) < Ordinal(Easter(y)) <= Ordinal(Date(y, 3, PaschalMoon(y))) + 7
  {
    hide DaysBeforeYear, Weekday, Easter, PaschalMoon;
    var h, lu, m := EasterOffset(y);
    MoonDay(y, h);
    assert Ordinal(Easter(y)) == Ordinal(Date(y, 3, 0)) + 22 + h + lu - 7 * m;
  }

  /** The Paschal full moon in terms of h: 21 + h March, moved a day back in the two epact exceptions. */
  lemma MoonDay(y: int, h: int)
    requires h == (19 * (y % 19) + y / 100 - y / 100 / 4 - (y / 100 - (y / 100 + 8) / 25 + 1) / 3 + 15) % 30
    ensures PaschalMoon(y) == 21 + h - (if h == 29 || (h == 28 && y % 19 >= 11) then 1 else 0)
  {
    var a, b := y % 19, y / 100;
    var g := (b - (b + 8) / 25 + 1) / 3;
    LunarCorrection(b);
    SolarCorrection(b);
    EpactOf(19 * a + b - b / 4 - g + 15, 11 * (a + 1) + 20 + (g - 5) - (b - b / 4 - 12), a);
    MoonFromEpact((11 * (a + 1) + 20 + (g - 5) - (b - b / 4 - 12)) % 30, h, a + 1);
  }

  lemma SolarCorrection(b: int)
    ensures 3 * (b + 1) / 4 - 12 == b - b / 4 - 12
  {
  }

  lemma MoonFromEpact(epact: int, h: int, golden: int)
    requires 0 <= h < 30 && epact == (23 - h) % 30
    ensures var moved := if epact == 24 || (epact == 25 && golden > 11) then epact + 1 else epact;
            (if 44 - moved < 21 then 74 - moved else 44 - moved)
            == 21 + h - (if h == 29 || (h == 28 && golden > 11) then 1 else 0)
  {
  }

  lemma EpactOf(x: int, z: int, a: int)
    requires x + z == 30 * a + 53
    ensures z % 30 == (23 - x % 30) % 30
  {
    assert z == 30 * (a + 1 - x / 30) + 23 - x % 30;
  }

  // ---- holidays and early closes -------------------------------------------------------------

  /** A Saturday holiday is taken on the Friday before, a Sunday one on the Monday after. */
  function Observed(n: int): int {
    if Weekday(n) == 5 then n - 1 else if Weekday(n) == 6 then n + 1 else n
  }

  /** New Year's Day moves only off a Sunday. */
  function ObservedNewYear(n: int): int {
    if Weekday(n) == 6 then n + 1 else n
  }

  function AdHocClosures(): set<Date> {
    {Date(2025, 1, 9)}
  }

  function ScheduledClosures(y: int): set<int> {
    {
      ObservedNewYear(Ordinal(Date(y, 1, 1))),
      NthWeekday(y, 1, 0, 3),
      NthWeekday(y, 2, 0, 3),
      Ordinal(Easter(y)) - 2,
      LastWeekday(y, 5, 0),
      Observed(Ordinal(Date(y, 7, 4))),
      NthWeekday(y, 9, 0, 1),
      NthWeekday(y, 11, 3, 4),
      Observed(Ordinal(Date(y, 12, 25)))
    } + (if y >= 2022 then {Observed(Ordinal(Date(y, 6, 19)))} else {})
  }

  /** The single authority on full-day closures: the scheduled ones and that year's ad-hoc ones. */
  function NyseHolidays(y: int): set<int> {
    ScheduledClosures(y) + (set d | d in AdHocClosures() && d.year == y :: Ordinal(d))
  }

  function EarlyCloses(y: int): set<int> {
    var jul4, dec25 := Ordinal(Date(y, 7, 4)), Ordinal(Date(y, 12, 25));
    {NthWeekday(y, 11, 3, 4) + 1}
    + (if 1 <= Weekday(jul4) <= 4 then {Ordinal(Date(y, 7, 3))} else {})
    + (if 1 <= Weekday(dec25) <= 4 then {Ordinal(Date(y, 12, 24))} else {})
  }

  /** The ten closures in calendar order; Juneteenth, the sixth, exists from 2022. */
  ghost function TenClosures(y: int): seq<int> {
    [
      ObservedNewYear(Ordinal(Date(y, 1, 1))),
      NthWeekday(y, 1, 0, 3),
      NthWeekday(y, 2, 0, 3),
      Ordinal(Easter(y)) - 2,
      LastWeekday(y, 5, 0),
      Observed(Ordinal(Date(y, 6, 19))),
      Observed(Ordinal(Date(y, 7, 4))),
      NthWeekday(y, 9, 0, 1),
      NthWeekday(y, 11, 3, 4),
      Observed(Ordinal(Date(y, 12, 25)))
    ]
  }

  lemma ObservedMeans(n: int)
    ensures Weekday(Observed(n)) < 5 && n - 1 <= Observed(n) <= n + 1
    ensures Weekday(n) < 5 ==> Observed(n) == n
    ensures Weekday(ObservedNewYear(n)) != 6 && n <= ObservedNewYear(n) <= n + 1
    ensures Weekday(ObservedNewYear(n)) == 5 <==> Weekday(n) == 5
  {
  }

  ghost predicate Increasing(s: seq<int>) {
    forall i, j :: 0 <= i < j < |s| ==> s[i] < s[j]
  }

  /** The ten are in strictly increasing order, inside the year, and all weekdays except that New
      Year's Day stays on a Saturday it falls on. */
  lemma ClosuresInOrder(y: int)
    ensures |TenClosures(y)| == 10 && Increasing(TenClosures(y))
    ensures DaysBeforeYear(y) < TenClosures(y)[0] && TenClosures(y)[9] <= DaysBeforeYear(y) + 360 + LeapDay(y)
    ensures forall i :: 1 <= i < 10 ==> Weekday(TenClosures(y)[i]) < 5
    ensures Weekday(TenClosures(y)[0]) < 5 <==> Weekday(DaysBeforeYear(y) + 1) != 5
  {
    hide DaysBeforeYear, Weekday, NthWeekday, LastWeekday, Easter, Observed, ObservedNewYear;
    ObservedMeans(Ordinal(Date(y, 1, 1)));
    WeekdayRules(y, 1, 0, 3);
    WeekdayRules(y, 2, 0, 3);
    EasterIsSunday(y);
    WeekdayRules(y, 5, 0, 0);
    ObservedMeans(Ordinal(Date(y, 6, 19)));
    ObservedMeans(Ordinal(Date(y, 7, 4)));
    WeekdayRules(y, 9, 0, 1);
    WeekdayRules(y, 11, 3, 4);
    ObservedMeans(Ordinal(Date(y, 12, 25)));
    var t := TenClosures(y);
    assert t[0] < t[1] < t[2] < t[3] < t[4] < t[5] < t[6] < t[7] < t[8] < t[9];
  }

  lemma {:induction false} IncreasingSize(s: seq<int>)
    requires Increasing(s)
    ensures |set n | n in s| == |s|
  {
    if s != [] {
      var init, last := s[..|s| - 1], s[|s| - 1];
      IncreasingSize(init);
      assert (set n | n in s) == (set n | n in init) + {last};
    }
  }

  lemma ClosuresAreListed(y: int)
    ensures ScheduledClosures(y) == (set n | n in TenClosures(y)) - (if y >= 2022 then {} else {TenClosures(y)[5]})
  {
    hide DaysBeforeYear, Weekday, NthWeekday, LastWeekday, Easter, Observed, ObservedNewYear, Ordinal;
    ClosuresInOrder(y);
    var t := TenClosures(y);
    SetOfTen(t);
    assert ScheduledClosures(y) == {t[0], t[1], t[2], t[3], t[4], t[6], t[7], t[8], t[9]}
        + (if y >= 2022 then {t[5]} else {});
    assert t[5] !in {t[0], t[1], t[2], t[3], t[4], t[6], t[7], t[8], t[9]};
  }

  lemma SetOfTen(t: seq<int>)
    requires |t| == 10
    ensures (set n | n in t) == {t[0], t[1], t[2], t[3], t[4], t[5], t[6], t[7], t[8], t[9]}
  {
  }

  /** Ten distinct scheduled closures a year from 2022, nine before; every closure of a year, ad-hoc
      ones included, is a day of that year. */
  lemma ClosuresOfYear(y: int)
    ensures |ScheduledClosures(y)| == if y >= 2022 then 10 else 9
    ensures forall n :: n in NyseHolidays(y) ==> InYear(n, y)
  {
    hide Weekday, NthWeekday, LastWeekday, Easter, Observed, ObservedNewYear, DaysBeforeYear, ScheduledClosures,
         TenClosures;
    ClosuresAreListed(y);
    ClosuresInOrder(y);
    IncreasingSize(TenClosures(y));
    YearLength(y);
    var t := TenClosures(y);
    assert y < 2022 ==> t[5] in t;
    forall n | n in NyseHolidays(y) ensures InYear(n, y) {
      if n in ScheduledClosures(y) {
        var i :| 0 <= i < |t| && t[i] == n;
        assert t[0] <= t[i] <= t[9];
      }
    }
  }

  /** An early close is always a trading day: a weekday of that year that no closure falls on. */
  lemma EarlyClosesTrade(y: int, n: int)
    requires n in EarlyCloses(y)
    ensures InYear(n, y) && Weekday(n) < 5 && n !in NyseHolidays(y)
  {
    hide DaysBeforeYear, Weekday, NthWeekday, LastWeekday, Easter, Observed, ObservedNewYear, ScheduledClosures;
    WeekdayRules(y, 11, 3, 4);
    NextToWeekday(NthWeekday(y, 11, 3, 4));
    NextToWeekday(Ordinal(Date(y, 7, 4)));
    NextToWeekday(Ordinal(Date(y, 12, 25)));
    YearLength(y);
    BetweenClosures(y, n);
  }

  lemma NextToWeekday(n: int)
    ensures 1 <= Weekday(n) <= 4 ==> Weekday(n - 1) < 5
    ensures Weekday(n) == 3 ==> Weekday(n + 1) == 4
  {
  }

  lemma BetweenClosures(y: int, n: int)
    requires n in EarlyCloses(y)
    ensures n !in NyseHolidays(y)
  {
    hide DaysBeforeYear, Weekday, NthWeekday, LastWeekday, Easter, Observed, ObservedNewYear, ScheduledClosures;
    ClosuresAreListed(y);
    ClosuresInOrder(y);
    WeekdayRules(y, 11, 3, 4);
    ObservedMeans(Ordinal(Date(y, 7, 4)));
    ObservedMeans(Ordinal(Date(y, 6, 19)));
    ObservedMeans(Ordinal(Date(y, 12, 25)));
    var t := TenClosures(y);
    assert t[5] < n < t[6] || t[8] < n < t[9];
    assert n !in t;
  }

  // ---- trading days in a year ----------------------------------------------------------------

  /** How many days of (lo, hi] are weekdays outside `closed`. */
  ghost function OpenDays(lo: int, hi: int, closed: set<int>): nat
    requires lo <= hi
    decreases hi - lo
  {
    if lo == hi then 0 else OpenDays(lo, hi - 1, closed) + (if Weekday(hi) < 5 && hi !in closed then 1 else 0)
  }

  ghost function WeekdaysUpTo(n: int): int {
    5 * (n / 7) + (if n % 7 < 5 then n % 7 else 5)
  }

  ghost function WeekdayClosures(lo: int, hi: int, closed: set<int>): set<int> {
    set n | n in closed && lo < n <= hi && Weekday(n) < 5
  }

  lemma WeekdayStep(n: int)
    ensures WeekdaysUpTo(n) == WeekdaysUpTo(n - 1) + (if Weekday(n) < 5 then 1 else 0)
  {
  }

  lemma {:induction false} OpenDaysCount(lo: int, hi: int, closed: set<int>)
    requires lo <= hi
    ensures OpenDays(lo, hi, closed) == WeekdaysUpTo(hi) - WeekdaysUpTo(lo) - |WeekdayClosures(lo, hi, closed)|
    decreases hi - lo
  {
    hide Weekday, WeekdaysUpTo;
    if lo < hi {
      OpenDaysCount(lo, hi - 1, closed);
      WeekdayStep(hi);
      var before, now := WeekdayClosures(lo, hi - 1, closed), WeekdayClosures(lo, hi, closed);
      assert now == before + (if hi in closed && Weekday(hi) < 5 then {hi} else {});
    } else {
      assert WeekdayClosures(lo, hi, closed) == {};
    }
  }

  /** Weekdays in a year, from its first weekday and its length. */
  lemma WeekdaysInYear(j: int, leap: int)
    requires leap == 0 || leap == 1
    ensures var w := Weekday(j + 1);
            WeekdaysUpTo(j + 365 + leap) - WeekdaysUpTo(j)
            == 260 + (if w < 5 then 1 else 0) + (if leap == 1 && (w < 4 || w == 6) then 1 else 0)
  {
    var q, r := j / 7, j % 7;
    WholeWeeks(q + 52, r + 1 + leap);
    assert Weekday(j + 1) == r;
  }

  lemma WholeWeeks(n: int, x: int)
    ensures (7 * n + x) / 7 == n + x / 7 && (7 * n + x) % 7 == x % 7
  {
  }

  /** THE TRADING YEAR. From 2022 the scheduled rules leave 250, 251 or 252 trading days, fixed by
      leap year and the weekday of 1 January; the ad-hoc closure of 9 January 2025 costs one more. */
  lemma TradingDaysInYear(y: int)
    requires y >= 2022
    ensures DaysBeforeYear(y) <= DaysBeforeYear(y + 1)
    ensures var first := Weekday(DaysBeforeYear(y) + 1);
            OpenDays(DaysBeforeYear(y), DaysBeforeYear(y + 1), ScheduledClosures(y))
            == if Leap(y) then (if first < 4 then 252 else 251) else (if first == 6 then 250 else 251)
    ensures OpenDays(DaysBeforeYear(y), DaysBeforeYear(y + 1), NyseHolidays(y))
            == OpenDays(DaysBeforeYear(y), DaysBeforeYear(y + 1), ScheduledClosures(y)) - (if y == 2025 then 1 else 0)
  {
    hide Weekday, NthWeekday, LastWeekday, Easter, Observed, ObservedNewYear, DaysBeforeYear, ScheduledClosures,
         TenClosures,
      WeekdaysUpTo, OpenDays;
    var lo, hi := DaysBeforeYear(y), DaysBeforeYear(y + 1);
    YearLength(y);
    WeekdaysInYear(lo, LeapDay(y));
    OpenDaysCount(lo, hi, ScheduledClosures(y));
    WeekdayClosuresOfYear(y);
    OpenDaysCount(lo, hi, NyseHolidays(y));
    AdHocDay(y);
  }

  /** All ten closures fall on weekdays, but for a New Year's Day left on its Saturday. */
  lemma WeekdayClosuresOfYear(y: int)
    requires y >= 2022
    ensures |WeekdayClosures(DaysBeforeYear(y), DaysBeforeYear(y + 1), ScheduledClosures(y))|
            == if Weekday(DaysBeforeYear(y) + 1) == 5 then 9 else 10
  {
    hide Weekday, NthWeekday, LastWeekday, Easter, Observed, ObservedNewYear, DaysBeforeYear, ScheduledClosures,
         TenClosures;
    ClosuresAreListed(y);
    ClosuresInOrder(y);
    ClosuresOfYear(y);
    var t := TenClosures(y);
    var all := ScheduledClosures(y);
    var weekdays := WeekdayClosures(DaysBeforeYear(y), DaysBeforeYear(y + 1), all);
    assert t[0] in all;
    forall n | n in all ensures n in NyseHolidays(y) && (n in weekdays || n == t[0]) {
      var i :| 0 <= i < |t| && t[i] == n;
    }
    assert weekdays == if Weekday(t[0]) < 5 then all else all - {t[0]};
  }

  /** 9 January 2025 was a Thursday and no scheduled closure. */
  lemma AdHocDay(y: int)
    ensures var lo, hi := DaysBeforeYear(y), DaysBeforeYear(y + 1);
            |WeekdayClosures(lo, hi, NyseHolidays(y))|
            == |WeekdayClosures(lo, hi, ScheduledClosures(y))| + (if y == 2025 then 1 else 0)
  {
    hide NthWeekday, LastWeekday, Easter, Observed, ObservedNewYear, ScheduledClosures, TenClosures;
    var lo, hi := DaysBeforeYear(y), DaysBeforeYear(y + 1);
    var day := Ordinal(Date(2025, 1, 9));
    var extra: set<int> := if y == 2025 then {day} else {};
    assert (set d | d in AdHocClosures() && d.year == y :: Ordinal(d)) == extra by {
      if y == 2025 { assert Date(2025, 1, 9) in AdHocClosures(); }
    }
    if y == 2025 {
      assert lo < day <= hi && Weekday(day) == 3;
      AdHocIsNew();
    }
    hide DaysBeforeYear, Ordinal, Weekday, AdHocClosures;
    OneMoreClosure(lo, hi, ScheduledClosures(y), extra);
  }

  /** A weekday in range that is not closed already is one closure more. */
  lemma OneMoreClosure(lo: int, hi: int, closed: set<int>, extra: set<int>)
    requires forall n :: n in extra ==> lo < n <= hi && Weekday(n) < 5 && n !in closed
    ensures |WeekdayClosures(lo, hi, closed + extra)| == |WeekdayClosures(lo, hi, closed)| + |extra|
  {
    hide Weekday;
    assert WeekdayClosures(lo, hi, closed + extra) == WeekdayClosures(lo, hi, closed) + extra;
  }

  lemma AdHocIsNew()
    ensures Ordinal(Date(2025, 1, 9)) !in ScheduledClosures(2025)
  {
    hide NthWeekday, LastWeekday, Easter, Observed, ObservedNewYear, ScheduledClosures;
    ClosuresAreListed(2025);
    ClosuresInOrder(2025);
    WeekdayRules(2025, 1, 0, 3);
    ObservedMeans(Ordinal(Date(2025, 1, 1)));
    var t := TenClosures(2025);
    assert t[0] < Ordinal(Date(2025, 1, 9)) < t[1];
    assert Ordinal(Date(2025, 1, 9)) !in t;
  }
}
