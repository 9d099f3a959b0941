/** The `calendar` command of db/load_reference_data.py: the day loop and its upsert. */
module CalendarLoader {
  import opened Wrappers
  import opened Calendar

  /** A market_calendar row: closed, or open from 09:30 to 16:00 or 13:00 Eastern. */
  datatype Session = Closed | Open(closeHour: int)

  const REGULAR_CLOSE := 16
  const EARLY_CLOSE := 13

  /** The per-date rule, for a day of year y. */
  function SessionOn(n: int, y: int): Session {
    if Weekday(n) >= 5 || n in NyseHolidays(y) then Closed
    else Open(if n in EarlyCloses(y) then EARLY_CLOSE else REGULAR_CLOSE)
  }

  lemma {:induction false} YearsInOrder(y: int, z: int)
    requires y <= z
    ensures DaysBeforeYear(y) + 365 * (z - y) <= DaysBeforeYear(z)
    decreases z - y
  {
    hide DaysBeforeYear;
    if y < z {
      YearLength(z - 1);
      YearsInOrder(y, z - 1);
    }
  }

  lemma OneYear(n: int, y: int, z: int)
    requires InYear(n, y) && InYear(n, z)
    ensures y == z
  {
    hide DaysBeforeYear;
    if y < z { YearsInOrder(y + 1, z); } else if z < y { YearsInOrder(z + 1, y); }
  }

  lemma DateInItsYear(d: Date)
    requires ValidDate(d)
    ensures InYear(Ordinal(d), d.year)
  {
    hide DaysBeforeYear;
    YearLength(d.year);
  }

  /** A day between two dates lies in a year between theirs. */
  lemma YearBetween(lo: Date, n: int, hi: Date, y: int)
    requires ValidDate(lo) && ValidDate(hi) && Ordinal(lo) <= n <= Ordinal(hi) && InYear(n, y)
    ensures lo.year <= y <= hi.year
  {
    hide DaysBeforeYear;
    DateInItsYear(lo);
    DateInItsYear(hi);
    if y < lo.year { YearsInOrder(y + 1, lo.year); }
    if hi.year < y { YearsInOrder(hi.year + 1, y); }
  }

  /** Which years' sets a day may come from: only its own. */
  ghost predicate UnionOf(union: set<int>, lo: int, hi: int, of: int -> set<int>) {
    forall n :: n in union <==> exists y :: lo <= y < hi && n in of(y)
  }

  /** Folding every year's closures (or early closes) into one set answers each day as that day's own
      year does. */
  lemma UnionAnswersPerYear(union: set<int>, lo: int, hi: int, of: int -> set<int>, n: int, y: int)
    requires UnionOf(union, lo, hi, of) && lo <= y < hi && InYear(n, y)
    requires forall z, m :: m in of(z) ==> InYear(m, z)
    ensures n in union <==> n in of(y)
  {
    if n in union {
      var z :| lo <= z < hi && n in of(z);
      OneYear(n, y, z);
    }
  }

  class MarketCalendar {
    var rows: map<int, Session>

    /** Returns the number of trading and closed days, or None when the range is backwards. */
    method Load(lo: Date, hi: Date) returns (counts: Option<(nat, nat)>)
      requires ValidDate(lo) && ValidDate(hi)
      modifies this
      ensures counts.None? <==> Ordinal(hi) < Ordinal(lo)
      ensures counts.None? ==> rows == old(rows)
      ensures counts.Some? ==> forall n :: n in rows <==> n in old(rows) || Ordinal(lo) <= n <= Ordinal(hi)
      ensures counts.Some? ==> forall n :: n in rows && !(Ordinal(lo) <= n <= Ordinal(hi)) ==> rows[n] == old(rows)[n]
      ensures counts.Some? ==>
                forall n, y :: Ordinal(lo) <= n <= Ordinal(hi) && InYear(n, y) ==> rows[n] == SessionOn(n, y)
      ensures counts.Some? ==> counts.value.0 + counts.value.1 == Ordinal(hi) - Ordinal(lo) + 1
      ensures counts.Some? && lo == Date(lo.year, 1, 1) && hi == Date(lo.year, 12, 31) ==>
                Ordinal(lo) - 1 <= Ordinal(hi)
                && counts.value.0 == OpenDays(Ordinal(lo) - 1, Ordinal(hi), NyseHolidays(lo.year))
    {
      hide DaysBeforeYear, NyseHolidays, EarlyCloses, Weekday;
      var first, last := Ordinal(lo), Ordinal(hi);
      if last < first { return None; }
      assert lo.year <= hi.year by {
        DateInItsYear(lo);
        YearBetween(lo, first, hi, lo.year);
      }
      var holidays: set<int>, early: set<int> := {}, {};
      for y := lo.year to hi.year + 1
        invariant rows == old(rows)
        invariant UnionOf(holidays, lo.year, y, NyseHolidays)
        invariant UnionOf(early, lo.year, y, EarlyCloses)
      {
        UnionGrows(holidays, lo.year, y, NyseHolidays);
        UnionGrows(early, lo.year, y, EarlyCloses);
        holidays := holidays + NyseHolidays(y);
        early := early + EarlyCloses(y);
      }
      var trading, closed, loaded: map<int, Session> := 0, 0, map[];
      var d := first;
      while d <= last
        invariant first <= d <= last + 1 && rows == old(rows)
        invariant forall n :: n in loaded <==> first <= n < d
        invariant forall n, y :: first <= n < d && InYear(n, y) ==> loaded[n] == SessionOn(n, y)
        invariant trading + closed == d - first
        invariant trading == OpenDays(first - 1, d - 1, holidays)
      {
        forall y | InYear(d, y)
          ensures (d in holidays <==> d in NyseHolidays(y)) && (d in early <==> d in EarlyCloses(y))
        {
          SameAsOwnYear(lo, hi, holidays, early, d, y);
        }
        if Weekday(d) < 5 && d !in holidays {
          loaded := loaded[d := Open(if d in early then EARLY_CLOSE else REGULAR_CLOSE)];
          trading := trading + 1;
        } else {
          loaded := loaded[d := Closed];
          closed := closed + 1;
        }
        d := d + 1;
      }
      rows := rows + loaded;
      if lo == Date(lo.year, 1, 1) && hi == Date(lo.year, 12, 31) {
        YearLength(lo.year);
        assert holidays == NyseHolidays(lo.year) by {
          forall n ensures n in holidays <==> n in NyseHolidays(lo.year) {
            if n in NyseHolidays(lo.year) { assert lo.year <= lo.year < hi.year + 1; }
          }
        }
      }
      return Some((trading, closed));
    }
  }

  lemma UnionGrows(union: set<int>, lo: int, y: int, of: int -> set<int>)
    requires lo <= y && UnionOf(union, lo, y, of)
    ensures UnionOf(union + of(y), lo, y + 1, of)
  {
    forall n ensures n in union + of(y) <==> exists z :: lo <= z < y + 1 && n in of(z) {
      if n in union {
        var z :| lo <= z < y && n in of(z);
        assert lo <= z < y + 1 && n in of(z);
      }
    }
  }

  lemma SameAsOwnYear(lo: Date, hi: Date, holidays: set<int>, early: set<int>, n: int, y: int)
    requires ValidDate(lo) && ValidDate(hi) && Ordinal(lo) <= n <= Ordinal(hi) && InYear(n, y)
    requires UnionOf(holidays, lo.year, hi.year + 1, NyseHolidays) && UnionOf(early, lo.year, hi.year + 1, EarlyCloses)
    ensures n in holidays <==> n in NyseHolidays(y)
    ensures n in early <==> n in EarlyCloses(y)
  {
    hide DaysBeforeYear, NyseHolidays, EarlyCloses, Weekday;
    YearBetween(lo, n, hi, y);
    forall z, m | m in NyseHolidays(z) ensures InYear(m, z) { ClosuresOfYear(z); }
    forall z, m | m in EarlyCloses(z) ensures InYear(m, z) { EarlyClosesTrade(z, m); }
    UnionAnswersPerYear(holidays, lo.year, hi.year + 1, NyseHolidays, n, y);
    UnionAnswersPerYear(early, lo.year, hi.year + 1, EarlyCloses, n, y);
  }
}
