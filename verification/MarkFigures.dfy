/** The figures a marking run of db/mark_portfolios.py writes and reports, told from prices, the ledger and the
    marks before it: values to the cent, returns to 8 decimals, each the nearest, ties to even. */
module MarkFigures {
  import opened Wrappers
  import opened Splits
  import opened Marking
  import opened MarkingRuns
  import V = Valuation

  /** q is a whole number of the `unit`-th parts, and none is nearer to y; of two, it is the even one. */
  ghost predicate Nearest(q: real, y: real, unit: real) {
    var n, error := q * unit, y * unit - q * unit;
    n == n.Floor as real && -0.5 <= error <= 0.5 && (error == 0.5 || error == -0.5 ==> n.Floor % 2 == 0)
  }

  lemma QuantizeMeans(x: real, places: nat, unit: real)
    requires Pow10(places) == unit
    ensures Nearest(Quantize(x, places), x, unit)
  {
    hide Pow10, Nearest;
    var scaled := x * Pow10(places);
    var n := HalfEven(scaled);
    assert Quantize(x, places) == n as real / Pow10(places);
    TimesBack(Quantize(x, places), Pow10(places), n);
    NearestIs(Quantize(x, places), x, Pow10(places), scaled, n);
  }

  function HalfEven(y: real): (n: int)
    ensures -0.5 <= y - n as real <= 0.5
    ensures y - n as real == 0.5 || y - n as real == -0.5 ==> n % 2 == 0
  {
    var below := y.Floor;
    var rest := y - below as real;
    if rest < 0.5 || (rest == 0.5 && below % 2 == 0) then below else below + 1
  }

  lemma NearestIs(q: real, y: real, unit: real, scaled: real, n: int)
    requires q * unit == n as real && y * unit == scaled
    requires -0.5 <= scaled - n as real <= 0.5
    requires scaled - n as real == 0.5 || scaled - n as real == -0.5 ==> n % 2 == 0
    ensures Nearest(q, y, unit)
  {
    WholeInt(q * unit, n);
  }

  /** THE QUOTE of a session: refused on a negative balance, a hole if a lot open then has no close, and
      otherwise equity and cash, to the nearest cent. */
  lemma QuoteMeans(b: V.Book, m: V.Market, day: int)
    ensures var cash := V.CashAt(b, m, day);
            match QuoteOf(b, m, day)
            case Refused => cash < 0.0
            case Hole => cash >= 0.0 && !V.Priced(b.lots, m, day)
            case Value(v) => cash >= 0.0 && V.Priced(b.lots, m, day)
                             && Nearest(v, V.Equity(b.lots, m, day) + cash, 100.0)
  {
    assert Pow10(1) == 10.0;
    QuantizeMeans(V.Equity(b.lots, m, day) + V.CashAt(b, m, day), CENTS, 100.0);
    hide Quantize, Nearest, V.CashAt, V.Equity, V.Priced;
  }

  /** The cumulative return of a mark worth `value`. */
  ghost predicate CumulativeIs(cumulative: real, value: real, base: real)
    requires base > 0.0
  {
    Nearest(cumulative, (value - base) / base, 100_000_000.0)
  }

  /** Its daily return: only after a session with a mark of positive value. */
  ghost predicate DailyIs(daily: Option<real>, value: real, before: Option<real>) {
    if before.Some? && before.value > 0.0
    then daily.Some? && Nearest(daily.value, (value - before.value) / before.value, 100_000_000.0)
    else daily == None
  }

  lemma HundredMillionIs()
    ensures Pow10(RETURN_PLACES) == 100_000_000.0
  {
    assert Pow10(2) == 100.0;
    assert Pow10(4) == 10_000.0;
    assert Pow10(6) == 1_000_000.0;
  }

  lemma RatioLess(value: real, base: real)
    requires base > 0.0
    ensures value / base - 1.0 == (value - base) / base
  {
    var q, w := value / base, (value - base) / base;
    assert q * base == value && w * base == value - base;
    Distribute(q, 1.0, base);
    SameQuotient(q - 1.0, w, base);
  }

  lemma CumulativeMeans(value: real, base: real)
    requires base > 0.0
    ensures CumulativeIs(CumulativeReturn(value, base), value, base)
  {
    hide Quantize, Nearest;
    ReturnIs(value, base);
  }

  lemma DailyMeans(value: real, before: Option<real>)
    ensures DailyIs(DailyReturn(value, before), value, before)
  {
    hide Quantize, Nearest;
    if before.Some? && before.value > 0.0 { ReturnIs(value, before.value); }
  }

  lemma ReturnIs(value: real, base: real)
    requires base > 0.0
    ensures Nearest(Quantize(value / base - 1.0, RETURN_PLACES), (value - base) / base, 100_000_000.0)
  {
    hide Quantize, Nearest, Pow10;
    HundredMillionIs();
    RatioLess(value, base);
    QuantizeMeans(value / base - 1.0, RETURN_PLACES, 100_000_000.0);
  }

  ghost function ValueAt(marks: Marks, cal: seq<int>, i: int): Option<real> {
    if 0 <= i < |cal| && cal[i] in marks then Some(marks[cal[i]].value) else None
  }

  /** ONE RUN over the sessions a to b. A mark that was there stays; a session without gains one exactly if it is
      in the window and can be priced; its value is the quote, its daily return follows from the mark that the
      session just before has afterwards, and its cumulative return from the base value. */
  lemma RunMeans(marks: Marks, after: Marks, cal: seq<int>, a: nat, b: nat, base: real, quote: int -> Quote, i: nat)
    requires base > 0.0 && MarkedBy(marks, after, cal, a, b, base, quote) && i < |cal|
    ensures cal[i] in marks ==> cal[i] in after && after[cal[i]] == marks[cal[i]]
    ensures cal[i] !in marks ==> (cal[i] in after <==> a <= i < b && quote(cal[i]).Value?)
    ensures cal[i] !in marks && cal[i] in after ==>
              var mark := after[cal[i]];
              && quote(cal[i]) == Value(mark.value) && CumulativeIs(mark.cumulative, mark.value, base)
              && DailyIs(mark.daily, mark.value, ValueAt(after, cal, i - 1))
  {
    SessionOf(marks, after, cal, a, b, base, quote, i);
    OnRecord(marks, after, cal, a, b, base, quote, i - 1);
    if cal[i] !in marks && cal[i] in after {
      CumulativeMeans(after[cal[i]].value, base);
      DailyMeans(after[cal[i]].value, ValueAt(after, cal, i - 1));
    }
    hide DailyReturn, CumulativeReturn, MarkedBy, CumulativeIs, DailyIs;
  }

  /** THE CUMULATIVE RETURNS of every mark, after any history of runs. */
  lemma {:induction false} HistoryFigures(tables: seq<Marks>, runs: seq<RunOf>, cal: seq<int>, base: real, d: int)
    requires base > 0.0 && History(tables, runs, cal, base) && d in tables[|runs|]
    ensures var mark := tables[|runs|][d];
            && d in cal && CumulativeIs(mark.cumulative, mark.value, base)
            && -0.000_000_005 * base <= mark.cumulative * base - (mark.value - base) <= 0.000_000_005 * base
    decreases |runs|
  {
    var n := |runs| - 1;
    hide CumulativeIs;
    if d in tables[n] {
      HistoryFigures(tables[..n + 1], runs[..n], cal, base, d);
      assert MarkedBy(tables[n], tables[n + 1], cal, runs[n].a, runs[n].b, base, runs[n].quote);
    } else {
      var i: nat :| i < |cal| && cal[i] == d;
      RunMeans(tables[n], tables[n + 1], cal, runs[n].a, runs[n].b, base, runs[n].quote, i);
    }
    var mark := tables[|runs|][d];
    WithinHalf(mark.cumulative, mark.value, base);
  }

  lemma WithinHalf(cumulative: real, value: real, base: real)
    requires base > 0.0 && CumulativeIs(cumulative, value, base)
    ensures -0.000_000_005 * base <= cumulative * base - (value - base) <= 0.000_000_005 * base
  {
    var y := (value - base) / base;
    var error := y * 100_000_000.0 - cumulative * 100_000_000.0;
    assert -0.5 <= error <= 0.5;
    hide Nearest;
    assert y * base == value - base;
    TimesBase(cumulative - y, 0.000_000_005, base);
    TimesBase(-0.000_000_005, cumulative - y, base);
    Distribute(cumulative, y, base);
  }

  lemma Distribute(x: real, y: real, base: real)
    ensures (x - y) * base == x * base - y * base
  {
  }

  lemma TimesBase(x: real, y: real, base: real)
    requires x <= y && base > 0.0
    ensures x * base <= y * base
  {
  }

  // ---- the reports -----------------------------------------------------------------------------

  /** The holes reported: the unmarked sessions that cannot be priced, in order. */
  lemma {:induction false} HolesMean(window: seq<int>, marks: Marks, quote: int -> Quote)
    ensures forall d :: d in HolesIn(window, marks, quote) <==> d in window && d !in marks && quote(d).Hole?
    ensures Increasing(window) ==> Increasing(HolesIn(window, marks, quote))
  {
    if window != [] {
      var n := |window| - 1;
      HolesMean(window[..n], marks, quote);
      assert window == window[..n] + [window[n]];
      if Increasing(window) { AppendIncreasing(HolesIn(window[..n], marks, quote), window); }
    }
  }

  predicate OffByMore(value: real, stored: real) {
    value > stored + 0.01 || value < stored - 0.01
  }

  /** The drift reported: the marked sessions that recomputation misses by more than a cent, in order. */
  lemma {:induction false} DriftMeans(window: seq<int>, marks: Marks, quote: int -> Quote)
    ensures forall d :: d in DriftIn(window, marks, quote)
                        <==> d in window && d in marks && quote(d).Value? && OffByMore(quote(d).value, marks[d].value)
    ensures Increasing(window) ==> Increasing(DriftIn(window, marks, quote))
  {
    if window != [] {
      var n := |window| - 1;
      DriftMeans(window[..n], marks, quote);
      assert window == window[..n] + [window[n]];
      if Increasing(window) { AppendIncreasing(DriftIn(window[..n], marks, quote), window); }
    }
  }

  ghost function MarkedIn(window: seq<int>, marks: Marks): set<int> {
    set d | d in window && d in marks
  }

  lemma MarkedStep(window: seq<int>, marks: Marks)
    requires window != [] && Increasing(window)
    ensures var n := |window| - 1;
            var before := MarkedIn(window[..n], marks);
            && window[n] !in before
            && MarkedIn(window, marks) == if window[n] in marks then before + {window[n]} else before
  {
    var n := |window| - 1;
    assert window == window[..n] + [window[n]];
  }

  /** The count of sessions that had their mark. */
  lemma {:induction false} ExistingMeans(window: seq<int>, marks: Marks)
    requires Increasing(window)
    ensures ExistingIn(window, marks) == |MarkedIn(window, marks)|
  {
    if window != [] {
      ExistingMeans(window[..|window| - 1], marks);
      MarkedStep(window, marks);
      hide MarkedIn;
    } else {
      assert MarkedIn(window, marks) == {};
    }
  }

  lemma AppendIncreasing(part: seq<int>, window: seq<int>)
    requires window != [] && Increasing(window) && Increasing(part)
    requires forall d :: d in part ==> d in window[..|window| - 1]
    ensures Increasing(part + [window[|window| - 1]])
  {
    forall i | 0 <= i < |part| ensures part[i] < window[|window| - 1] { assert part[i] in part; }
  }
}
