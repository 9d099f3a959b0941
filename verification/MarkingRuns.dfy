/** What the marking runs of db/mark_portfolios.py promise over whole histories: resumed windows, re-runs,
    the return chain, and holes repaired later. */
module MarkingRuns {
  import opened Wrappers
  import opened Splits
  import opened Marking
  import V = Valuation

  /** A run has one result. */
  lemma MarkedOnce(marks: Marks, one: Marks, two: Marks, cal: seq<int>, a: nat, b: nat, base: real, quote: int -> Quote)
    requires base > 0.0 && MarkedBy(marks, one, cal, a, b, base, quote) && MarkedBy(marks, two, cal, a, b, base, quote)
    ensures one == two
  {
    hide NewMark;
    forall d ensures (d in one <==> d in two) && (d in one ==> one[d] == two[d]) {
      if (d in one || d in two) && d !in marks {
        var i :| 0 <= i < |cal| && cal[i] == d;
        assert SessionAfter(marks, one, cal, a, b, base, quote, i)
            && SessionAfter(marks, two, cal, a, b, base, quote, i);
      }
    }
  }

  /** Whether a session has a mark afterwards, and with what value. */
  lemma OnRecord(marks: Marks, after: Marks, cal: seq<int>, a: nat, b: nat, base: real, quote: int -> Quote, i: int)
    requires base > 0.0 && MarkedBy(marks, after, cal, a, b, base, quote) && i < |cal|
    ensures ValueAfter(marks, cal, a, b, quote, i)
            == if 0 <= i && cal[i] in after then Some(after[cal[i]].value) else None
  {
    if 0 <= i { assert SessionAfter(marks, after, cal, a, b, base, quote, i); }
  }

  lemma ValuesContinue(marks: Marks, mid: Marks, cal: seq<int>, a: nat, b: nat, c: nat, base: real,
                       quote: int -> Quote, i: int)
    requires base > 0.0 && b <= c <= |cal| && MarkedBy(marks, mid, cal, a, b, base, quote) && i < c
    ensures ValueAfter(mid, cal, b, c, quote, i) == ValueAfter(marks, cal, a, c, quote, i)
  {
    if 0 <= i { assert SessionAfter(marks, mid, cal, a, b, base, quote, i); }
  }

  /** Marking two contiguous windows in two runs leaves exactly the table one run leaves: the same
      values, daily and cumulative returns. */
  lemma ContiguousRuns(marks: Marks, mid: Marks, end: Marks, whole: Marks, cal: seq<int>, a: nat, b: nat, c: nat,
                       base: real, quote: int -> Quote)
    requires base > 0.0 && b <= c <= |cal|
    requires MarkedBy(marks, mid, cal, a, b, base, quote) && MarkedBy(mid, end, cal, b, c, base, quote)
    requires MarkedBy(marks, whole, cal, a, c, base, quote)
    ensures end == whole
  {
    forall i | 0 <= i < |cal| ensures SessionAfter(marks, end, cal, a, c, base, quote, i) {
      assert SessionAfter(marks, mid, cal, a, b, base, quote, i) && SessionAfter(mid, end, cal, b, c, base, quote, i);
      if i < c { ValuesContinue(marks, mid, cal, a, b, c, base, quote, i - 1); }
    }
    MarkedOnce(marks, end, whole, cal, a, c, base, quote);
  }

  /** Running a window again writes nothing. */
  lemma RerunWritesNothing(marks: Marks, once: Marks, twice: Marks, cal: seq<int>, a: nat, b: nat, base: real,
                           quote: int -> Quote)
    requires base > 0.0 && MarkedBy(marks, once, cal, a, b, base, quote)
             && MarkedBy(once, twice, cal, a, b, base, quote)
    ensures twice == once
  {
    hide NewMark;
    forall i | 0 <= i < |cal| ensures cal[i] in twice ==> cal[i] in once {
      assert SessionAfter(marks, once, cal, a, b, base, quote, i)
          && SessionAfter(once, twice, cal, a, b, base, quote, i);
    }
    forall d ensures (d in twice <==> d in once) && (d in once ==> twice[d] == once[d]) {
      if d in cal { var i :| 0 <= i < |cal| && cal[i] == d; }
    }
  }

  /** ... and reports the same holes and the same drift as the first time: none, if there was none. */
  lemma {:induction false} RerunReportsSame(marks: Marks, once: Marks, cal: seq<int>, a: nat, b: nat, n: nat,
                                            base: real, quote: int -> Quote)
    requires base > 0.0 && MarkedBy(marks, once, cal, a, b, base, quote) && a + n <= b
    ensures HolesIn(cal[a..a + n], once, quote) == HolesIn(cal[a..a + n], marks, quote)
    ensures DriftIn(cal[a..a + n], once, quote) == DriftIn(cal[a..a + n], marks, quote)
  {
    hide Drifts;
    if n > 0 {
      RerunReportsSame(marks, once, cal, a, b, n - 1, base, quote);
      assert cal[a..a + n][..n - 1] == cal[a..a + n - 1];
      var i := a + n - 1;
      assert SessionAfter(marks, once, cal, a, b, base, quote, i);
      if cal[i] in once { NoDrift(once[cal[i]], quote(cal[i])); }
    }
  }

  lemma NoDrift(mark: Mark, quote: Quote)
    ensures quote.Value? && mark.value == quote.value ==> !Drifts(mark, quote)
  {
  }

  // ---- the return chain ----------------------------------------------------------------------

  /** Every non-null daily return is the rounded ratio to the mark of the session just before. */
  ghost predicate Chained(marks: Marks, cal: seq<int>) {
    forall i :: 0 <= i < |cal| ==> ChainedAt(marks, cal, i)
  }

  ghost predicate ChainedAt(marks: Marks, cal: seq<int>, i: nat) {
    i < |cal| && cal[i] in marks && marks[cal[i]].daily.Some? ==>
      && 0 < i && cal[i - 1] in marks && marks[cal[i - 1]].value > 0.0
      && marks[cal[i]].daily.value == Quantize(marks[cal[i]].value / marks[cal[i - 1]].value - 1.0, RETURN_PLACES)
  }

  lemma SessionKeepsChain(marks: Marks, after: Marks, cal: seq<int>, a: nat, b: nat, base: real, quote: int -> Quote,
                          i: nat)
    requires base > 0.0 && ChainedAt(marks, cal, i) && MarkedBy(marks, after, cal, a, b, base, quote) && i < |cal|
    ensures ChainedAt(after, cal, i)
  {
    hide Quantize;
    assert SessionAfter(marks, after, cal, a, b, base, quote, i);
    if i > 0 {
      assert SessionAfter(marks, after, cal, a, b, base, quote, i - 1);
      OnRecord(marks, after, cal, a, b, base, quote, i - 1);
    }
  }

  lemma RunKeepsChain(marks: Marks, after: Marks, cal: seq<int>, a: nat, b: nat, base: real, quote: int -> Quote)
    requires base > 0.0 && Chained(marks, cal) && MarkedBy(marks, after, cal, a, b, base, quote)
    ensures Chained(after, cal)
  {
    hide MarkedBy, ChainedAt;
    forall i | 0 <= i < |cal| ensures ChainedAt(after, cal, i) {
      SessionKeepsChain(marks, after, cal, a, b, base, quote, i);
    }
  }

  /** One run: its window and the prices it saw. */
  datatype RunOf = RunOf(a: nat, b: nat, quote: int -> Quote)

  /** A history of runs by a single writer, starting from an empty table. */
  ghost predicate History(tables: seq<Marks>, runs: seq<RunOf>, cal: seq<int>, base: real)
    requires base > 0.0
  {
    && |tables| == |runs| + 1 && tables[0] == map[]
    && forall k :: 0 <= k < |runs| ==>
         MarkedBy(tables[k], tables[k + 1], cal, runs[k].a, runs[k].b, base, runs[k].quote)
  }

  /** So after any sequence of runs, over any windows and whatever prices each of them saw, the return
      chain holds. */
  lemma {:induction false} HistoryIsChained(tables: seq<Marks>, runs: seq<RunOf>, cal: seq<int>, base: real)
    requires base > 0.0 && History(tables, runs, cal, base)
    ensures Chained(tables[|runs|], cal)
    decreases |runs|
  {
    if runs != [] {
      var n := |runs| - 1;
      HistoryIsChained(tables[..n + 1], runs[..n], cal, base);
      RunKeepsChain(tables[n], tables[n + 1], cal, runs[n].a, runs[n].b, base, runs[n].quote);
    }
  }

  // ---- a hole repaired later -----------------------------------------------------------------

  /** In the first run's window the later prices only fill holes. */
  ghost predicate Repairs(cal: seq<int>, a: nat, b: nat, first: int -> Quote, second: int -> Quote)
    requires a <= b <= |cal|
  {
    forall i :: a <= i < b ==> RepairsAt(first(cal[i]), second(cal[i]))
  }

  predicate RepairsAt(first: Quote, second: Quote) {
    first == second || (first.Hole? && second.Value?)
  }

  /** Every session the first run met as an unmarked hole and that is priced now lies in the second window. */
  ghost predicate Covered(marks: Marks, cal: seq<int>, a: nat, b: nat, c: nat, d: nat, before: int -> Quote,
                          after: int -> Quote)
    requires a <= b <= |cal|
  {
    forall i :: a <= i < b && cal[i] !in marks && before(cal[i]).Hole? && after(cal[i]).Value? ==> c <= i < d
  }

  /** Session i was marked by the first run when the session just before it, unmarked, was a hole or not yet
      in the window. */
  ghost predicate Early(marks: Marks, cal: seq<int>, a: nat, b: nat, lo: nat, before: int -> Quote, i: nat)
    requires a <= b <= |cal|
  {
    && a <= i < b && cal[i] !in marks && before(cal[i]).Value?
    && lo < i && cal[i - 1] !in marks && (i - 1 < a || before(cal[i - 1]).Hole?)
  }

  function Min(a: nat, b: nat): nat {
    if a <= b then a else b
  }

  function Max(a: nat, b: nat): nat {
    if a >= b then a else b
  }

  /** Mark one window, repair missing bars, mark a window that overlaps or adjoins it: the table converges
      to the one a single run over both windows would have written, in every session marked, value and
      cumulative return, if and only if the second window covers the repaired sessions. Daily returns then
      differ exactly at sessions marked too early, which keep a null. */
  lemma RepairedHole(marks: Marks, first: Marks, second: Marks, single: Marks, cal: seq<int>,
                     a: nat, b: nat, c: nat, d: nat, base: real, before: int -> Quote, after: int -> Quote)
    requires base > 0.0 && a <= b <= |cal| && c <= b && a <= d
    requires MarkedBy(marks, first, cal, a, b, base, before) && MarkedBy(first, second, cal, c, d, base, after)
    requires MarkedBy(marks, single, cal, Min(a, c), Max(b, d), base, after) && Repairs(cal, a, b, before, after)
    ensures second.Keys == single.Keys <==> Covered(marks, cal, a, b, c, d, before, after)
    ensures forall x :: x in second && x in single ==>
              second[x].value == single[x].value && second[x].cumulative == single[x].cumulative
    ensures Covered(marks, cal, a, b, c, d, before, after) ==>
              forall i :: 0 <= i < |cal| && cal[i] in single ==>
                second[cal[i]].daily
                == if Early(marks, cal, a, b, Min(a, c), before, i) then None else single[cal[i]].daily
  {
    hide MarkedBy, Early, Repairs;
    forall i | 0 <= i < |cal|
      ensures cal[i] in second ==> cal[i] in single
      ensures cal[i] in single && cal[i] !in second <==>
                a <= i < b && !(c <= i < d) && cal[i] !in marks && before(cal[i]).Hole? && after(cal[i]).Value?
      ensures cal[i] in second ==> second[cal[i]].value == single[cal[i]].value
                                   && second[cal[i]].cumulative == single[cal[i]].cumulative
    {
      RepairedSession(marks, first, second, single, cal, a, b, c, d, base, before, after, i);
    }
    OnlySessions(marks, first, second, single, cal, a, b, c, d, base, before, after);
    if Covered(marks, cal, a, b, c, d, before, after) {
      forall i | 0 <= i < |cal| && cal[i] in single
        ensures second[cal[i]].daily
                == if Early(marks, cal, a, b, Min(a, c), before, i) then None else single[cal[i]].daily
      {
        RepairedDaily(marks, first, second, single, cal, a, b, c, d, base, before, after, i);
      }
      forall x ensures x in second <==> x in single {
        if x in cal { var i :| 0 <= i < |cal| && cal[i] == x; }
      }
    } else {
      var i :| a <= i < b && cal[i] !in marks && before(cal[i]).Hole? && after(cal[i]).Value? && !(c <= i < d);
      assert cal[i] in single.Keys && cal[i] !in second.Keys;
    }
  }

  /** Outside the calendar nothing changes. */
  lemma OnlySessions(marks: Marks, first: Marks, second: Marks, single: Marks, cal: seq<int>,
                     a: nat, b: nat, c: nat, d: nat, base: real, before: int -> Quote, after: int -> Quote)
    requires base > 0.0
    requires MarkedBy(marks, first, cal, a, b, base, before) && MarkedBy(first, second, cal, c, d, base, after)
    requires MarkedBy(marks, single, cal, Min(a, c), Max(b, d), base, after)
    ensures forall x :: x !in cal ==> (x in second <==> x in marks) && (x in single <==> x in marks)
                                      && (x in marks ==> second[x] == marks[x] == single[x])
  {
  }

  lemma RepairedSession(marks: Marks, first: Marks, second: Marks, single: Marks, cal: seq<int>,
                        a: nat, b: nat, c: nat, d: nat, base: real, before: int -> Quote, after: int -> Quote, i: nat)
    requires base > 0.0 && a <= b <= |cal| && c <= b && a <= d && i < |cal|
    requires MarkedBy(marks, first, cal, a, b, base, before) && MarkedBy(first, second, cal, c, d, base, after)
    requires MarkedBy(marks, single, cal, Min(a, c), Max(b, d), base, after) && Repairs(cal, a, b, before, after)
    ensures cal[i] in second ==> cal[i] in single
    ensures cal[i] in single && cal[i] !in second <==>
              a <= i < b && !(c <= i < d) && cal[i] !in marks && before(cal[i]).Hole? && after(cal[i]).Value?
    ensures cal[i] in second ==> second[cal[i]].value == single[cal[i]].value
                                 && second[cal[i]].cumulative == single[cal[i]].cumulative
  {
    hide DailyReturn, CumulativeReturn, Quantize, MarkedBy;
    SessionOf(marks, first, cal, a, b, base, before, i);
    SessionOf(first, second, cal, c, d, base, after, i);
    SessionOf(marks, single, cal, Min(a, c), Max(b, d), base, after, i);
    if a <= i < b { assert RepairsAt(before(cal[i]), after(cal[i])); }
  }

  lemma RepairedDaily(marks: Marks, first: Marks, second: Marks, single: Marks, cal: seq<int>,
                      a: nat, b: nat, c: nat, d: nat, base: real, before: int -> Quote, after: int -> Quote, i: nat)
    requires base > 0.0 && a <= b <= |cal| && c <= b && a <= d && i < |cal| && cal[i] in single && cal[i] in second
    requires MarkedBy(marks, first, cal, a, b, base, before) && MarkedBy(first, second, cal, c, d, base, after)
    requires MarkedBy(marks, single, cal, Min(a, c), Max(b, d), base, after) && Repairs(cal, a, b, before, after)
    requires Covered(marks, cal, a, b, c, d, before, after)
    ensures second[cal[i]].daily == if Early(marks, cal, a, b, Min(a, c), before, i) then None else single[cal[i]].daily
  {
    hide DailyReturn, CumulativeReturn, Quantize, MarkedBy;
    SessionOf(marks, first, cal, a, b, base, before, i);
    SessionOf(first, second, cal, c, d, base, after, i);
    SessionOf(marks, single, cal, Min(a, c), Max(b, d), base, after, i);
    if a <= i < b { assert RepairsAt(before(cal[i]), after(cal[i])); }
    if i > 0 {
      SessionOf(marks, first, cal, a, b, base, before, i - 1);
      if a <= i - 1 < b { assert RepairsAt(before(cal[i - 1]), after(cal[i - 1])); }
    }
    if after(cal[i]).Value? { NoPrevious(after(cal[i]).value); }
  }

  lemma SessionOf(marks: Marks, after: Marks, cal: seq<int>, a: nat, b: nat, base: real, quote: int -> Quote, i: nat)
    requires base > 0.0 && MarkedBy(marks, after, cal, a, b, base, quote) && i < |cal|
    ensures a <= b <= |cal| && SessionAfter(marks, after, cal, a, b, base, quote, i)
  {
  }

  lemma NoPrevious(value: real)
    ensures DailyReturn(value, None) == None
  {
  }

  /** A split recorded in between, with prices and the ledger restated for it, changes no session's
      quote: no mark, no hole, no refusal; provided the book's factors take the split. */
  lemma SplitMovesNoQuote(b: V.Book, m: V.Market, security: nat, e: int, r: real, day: int)
    requires r > 0.0 && e !in SplitsOf(m.actions, security) && forall i :: 0 <= i < |b.lots| ==> V.Ordered(b.lots[i])
    requires V.BookScales(b.lots, m, security, e, r, day)
    ensures QuoteOf(b.(lots := V.RestatedLots(b.lots, security, e, r)), V.RestatedMarket(m, security, e, r), day)
            == QuoteOf(b, m, day)
  {
    hide Quantize, V.CashAt, V.Equity, V.Priced, V.BookScales;
    V.SplitMovesNoMark(b, m, security, e, r, day);
  }

  /** No session of any book, with any closes, is quoted differently. */
  ghost predicate MovesNoQuote(actions: Actions, security: nat, e: int, r: real)
    requires r > 0.0
  {
    forall b: V.Book, closes, day :: (forall i :: 0 <= i < |b.lots| ==> V.Ordered(b.lots[i])) ==>
      QuoteStays(b, V.Market(closes, actions), security, e, r, day)
  }

  ghost predicate QuoteStays(b: V.Book, m: V.Market, security: nat, e: int, r: real, day: int)
    requires r > 0.0
  {
    QuoteOf(b.(lots := V.RestatedLots(b.lots, security, e, r)), V.RestatedMarket(m, security, e, r), day)
        == QuoteOf(b, m, day)
  }

  /** MARKS AND SPLITS. The split moves no quantized mark of any book if and only if every stored factor
      across its day takes it without a rounding of its own: however small the error, some position is
      large enough to show it in the cents. */
  lemma MovesNoQuoteIff(actions: Actions, security: nat, e: int, r: real)
    requires r > 0.0 && e !in SplitsOf(actions, security)
    ensures MovesNoQuote(actions, security, e, r) <==> V.AllScale(SplitsOf(actions, security), e, r)
  {
    hide V.Scales, QuoteStays;
    var splits := SplitsOf(actions, security);
    if V.AllScale(splits, e, r) {
      forall b: V.Book, closes, day | forall i :: 0 <= i < |b.lots| ==> V.Ordered(b.lots[i])
        ensures QuoteStays(b, V.Market(closes, actions), security, e, r, day)
      {
        QuoteStaysWhere(b, V.Market(closes, actions), security, e, r, day);
      }
    }
    if MovesNoQuote(actions, security, e, r) {
      forall a, c | a < e <= c ensures V.Scales(splits, e, r, a, c) {
        if !V.Scales(splits, e, r, a, c) { LargePosition(actions, security, e, r, a, c); }
      }
    }
  }

  lemma QuoteStaysWhere(b: V.Book, m: V.Market, security: nat, e: int, r: real, day: int)
    requires r > 0.0 && e !in SplitsOf(m.actions, security) && forall i :: 0 <= i < |b.lots| ==> V.Ordered(b.lots[i])
    requires V.AllScale(SplitsOf(m.actions, security), e, r)
    ensures QuoteStays(b, m, security, e, r, day)
  {
    hide V.Scales;
    SplitMovesNoQuote(b, m, security, e, r, day);
  }

  /** A position whose mark moves by a dollar. */
  lemma LargePosition(actions: Actions, security: nat, e: int, r: real, a: int, c: int)
    requires r > 0.0 && a < e <= c && !V.Scales(SplitsOf(actions, security), e, r, a, c)
    ensures !MovesNoQuote(actions, security, e, r)
  {
    hide Factor, Quantize, QuoteStays;
    var splits := SplitsOf(actions, security);
    var f, g := Factor(splits, a, c), Factor(splits[e := r], a, c);
    var y := NotScaled(f, g, r);
    hide V.Scales;
    var n := BigEnough(f, y);
    PositionMoves(actions, security, e, r, a, c, n, f, g, y);
    var b := V.Book(0.0, [V.Lot(security, a, n, 1.0, None)]);
    assert V.Ordered(b.lots[0]);
    assert !QuoteStays(b, V.Market(map[V.Bar(security, c) := 1.0], actions), security, e, r, c);
  }

  lemma NotScaled(f: real, g: real, r: real) returns (y: real)
    requires r > 0.0 && g != f * r
    ensures y == g * (1.0 / r) && y != f
  {
    V.Unscaled(f, g, r);
    y := g * (1.0 / r);
  }

  lemma BigEnough(x: real, y: real) returns (n: real)
    requires x != y
    ensures n > 0.0 && Quantize(n * x, CENTS) != Quantize(n * y, CENTS)
  {
    var d := if y > x then y - x else x - y;
    n := 1.0 / d;
    assert n * d == 1.0;
    assert n > 0.0;
    assert n * (y - x) == n * y - n * x;
    Apart(n * x, n * y);
  }

  /** n shares held across the split, at a close of 1. */
  lemma PositionMoves(actions: Actions, security: nat, e: int, r: real, a: int, c: int, n: real, f: real, g: real,
                      y: real)
    requires r > 0.0 && a < e <= c && y == g * (1.0 / r)
    requires f == Factor(SplitsOf(actions, security), a, c) && g == Factor(SplitsOf(actions, security)[e := r], a, c)
    requires Quantize(n * f, CENTS) != Quantize(n * y, CENTS)
    ensures var b := V.Book(0.0, [V.Lot(security, a, n, 1.0, None)]);
            !QuoteStays(b, V.Market(map[V.Bar(security, c) := 1.0], actions), security, e, r, c)
  {
    hide Factor, Quantize, QuoteOf;
    var l, m := V.Lot(security, a, n, 1.0, None), V.Market(map[V.Bar(security, c) := 1.0], actions);
    var m' := V.RestatedMarket(m, security, e, r);
    assert V.RestatedLots([l], security, e, r) == [l];
    PositionQuote(m, security, a, c, n, f, 1.0, f);
    PositionQuote(m', security, a, c, n, g, 1.0 / r, y);
  }

  lemma PositionQuote(m: V.Market, security: nat, a: int, c: int, n: real, f: real, price: real, y: real)
    requires a <= c && V.Bar(security, c) in m.closes && m.closes[V.Bar(security, c)] == price
    requires f == Factor(SplitsOf(m.actions, security), a, c) && y == f * price
    ensures QuoteOf(V.Book(0.0, [V.Lot(security, a, n, 1.0, None)]), m, c) == Value(Quantize(n * y, CENTS))
  {
    hide Factor, Quantize;
    var l := V.Lot(security, a, n, 1.0, None);
    OneOpenLot(l, m, c);
    hide QuoteOf;
    assert V.OpenValue(l, m, c) == n * f * price;
    Regrouped(n, f, price, y);
    assert V.OpenValue(l, m, c) == n * y;
  }

  lemma Regrouped(x: real, y: real, z: real, yz: real)
    requires yz == y * z
    ensures x * y * z == x * yz
  {
  }

  lemma Apart(x: real, y: real)
    requires y - x >= 1.0 || x - y >= 1.0
    ensures Quantize(x, CENTS) != Quantize(y, CENTS)
  {
    Near(x);
    Near(y);
  }

  /** Within half a cent. */
  lemma Near(x: real)
    ensures -0.5 <= Quantize(x, CENTS) * 100.0 - x * 100.0 <= 0.5
  {
    var below := (x * 100.0).Floor;
    ToCents(x, below);
    hide Quantize;
    var rest := x * 100.0 - below as real;
    var n := if rest < 0.5 || (rest == 0.5 && below % 2 == 0) then below else below + 1;
    assert n as real / 100.0 * 100.0 == n as real;
  }

  /** A book whose mark does move: a million shares across two 1-for-3 reverse splits recorded with 8
      decimals, of which the second is recorded later. The mark goes up by 11 cents. */
  lemma SplitMovesMark()
    ensures var b := V.Book(0.0, [V.Lot(0, 0, 1_000_000.0, 1.0, None)]);
            var m := V.Market(map[V.Bar(0, 2) := 333_333.33], map[0 := map[1 := 0.33333333]]);
            && QuoteOf(b, m, 2) == Value(111_111_108_888.89)
            && QuoteOf(b.(lots := V.RestatedLots(b.lots, 0, 2, 0.33333333)), V.RestatedMarket(m, 0, 2, 0.33333333), 2)
               == Value(111_111_108_889.0)
  {
    var l := V.Lot(0, 0, 1_000_000.0, 1.0, None);
    var b := V.Book(0.0, [l]);
    var m := V.Market(map[V.Bar(0, 2) := 333_333.33], map[0 := map[1 := 0.33333333]]);
    var m' := V.RestatedMarket(m, 0, 2, 0.33333333);
    ThirdsRounded();
    assert V.RestatedLots([l], 0, 2, 0.33333333) == [l];
    assert SplitsOf(m'.actions, 0) == map[1 := 0.33333333, 2 := 0.33333333];
    assert V.OpenValue(l, m, 2) == 111_111_108_888.8889 && V.OpenValue(l, m', 2) == 111_111_108_889.0;
    OneOpenLot(l, m, 2);
    OneOpenLot(l, m', 2);
    hide V.OpenValue, V.RestatedMarket, V.RestatedLots;
    ToCents(111_111_108_888.8889, 11_111_110_888_888);
    ToCents(111_111_108_889.0, 11_111_110_888_900);
  }

  lemma OneOpenLot(l: V.Lot, m: V.Market, day: int)
    requires l.exit == None && l.entry <= day && V.Bar(l.security, day) in m.closes
    ensures QuoteOf(V.Book(0.0, [l]), m, day) == Value(Quantize(V.OpenValue(l, m, day), CENTS))
  {
    hide Quantize, V.OpenValue;
    assert [l][..0] == [];
    V.EquityOfOne(l, m, day);
    assert V.EntriesAfter([l], day) == 0.0 && V.ExitsAfter([l], m, day) == 0.0;
  }

  lemma ToCents(x: real, below: int)
    requires below as real <= x * 100.0 < (below + 1) as real
    ensures var rest := x * 100.0 - below as real;
            Quantize(x, CENTS)
            == (if rest < 0.5 || (rest == 0.5 && below % 2 == 0) then below else below + 1) as real / 100.0
  {
    var p := Pow10(CENTS);
    assert p == 100.0 by { assert Pow10(1) == 10.0; }
    assert (x * 100.0).Floor == below;
    assert x * p == x * 100.0;
    assert (x * p).Floor == below;
  }
}
