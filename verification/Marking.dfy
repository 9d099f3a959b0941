/** The marking run of db/mark_portfolios.py for one portfolio: an append-only table of marks over the
    trading sessions of the calendar. */
module Marking {
  import opened Wrappers
  import opened Splits
  import V = Valuation

  /** One session's valuation: the run is refused on a negative cash balance, a session with an
      unpriced lot is a hole. */
  datatype Quote = Refused | Hole | Value(value: real)

  datatype Mark = Mark(value: real, daily: Option<real>, cumulative: real)

  type Marks = map<int, Mark>

  // ---- rounding ------------------------------------------------------------------------------

  /** Decimal.quantize with ROUND_HALF_EVEN. */
  function Quantize(x: real, places: nat): real {
    var scaled := x * Pow10(places);
    var below := scaled.Floor;
    var rest := scaled - below as real;
    (if rest < 0.5 || (rest == 0.5 && below % 2 == 0) then below else below + 1) as real / Pow10(places)
  }

  const CENTS := 2
  const RETURN_PLACES := 8
  const DRIFT_TOLERANCE := 0.01

  function QuoteOf(b: V.Book, m: V.Market, day: int): Quote {
    var cash := V.CashAt(b, m, day);
    if cash < 0.0 then Refused
    else if V.Priced(b.lots, m, day) then Value(Quantize(V.Equity(b.lots, m, day) + cash, CENTS))
    else Hole
  }

  function DailyReturn(value: real, previous: Option<real>): Option<real> {
    if previous.Some? && previous.value > 0.0 then Some(Quantize(value / previous.value - 1.0, RETURN_PLACES)) else None
  }

  function CumulativeReturn(value: real, base: real): real
    requires base > 0.0
  {
    Quantize(value / base - 1.0, RETURN_PLACES)
  }

  // ---- what a run over cal[a..b] leaves ------------------------------------------------------

  ghost predicate Increasing(cal: seq<int>) {
    forall i, j :: 0 <= i < j < |cal| ==> cal[i] < cal[j]
  }

  /** The value on record for session i once the run over [a, b) is done. */
  ghost function ValueAfter(marks: Marks, cal: seq<int>, a: nat, b: nat, quote: int -> Quote, i: int): Option<real>
    requires a <= b <= |cal|
  {
    if !(0 <= i < |cal|) then None
    else if cal[i] in marks then Some(marks[cal[i]].value)
    else if a <= i < b && quote(cal[i]).Value? then Some(quote(cal[i]).value)
    else None
  }

  ghost function NewMark(marks: Marks, cal: seq<int>, a: nat, b: nat, base: real, quote: int -> Quote, i: nat): Mark
    requires a <= i < b <= |cal| && base > 0.0 && quote(cal[i]).Value?
  {
    var value := quote(cal[i]).value;
    Mark(value, DailyReturn(value, ValueAfter(marks, cal, a, b, quote, i - 1)), CumulativeReturn(value, base))
  }

  /** What the run leaves at session i: an existing mark as it was, a new one where the session is in
      the window and priced, and otherwise nothing. */
  ghost predicate SessionAfter(marks: Marks, after: Marks, cal: seq<int>, a: nat, b: nat, base: real,
                               quote: int -> Quote, i: nat)
    requires a <= b <= |cal| && base > 0.0 && i < |cal|
  {
    if cal[i] in marks then cal[i] in after && after[cal[i]] == marks[cal[i]]
    else if a <= i < b && quote(cal[i]).Value? then
      cal[i] in after && after[cal[i]] == NewMark(marks, cal, a, b, base, quote, i)
    else cal[i] !in after
  }

  /** Exactly the priced, unmarked sessions of the window gain a mark; nothing else changes. */
  ghost predicate MarkedBy(marks: Marks, after: Marks, cal: seq<int>, a: nat, b: nat, base: real, quote: int -> Quote)
    requires base > 0.0
  {
    && a <= b <= |cal|
    && (forall i :: 0 <= i < |cal| ==> SessionAfter(marks, after, cal, a, b, base, quote, i))
    && (forall d :: d in marks ==> d in after && after[d] == marks[d])
    && (forall d :: d in after ==> d in marks || d in cal)
  }

  datatype Outcome = Outcome(refused: bool, written: nat, existing: nat, holes: seq<int>, drift: seq<int>)

  /** A stored mark that recomputation misses by more than a cent. */
  predicate Drifts(mark: Mark, quote: Quote) {
    quote.Value? && !(-DRIFT_TOLERANCE <= quote.value - mark.value <= DRIFT_TOLERANCE)
  }

  /** The sessions reported as holes: unmarked, with an unpriced lot. */
  ghost function HolesIn(window: seq<int>, marks: Marks, quote: int -> Quote): seq<int> {
    if window == [] then []
    else
      var d := window[|window| - 1];
      HolesIn(window[..|window| - 1], marks, quote) + (if d !in marks && quote(d).Hole? then [d] else [])
  }

  /** The sessions reported as drifting from their stored mark. */
  ghost function DriftIn(window: seq<int>, marks: Marks, quote: int -> Quote): seq<int> {
    if window == [] then []
    else
      var d := window[|window| - 1];
      DriftIn(window[..|window| - 1], marks, quote) + (if d in marks && Drifts(marks[d], quote(d)) then [d] else [])
  }

  ghost function ExistingIn(window: seq<int>, marks: Marks): nat {
    if window == [] then 0
    else ExistingIn(window[..|window| - 1], marks) + (if window[|window| - 1] in marks then 1 else 0)
  }

  ghost predicate RowsSoFar(marks: Marks, rows: Marks, cal: seq<int>, a: nat, b: nat, base: real, quote: int -> Quote,
                            n: nat)
    requires a + n <= b <= |cal| && base > 0.0
  {
    && (forall d :: d in rows ==> d !in marks && exists i :: a <= i < a + n && cal[i] == d && quote(d).Value?)
    && (forall i :: a <= i < a + n && cal[i] !in marks && quote(cal[i]).Value? ==>
          cal[i] in rows && rows[cal[i]] == NewMark(marks, cal, a, b, base, quote, i))
  }

  lemma RowAdded(marks: Marks, rows: Marks, cal: seq<int>, a: nat, b: nat, base: real, quote: int -> Quote, n: nat)
    requires a + n < b <= |cal| && base > 0.0 && Increasing(cal)
    requires RowsSoFar(marks, rows, cal, a, b, base, quote, n)
    ensures var d := cal[a + n];
            d !in marks && quote(d).Value? ==>
              RowsSoFar(marks, rows[d := NewMark(marks, cal, a, b, base, quote, a + n)], cal, a, b, base, quote, n + 1)
    ensures var d := cal[a + n];
            d in marks || !quote(d).Value? ==> RowsSoFar(marks, rows, cal, a, b, base, quote, n + 1)
  {
    hide NewMark;
    forall i | a <= i < a + n ensures cal[i] != cal[a + n] {}
  }

  lemma RowsMark(marks: Marks, rows: Marks, cal: seq<int>, a: nat, b: nat, base: real, quote: int -> Quote)
    requires a <= b <= |cal| && base > 0.0 && Increasing(cal) && RowsSoFar(marks, rows, cal, a, b, base, quote, b - a)
    ensures MarkedBy(marks, marks + rows, cal, a, b, base, quote)
    ensures |marks + rows| == |marks| + |rows|
  {
    hide NewMark;
    assert marks.Keys !! rows.Keys by {
      forall d | d in rows ensures d !in marks {}
    }
    assert (marks + rows).Keys == marks.Keys + rows.Keys;
    assert |(marks + rows).Keys| == |marks.Keys| + |rows.Keys|;
    forall i | 0 <= i < |cal| ensures SessionAfter(marks, marks + rows, cal, a, b, base, quote, i) {
      if cal[i] in rows {
        var j := RowSession(marks, rows, cal, a, b, base, quote, cal[i]);
        SameSession(cal, i, j);
      }
    }
  }

  lemma RowSession(marks: Marks, rows: Marks, cal: seq<int>, a: nat, b: nat, base: real, quote: int -> Quote, d: int)
    returns (j: nat)
    requires a <= b <= |cal| && base > 0.0 && RowsSoFar(marks, rows, cal, a, b, base, quote, b - a) && d in rows
    ensures a <= j < b && cal[j] == d && quote(d).Value?
  {
    hide NewMark;
    assert exists i :: a <= i < a + (b - a) && cal[i] == d && quote(d).Value?;
    j :| a <= j < b && cal[j] == d && quote(d).Value?;
  }

  lemma SameSession(cal: seq<int>, i: nat, j: nat)
    requires Increasing(cal) && i < |cal| && j < |cal| && cal[i] == cal[j]
    ensures i == j
  {
  }

  class MarkTable {
    var marks: Marks

    constructor ()
      ensures marks == map[]
    {
      marks := map[];
    }

    /** Value one portfolio over window = cal[a..b], prior being the session before it. */
    method MarkPortfolio(window: seq<int>, prior: Option<int>, base: real, quote: int -> Quote,
                         ghost cal: seq<int>, ghost a: nat, ghost b: nat) returns (out: Outcome)
      requires base > 0.0 && Increasing(cal) && a <= b <= |cal| && window == cal[a..b]
      requires prior == if 0 < a then Some(cal[a - 1]) else None
      modifies this
      ensures out.refused <==> exists i :: 0 <= i < |window| && quote(window[i]).Refused?
      ensures out.refused ==> marks == old(marks)
      ensures !out.refused ==> MarkedBy(old(marks), marks, cal, a, b, base, quote)
      ensures !out.refused ==>
                && out.holes == HolesIn(window, old(marks), quote)
                && out.drift == DriftIn(window, old(marks), quote)
                && out.existing == ExistingIn(window, old(marks))
                && out.written == |marks| - |old(marks)|
    {
      hide DailyReturn, CumulativeReturn, Drifts, RowsSoFar, MarkedBy, SessionAfter, HolesIn, DriftIn, ExistingIn,
           Increasing;
      hide ValueAfter, NewMark;
      out := Outcome(false, 0, 0, [], []);
      var held := marks;
      var rows: Marks := map[];
      var previous: Option<real> := None;
      if prior.Some? && prior.value in held { previous := Some(held[prior.value].value); }
      var i := 0;
      NothingYet(held, cal, a, b, base, quote, window);
      ValueIs(held, cal, a, b, quote, a - 1);
      while i < |window|
        invariant 0 <= i <= |window| && marks == held == old(marks) && !out.refused
        invariant forall j :: 0 <= j < i ==> !quote(window[j]).Refused?
        invariant previous == ValueAfter(held, cal, a, b, quote, a + i - 1)
        invariant RowsSoFar(held, rows, cal, a, b, base, quote, i)
        invariant out.existing == ExistingIn(window[..i], held)
        invariant out.holes == HolesIn(window[..i], held, quote)
        invariant out.drift == DriftIn(window[..i], held, quote)
      {
        var d := window[i];
        assert d == cal[a + i];
        ReportsStep(window, held, quote, i);
        RowAdded(held, rows, cal, a, b, base, quote, i);
        ValueIs(held, cal, a, b, quote, a + i);
        if quote(d).Refused? {
          return out.(refused := true);
        }
        if d in held {
          if Drifts(held[d], quote(d)) { out := out.(drift := out.drift + [d]); }
          previous := Some(held[d].value);
          out := out.(existing := out.existing + 1);
        } else if quote(d).Hole? {
          out := out.(holes := out.holes + [d]);
          previous := None;
        } else {
          var value := quote(d).value;
          NewMarkIs(held, cal, a, b, base, quote, a + i, previous);
          rows := rows[d := Mark(value, DailyReturn(value, previous), CumulativeReturn(value, base))];
          previous := Some(value);
        }
        i := i + 1;
      }
      assert window[..i] == window;
      RowsMark(held, rows, cal, a, b, base, quote);
      marks := held + rows;
      out := out.(written := |rows|);
    }
  }

  lemma ValueIs(marks: Marks, cal: seq<int>, a: nat, b: nat, quote: int -> Quote, i: int)
    requires a <= b <= |cal| && i < b
    ensures i < a ==> ValueAfter(marks, cal, a, b, quote, i)
                      == if 0 <= i && cal[i] in marks then Some(marks[cal[i]].value) else None
    ensures a <= i ==> ValueAfter(marks, cal, a, b, quote, i)
                       == if cal[i] in marks then Some(marks[cal[i]].value)
                          else if quote(cal[i]).Value? then Some(quote(cal[i]).value) else None
  {
  }

  lemma NewMarkIs(marks: Marks, cal: seq<int>, a: nat, b: nat, base: real, quote: int -> Quote, i: nat,
                  previous: Option<real>)
    requires a <= i < b <= |cal| && base > 0.0 && quote(cal[i]).Value?
    requires previous == ValueAfter(marks, cal, a, b, quote, i - 1)
    ensures var value := quote(cal[i]).value;
            NewMark(marks, cal, a, b, base, quote, i)
            == Mark(value, DailyReturn(value, previous), CumulativeReturn(value, base))
  {
  }

  lemma NothingYet(marks: Marks, cal: seq<int>, a: nat, b: nat, base: real, quote: int -> Quote, window: seq<int>)
    requires a <= b <= |cal| && base > 0.0
    ensures RowsSoFar(marks, map[], cal, a, b, base, quote, 0)
    ensures HolesIn(window[..0], marks, quote) == [] == DriftIn(window[..0], marks, quote)
            && ExistingIn(window[..0], marks) == 0
  {
  }

  ghost function Appended(ds: seq<int>, d: int, on: bool): seq<int> {
    if on then ds + [d] else ds
  }

  lemma ReportsStep(window: seq<int>, marks: Marks, quote: int -> Quote, i: nat)
    requires i < |window|
    ensures var d := window[i];
            && HolesIn(window[..i + 1], marks, quote)
               == Appended(HolesIn(window[..i], marks, quote), d, d !in marks && quote(d).Hole?)
            && DriftIn(window[..i + 1], marks, quote)
               == Appended(DriftIn(window[..i], marks, quote), d, d in marks && Drifts(marks[d], quote(d)))
            && ExistingIn(window[..i + 1], marks) == ExistingIn(window[..i], marks) + (if d in marks then 1 else 0)
  {
    hide Drifts;
    assert window[..i + 1][..i] == window[..i];
  }

  predicate InWindow(d: int, start: int, end: int, inception: int, closed: Option<int>) {
    start <= d <= end && inception <= d && (closed.Some? ==> d <= closed.value)
  }

  /** The sessions of the requested range between inception and closure: always a contiguous stretch of
      the calendar, together with the session before it. */
  method Window(cal: seq<int>, start: int, end: int, inception: int, closed: Option<int>)
    returns (window: seq<int>, prior: Option<int>, ghost a: nat, ghost b: nat)
    requires Increasing(cal)
    ensures a <= b <= |cal| && window == cal[a..b]
    ensures forall d :: d in window
                        <==> d in cal && start <= d <= end && inception <= d && (closed.None? || d <= closed.value)
    ensures window != [] ==> prior == if 0 < a then Some(cal[a - 1]) else None
  {
    hide InWindow;
    window, prior, a, b := [], None, 0, 0;
    for i := 0 to |cal|
      invariant a <= b <= i && window == cal[a..b]
      invariant window != [] ==> prior == if 0 < a then Some(cal[a - 1]) else None
      invariant Stretch(cal, a, b, i, start, end, inception, closed)
    {
      var d := cal[i];
      StretchStep(cal, a, b, i, start, end, inception, closed);
      if InWindow(d, start, end, inception, closed) {
        if window == [] { prior := if 0 < i then Some(cal[i - 1]) else None; }
        window := window + [d];
        b := i + 1;
      } else if window == [] {
        a, b := i + 1, i + 1;
      }
    }
    WindowHas(cal, a, b, start, end, inception, closed);
  }

  lemma WindowHas(cal: seq<int>, a: nat, b: nat, start: int, end: int, inception: int, closed: Option<int>)
    requires Stretch(cal, a, b, |cal|, start, end, inception, closed)
    ensures forall d :: d in cal[a..b]
                        <==> d in cal && start <= d <= end && inception <= d && (closed.None? || d <= closed.value)
  {
    forall d ensures d in cal[a..b] <==> d in cal && InWindow(d, start, end, inception, closed) {
      if d in cal && InWindow(d, start, end, inception, closed) {
        var i :| 0 <= i < |cal| && cal[i] == d;
        assert cal[a..b][i - a] == d;
      }
    }
  }

  /** Of the first n sessions those from a up to b are in the window; none so far when a == b. */
  ghost predicate Stretch(cal: seq<int>, a: nat, b: nat, n: nat, start: int, end: int, inception: int,
                          closed: Option<int>)
  {
    && a <= b <= n <= |cal| && (a == b ==> a == n)
    && forall j :: 0 <= j < n ==> (a <= j < b <==> InWindow(cal[j], start, end, inception, closed))
  }

  /** The window is convex, so the stretch ends at the first session outside. */
  lemma StretchStep(cal: seq<int>, a: nat, b: nat, n: nat, start: int, end: int, inception: int,
                    closed: Option<int>)
    requires Increasing(cal) && n < |cal| && Stretch(cal, a, b, n, start, end, inception, closed)
    ensures InWindow(cal[n], start, end, inception, closed) ==>
              b == n && Stretch(cal, a, n + 1, n + 1, start, end, inception, closed)
    ensures !InWindow(cal[n], start, end, inception, closed) ==>
              var s := if a == b then n + 1 else a;
              var t := if a == b then n + 1 else b;
              Stretch(cal, s, t, n + 1, start, end, inception, closed)
  {
    assert forall j :: 0 <= j < n ==> cal[j] < cal[n];
    if b < n { assert cal[b - 1] < cal[n - 1] < cal[n]; }
  }
}
