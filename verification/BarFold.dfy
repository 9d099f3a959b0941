/** Folding a day file of minute rows into one bar a symbol: DayBar and aggregate_file of
    db/load_daily_bars.py. Prices carry the source text with the number it stands for; a text may also say
    infinity, or that it is no number. */
module BarFold {
  /** What float() makes of a text. */
  datatype Number = Finite(x: real) | Infinite(positive: bool) | NaN

  /** a < b; false whenever either is no number. */
  predicate Below(a: Number, b: Number) {
    match a
    case NaN => false
    case Infinite(p) => !p && !b.NaN? && b != a
    case Finite(x) => (b.Finite? && x < b.x) || b == Infinite(true)
  }

  lemma BelowOrders(a: Number, b: Number, c: Number)
    ensures Below(a, b) && Below(b, c) ==> Below(a, c)
    ensures !a.NaN? && !b.NaN? ==> Below(a, b) || Below(b, a) || a == b
    ensures !(Below(a, b) && Below(b, a))
  {
  }

  datatype Quote = Quote(text: int, num: Number)

  datatype Line = Line(symbol: int, ns: int, open: int, close: int, high: Quote, low: Quote, volume: int)

  /** A row of the file: not eight columns or no time stamp; or parsed, with what its symbol and its other
      numbers turned out to be. */
  datatype Row = Unreadable | Row(line: Line, symbolOk: bool, numbersOk: bool)

  const MINUTE: int := 60_000_000_000
  const MINUTES: nat := 390

  /** The session runs from `lo` to the start of its last minute, both included. */
  predicate InSession(lo: int, ns: int) {
    lo <= ns <= lo + 389 * MINUTE
  }

  /** The guards as written: comparisons with no number are false, so it passes them. */
  predicate Sound(r: Row) {
    && r.Row? && r.symbolOk && r.numbersOk && r.line.volume >= 0
    && !Below(r.line.low.num, Finite(0.0)) && r.line.low.num != Finite(0.0) && !Below(r.line.high.num, r.line.low.num)
  }

  function Bucket(lo: int, ns: int): (k: int)
    ensures InSession(lo, ns) ==> 0 <= k < MINUTES
  {
    (ns - lo) / MINUTE
  }

  // ---- the minute mask -----------------------------------------------------------------------

  /** mask & (1 << k), and mask | (1 << k). */
  predicate HasBit(mask: nat, k: nat) {
    if k == 0 then mask % 2 == 1 else HasBit(mask / 2, k - 1)
  }

  function SetBit(mask: nat, k: nat): nat {
    if k == 0 then (if mask % 2 == 1 then mask else mask + 1)
    else 2 * SetBit(mask / 2, k - 1) + mask % 2
  }

  lemma {:induction false} SetBitSets(mask: nat, k: nat, j: nat)
    ensures HasBit(SetBit(mask, k), j) <==> j == k || HasBit(mask, j)
  {
    if k > 0 && j > 0 { SetBitSets(mask / 2, k - 1, j - 1); }
  }

  lemma {:induction false} NoBitOfZero(j: nat)
    ensures !HasBit(0, j)
  {
    if j > 0 { NoBitOfZero(j - 1); }
  }

  /** Two masks with the same bits are the same number. */
  lemma {:induction false} SameBits(a: nat, b: nat)
    requires forall j: nat :: HasBit(a, j) <==> HasBit(b, j)
    ensures a == b
    decreases a + b
  {
    assert HasBit(a, 0) <==> HasBit(b, 0);
    if a > 0 || b > 0 {
      forall j: nat ensures HasBit(a / 2, j) <==> HasBit(b / 2, j) {
        assert HasBit(a, j + 1) <==> HasBit(b, j + 1);
      }
      SameBits(a / 2, b / 2);
    }
  }

  // ---- one symbol ----------------------------------------------------------------------------

  /** The fields of a DayBar. */
  datatype Summary = Summary(firstNs: int, lastNs: int, open: int, close: int, high: Quote, low: Quote, volume: int,
                             mask: nat)

  function First(lo: int, l: Line): Summary
    requires InSession(lo, l.ns)
  {
    Summary(l.ns, l.ns, l.open, l.close, l.high, l.low, l.volume, SetBit(0, Bucket(lo, l.ns)))
  }

  function Updated(s: Summary, l: Line): Summary {
    Summary(if l.ns < s.firstNs then l.ns else s.firstNs,
            if l.ns > s.lastNs then l.ns else s.lastNs,
            if l.ns < s.firstNs then l.open else s.open,
            if l.ns > s.lastNs then l.close else s.close,
            if Below(s.high.num, l.high.num) then l.high else s.high,
            if Below(l.low.num, s.low.num) then l.low else s.low,
            s.volume + l.volume, s.mask)
  }

  class DayBar {
    var firstNs: int
    var lastNs: int
    var open: int
    var close: int
    var high: Quote
    var low: Quote
    var volume: int
    var mask: nat

    function View(): Summary
      reads this
    {
      Summary(firstNs, lastNs, open, close, high, low, volume, mask)
    }

    constructor (l: Line, mask: nat)
      ensures View() == Summary(l.ns, l.ns, l.open, l.close, l.high, l.low, l.volume, mask)
    {
      firstNs, lastNs, open, close := l.ns, l.ns, l.open, l.close;
      high, low, volume, this.mask := l.high, l.low, l.volume, mask;
    }

    method Update(l: Line)
      modifies this
      ensures View() == Updated(old(View()), l)
    {
      if l.ns < firstNs { firstNs, open := l.ns, l.open; }
      if l.ns > lastNs { lastNs, close := l.ns, l.close; }
      if Below(high.num, l.high.num) { high := l.high; }
      if Below(l.low.num, low.num) { low := l.low; }
      volume := volume + l.volume;
    }
  }

  function Volume(ls: seq<Line>): int {
    if ls == [] then 0 else Volume(ls[..|ls| - 1]) + ls[|ls| - 1].volume
  }

  /** THE DAY BAR, declaratively: opens with the earliest line, closes with the latest, and has the extreme
      prices, in the text of the first line to reach them; volume adds up; the mask has exactly the lines'
      minutes. */
  ghost predicate Summarises(s: Summary, lo: int, ls: seq<Line>) {
    Times(s, ls) && Extremes(s, ls) && s.volume == Volume(ls) && Marks(s.mask, lo, ls)
  }

  ghost predicate Times(s: Summary, ls: seq<Line>) {
    && (exists i :: 0 <= i < |ls| && ls[i].ns == s.firstNs && ls[i].open == s.open)
    && (exists i :: 0 <= i < |ls| && ls[i].ns == s.lastNs && ls[i].close == s.close)
    && (forall i :: 0 <= i < |ls| ==> s.firstNs <= ls[i].ns <= s.lastNs)
  }

  ghost predicate Extremes(s: Summary, ls: seq<Line>) {
    Leads(s.high, ls, true) && Leads(s.low, ls, false)
  }

  /** The high or the low of a line. */
  function Price(l: Line, high: bool): Quote {
    if high then l.high else l.low
  }

  predicate Beats(a: Number, b: Number, high: bool) {
    if high then Below(b, a) else Below(a, b)
  }

  /** The extreme of the lines' prices, in the text of the first to reach it; prices that are no number are
      passed over, except that a first one stays for good. */
  ghost predicate Leads(q: Quote, ls: seq<Line>, high: bool) {
    && ls != []
    && if Price(ls[0], high).num.NaN? then q == Price(ls[0], high)
       else
         && !q.num.NaN?
         && (exists i :: 0 <= i < |ls| && FirstToReach(q, ls, i, high))
         && (forall j :: 0 <= j < |ls| ==> !Beats(Price(ls[j], high).num, q.num, high))
  }

  ghost predicate FirstToReach(q: Quote, ls: seq<Line>, i: nat, high: bool) {
    && i < |ls| && Price(ls[i], high) == q
    && forall j :: 0 <= j < i ==> Price(ls[j], high).num.NaN? || Beats(q.num, Price(ls[j], high).num, high)
  }

  ghost predicate Marks(mask: nat, lo: int, ls: seq<Line>) {
    forall k: nat :: HasBit(mask, k) <==> Covers(lo, ls, k)
  }

  /** Some line lies in minute k. */
  predicate Covers(lo: int, ls: seq<Line>, k: int) {
    exists i :: 0 <= i < |ls| && Bucket(lo, ls[i].ns) == k
  }

  ghost predicate AllInSession(lo: int, ls: seq<Line>) {
    forall i :: 0 <= i < |ls| ==> InSession(lo, ls[i].ns)
  }

  /** The lines folded one after the other. */
  ghost function Fold(lo: int, ls: seq<Line>): Summary
    requires ls != [] && AllInSession(lo, ls)
  {
    var n := |ls| - 1;
    if n == 0 then First(lo, ls[0])
    else
      var s := Fold(lo, ls[..n]);
      Updated(s.(mask := SetBit(s.mask, Bucket(lo, ls[n].ns))), ls[n])
  }

  lemma {:induction false} FoldSummarises(lo: int, ls: seq<Line>)
    requires ls != [] && AllInSession(lo, ls)
    ensures Summarises(Fold(lo, ls), lo, ls)
    decreases |ls|
  {
    hide Summarises, Updated, First;
    var n := |ls| - 1;
    if n == 0 {
      FirstSummarises(lo, ls[0]);
      assert ls == [ls[0]];
    } else {
      FoldSummarises(lo, ls[..n]);
      UpdateSummarises(lo, ls[..n], ls[n], Fold(lo, ls[..n]));
      assert ls[..n] + [ls[n]] == ls;
    }
  }

  lemma FirstSummarises(lo: int, l: Line)
    requires InSession(lo, l.ns)
    ensures Summarises(First(lo, l), lo, [l])
  {
    var s := First(lo, l);
    assert [l][0] == l && [l][..0] == [];
    LeadOfOne(l, true);
    LeadOfOne(l, false);
    forall k: nat ensures HasBit(s.mask, k) <==> Covers(lo, [l], k) {
      SetBitSets(0, Bucket(lo, l.ns), k);
      NoBitOfZero(k);
    }
  }

  lemma UpdateSummarises(lo: int, ls: seq<Line>, l: Line, s: Summary)
    requires InSession(lo, l.ns) && Summarises(s, lo, ls)
    ensures Summarises(Updated(s.(mask := SetBit(s.mask, Bucket(lo, l.ns))), l), lo, ls + [l])
  {
    var t := s.(mask := SetBit(s.mask, Bucket(lo, l.ns)));
    UpdateTimes(ls, l, t);
    UpdateExtremes(ls, l, t);
    assert (ls + [l])[..|ls|] == ls;
    forall k: nat ensures HasBit(t.mask, k) <==> Covers(lo, ls + [l], k) {
      SetBitSets(s.mask, Bucket(lo, l.ns), k);
      CoversGrows(lo, ls, l, k);
    }
  }

  lemma CoversGrows(lo: int, ls: seq<Line>, l: Line, k: int)
    ensures Covers(lo, ls + [l], k) <==> Covers(lo, ls, k) || Bucket(lo, l.ns) == k
  {
    assert (ls + [l])[|ls|] == l;
    assert forall i :: 0 <= i < |ls| ==> (ls + [l])[i] == ls[i];
  }

  lemma UpdateTimes(ls: seq<Line>, l: Line, s: Summary)
    requires Times(s, ls)
    ensures Times(Updated(s, l), ls + [l])
  {
    assert (ls + [l])[|ls|] == l;
    assert forall i :: 0 <= i < |ls| ==> (ls + [l])[i] == ls[i];
  }

  lemma UpdateExtremes(ls: seq<Line>, l: Line, s: Summary)
    requires Extremes(s, ls)
    ensures Extremes(Updated(s, l), ls + [l])
  {
    UpdateLeads(s.high, ls, l, true);
    UpdateLeads(s.low, ls, l, false);
  }

  lemma UpdateLeads(q: Quote, ls: seq<Line>, l: Line, high: bool)
    requires Leads(q, ls, high)
    ensures Leads(if Beats(Price(l, high).num, q.num, high) then Price(l, high) else q, ls + [l], high)
  {
    hide Price, Below;
    var all, p := ls + [l], Price(l, high);
    assert all[|ls|] == l;
    assert forall i :: 0 <= i < |ls| ==> all[i] == ls[i];
    if !Price(ls[0], high).num.NaN? {
      var i: nat :| i < |ls| && FirstToReach(q, ls, i, high);
      assert FirstToReach(q, all, i, high);
      if Beats(p.num, q.num, high) {
        forall j | 0 <= j < |ls|
          ensures Price(ls[j], high).num.NaN? || Beats(p.num, Price(ls[j], high).num, high)
          ensures !Beats(Price(ls[j], high).num, p.num, high)
        {
          Transits(p.num, q.num, Price(ls[j], high).num, high);
        }
        Irreflexive(p.num, q.num, high);
        assert FirstToReach(p, all, |ls|, high);
      }
    } else {
      Irreflexive(p.num, q.num, high);
    }
  }

  lemma LeadOfOne(l: Line, high: bool)
    ensures Leads(Price(l, high), [l], high)
  {
    Irreflexive(Price(l, high).num, Price(l, high).num, high);
    assert FirstToReach(Price(l, high), [l], 0, high);
  }

  /** What beats the leader beats whatever does not. */
  lemma Transits(p: Number, q: Number, r: Number, high: bool)
    requires Beats(p, q, high) && !Beats(r, q, high)
    ensures r.NaN? || Beats(p, r, high)
    ensures !Beats(r, p, high)
  {
    BelowOrders(p, q, r);
    BelowOrders(r, q, p);
    BelowOrders(q, p, r);
  }

  lemma Irreflexive(p: Number, q: Number, high: bool)
    ensures !Beats(p, p, high) && (Beats(p, q, high) ==> !p.NaN? && !q.NaN?)
  {
  }

  // ---- the whole file ------------------------------------------------------------------------

  /** One symbol's lines. */
  function Of(ls: seq<Line>, symbol: int): (r: seq<Line>)
    ensures forall x :: x in r <==> x in ls && x.symbol == symbol
  {
    if ls == [] then []
    else
      var last := ls[|ls| - 1];
      assert ls == ls[..|ls| - 1] + [last];
      Of(ls[..|ls| - 1], symbol) + if last.symbol == symbol then [last] else []
  }

  /** A row to be folded unless its symbol already has a line in its minute. */
  predicate Candidate(lo: int, r: Row) {
    r.Row? && Sound(r) && InSession(lo, r.line.ns)
  }

  /** The lines the file contributes: for each symbol the first sound row of each minute. */
  function Kept(lo: int, rows: seq<Row>): (ls: seq<Line>)
    ensures forall l :: l in ls ==> InSession(lo, l.ns)
  {
    if rows == [] then []
    else
      var before, r := Kept(lo, rows[..|rows| - 1]), rows[|rows| - 1];
      if Candidate(lo, r) && !Covers(lo, Of(before, r.line.symbol), Bucket(lo, r.line.ns)) then before + [r.line]
      else before
  }

  function Skipped(lo: int, rows: seq<Row>): nat {
    if rows == [] then 0
    else
      var before, r := rows[..|rows| - 1], rows[|rows| - 1];
      Skipped(lo, before)
      + if r == Unreadable then 1
        else if !InSession(lo, r.line.ns) then 0
        else if !Sound(r) || Covers(lo, Of(Kept(lo, before), r.line.symbol), Bucket(lo, r.line.ns)) then 1
        else 0
  }

  function Outside(lo: int, rows: seq<Row>): nat {
    if rows == [] then 0
    else
      var r := rows[|rows| - 1];
      Outside(lo, rows[..|rows| - 1]) + if r.Row? && !InSession(lo, r.line.ns) then 1 else 0
  }

  /** Every row read is folded, skipped and counted, or outside the session. */
  lemma {:induction false} EveryRowAccounted(lo: int, rows: seq<Row>)
    ensures |rows| == |Kept(lo, rows)| + Skipped(lo, rows) + Outside(lo, rows)
  {
    if rows != [] { EveryRowAccounted(lo, rows[..|rows| - 1]); }
  }

  ghost predicate IsFold(s: Summary, lo: int, ls: seq<Line>) {
    ls != [] && AllInSession(lo, ls) && s == Fold(lo, ls)
  }

  /** A fold for each symbol that has a line. */
  ghost predicate AreFolds(views: map<int, Summary>, lo: int, ls: seq<Line>) {
    && (forall s :: s in views ==> IsFold(views[s], lo, Of(ls, s)))
    && (forall s :: s !in views ==> Of(ls, s) == [])
  }

  ghost function Views(bars: map<int, DayBar>): map<int, Summary>
    reads bars.Values
  {
    map s | s in bars :: bars[s].View()
  }

  predicate Distinct(bars: map<int, DayBar>) {
    forall s, t :: s in bars && t in bars && bars[s] == bars[t] ==> s == t
  }

  lemma OfGrows(ls: seq<Line>, l: Line, symbol: int)
    ensures Of(ls + [l], symbol) == if l.symbol == symbol then Of(ls, symbol) + [l] else Of(ls, symbol)
  {
    assert (ls + [l])[..|ls|] == ls;
  }

  /** The bit test asks whether the minute is taken. */
  lemma MaskTells(s: Summary, lo: int, ls: seq<Line>, k: nat)
    requires IsFold(s, lo, ls)
    ensures HasBit(s.mask, k) <==> Covers(lo, ls, k)
  {
    FoldSummarises(lo, ls);
  }

  lemma FoldGrows(s: Summary, lo: int, ls: seq<Line>, l: Line)
    requires InSession(lo, l.ns)
    ensures ls == [] ==> IsFold(First(lo, l), lo, ls + [l])
    ensures IsFold(s, lo, ls) ==> IsFold(Updated(s.(mask := SetBit(s.mask, Bucket(lo, l.ns))), l), lo, ls + [l])
  {
    assert (ls + [l])[..|ls|] == ls;
  }

  lemma KeptStep(lo: int, rows: seq<Row>, n: nat)
    requires n < |rows|
    ensures var before, r := Kept(lo, rows[..n]), rows[n];
            && Kept(lo, rows[..n + 1]) ==
                 (if Candidate(lo, r) && !Covers(lo, Of(before, r.line.symbol), Bucket(lo, r.line.ns))
                  then before + [r.line] else before)
            && Skipped(lo, rows[..n + 1]) == Skipped(lo, rows[..n])
                 + (if r == Unreadable then 1
                    else if !InSession(lo, r.line.ns) then 0
                    else if !Sound(r) || Covers(lo, Of(before, r.line.symbol), Bucket(lo, r.line.ns)) then 1
                    else 0)
  {
    assert rows[..n + 1][..n] == rows[..n];
  }

  lemma BeginFolds(views: map<int, Summary>, lo: int, ls: seq<Line>, l: Line)
    requires AreFolds(views, lo, ls) && InSession(lo, l.ns) && l.symbol !in views
    ensures AreFolds(views[l.symbol := First(lo, l)], lo, ls + [l])
    ensures !Covers(lo, Of(ls, l.symbol), Bucket(lo, l.ns))
  {
    hide First, Of, IsFold, Bucket;
    forall s { OfGrows(ls, l, s); }
    FoldGrows(First(lo, l), lo, [], l);
    assert [] + [l] == [l];
  }

  lemma ContinueFolds(views: map<int, Summary>, lo: int, ls: seq<Line>, l: Line)
    requires AreFolds(views, lo, ls) && InSession(lo, l.ns) && l.symbol in views
    ensures HasBit(views[l.symbol].mask, Bucket(lo, l.ns)) <==> Covers(lo, Of(ls, l.symbol), Bucket(lo, l.ns))
    ensures var s := views[l.symbol];
            AreFolds(views[l.symbol := Updated(s.(mask := SetBit(s.mask, Bucket(lo, l.ns))), l)], lo, ls + [l])
  {
    hide Updated, Of, IsFold, SetBit, HasBit;
    var current := views[l.symbol];
    forall s { OfGrows(ls, l, s); }
    MaskTells(current, lo, Of(ls, l.symbol), Bucket(lo, l.ns));
    FoldGrows(current, lo, Of(ls, l.symbol), l);
  }

  /** A symbol's further line. */
  method Continue(bars: map<int, DayBar>, l: Line, k: nat) returns (duplicate: bool)
    requires l.symbol in bars && Distinct(bars)
    modifies bars[l.symbol]
    ensures duplicate <==> HasBit(old(bars[l.symbol].View()).mask, k)
    ensures var s := old(bars[l.symbol].View());
            Views(bars) == if duplicate then old(Views(bars))
                           else old(Views(bars))[l.symbol := Updated(s.(mask := SetBit(s.mask, k)), l)]
  {
    hide SetBit, HasBit, Updated;
    var bar := bars[l.symbol];
    assert forall s :: s in bars && s != l.symbol ==> bars[s] != bar;
    if HasBit(bar.mask, k) { return true; }
    bar.mask := SetBit(bar.mask, k);
    bar.Update(l);
    assert forall s :: s in bars && s != l.symbol ==> bars[s].View() == old(bars[s].View());
    return false;
  }

  /** aggregate_file, without its reading and parsing. */
  method Aggregate(rows: seq<Row>, lo: int) returns (bars: map<int, DayBar>, rowsRead: nat, skipped: nat)
    ensures forall s :: s in bars ==> fresh(bars[s])
    ensures Distinct(bars) && AreFolds(Views(bars), lo, Kept(lo, rows))
    ensures rowsRead == |rows| && skipped == Skipped(lo, rows)
  {
    hide AreFolds, Bucket, Sound, InSession, Covers, Kept, Skipped, Of, SetBit, HasBit, Updated;
    bars, rowsRead, skipped := map[], 0, 0;
    Nothing(lo, rows);
    assert Views(bars) == map[];
    for n := 0 to |rows|
      invariant (forall s :: s in bars ==> fresh(bars[s])) && Distinct(bars)
      invariant AreFolds(Views(bars), lo, Kept(lo, rows[..n]))
      invariant rowsRead == n && skipped == Skipped(lo, rows[..n])
    {
      KeptStep(lo, rows, n);
      ghost var before := Kept(lo, rows[..n]);
      var r := rows[n];
      rowsRead := rowsRead + 1;
      if r == Unreadable { skipped := skipped + 1; continue; }
      if !InSession(lo, r.line.ns) { continue; }
      if !Sound(r) { skipped := skipped + 1; continue; }
      var l := r.line;
      var k := Bucket(lo, l.ns);
      ghost var views := Views(bars);
      if l.symbol !in bars {
        BeginFolds(views, lo, before, l);
        var bar := new DayBar(l, SetBit(0, k));
        bars := bars[l.symbol := bar];
        assert Views(bars) == views[l.symbol := First(lo, l)];
      } else {
        ContinueFolds(views, lo, before, l);
        assert views[l.symbol] == bars[l.symbol].View();
        var duplicate := Continue(bars, l, k);
        if duplicate { skipped := skipped + 1; }
      }
    }
    assert rows[..|rows|] == rows;
  }

  lemma Nothing(lo: int, rows: seq<Row>)
    ensures Kept(lo, rows[..0]) == [] && Skipped(lo, rows[..0]) == 0 && AreFolds(map[], lo, [])
  {
  }

  // ---- which rows are folded -----------------------------------------------------------------

  /** Row r is sound and of that symbol and minute. */
  predicate Claims(lo: int, r: Row, symbol: int, k: int) {
    Candidate(lo, r) && r.line.symbol == symbol && Bucket(lo, r.line.ns) == k
  }

  predicate Claimed(lo: int, rows: seq<Row>, symbol: int, k: int) {
    exists i :: 0 <= i < |rows| && Claims(lo, rows[i], symbol, k)
  }

  lemma ClaimedGrows(lo: int, rows: seq<Row>, r: Row, symbol: int, k: int)
    ensures Claimed(lo, rows + [r], symbol, k) <==> Claimed(lo, rows, symbol, k) || Claims(lo, r, symbol, k)
  {
    assert (rows + [r])[|rows|] == r;
    assert forall i :: 0 <= i < |rows| ==> (rows + [r])[i] == rows[i];
  }

  /** A minute is covered when some sound row claims it, folded or not. */
  lemma {:induction false} CoveredMeans(lo: int, rows: seq<Row>, symbol: int, k: int)
    ensures Covers(lo, Of(Kept(lo, rows), symbol), k) <==> Claimed(lo, rows, symbol, k)
    decreases |rows|
  {
    if rows != [] {
      var n := |rows| - 1;
      var before, r := Kept(lo, rows[..n]), rows[n];
      CoveredMeans(lo, rows[..n], symbol, k);
      assert rows == rows[..n] + [r];
      ClaimedGrows(lo, rows[..n], r, symbol, k);
      hide Covers, Claimed, Bucket, Sound, InSession;
      if r.Row? {
        OfGrows(before, r.line, symbol);
        CoversGrows(lo, Of(before, symbol), r.line, k);
      }
    }
  }

  /** Row i is the first sound one of its symbol and minute. */
  predicate IsFirst(lo: int, rows: seq<Row>, i: nat)
    requires i < |rows|
  {
    Candidate(lo, rows[i]) && !Claimed(lo, rows[..i], rows[i].line.symbol, Bucket(lo, rows[i].line.ns))
  }

  /** `origin` lists, in order, all the rows that are first of their symbol and minute; these lines are
      theirs. */
  ghost predicate AreFirst(lo: int, rows: seq<Row>, ls: seq<Line>, origin: seq<nat>) {
    && |origin| == |ls|
    && (forall x :: 0 <= x < |origin| ==>
          origin[x] < |rows| && IsFirst(lo, rows, origin[x]) && ls[x] == rows[origin[x]].line)
    && (forall x, y :: 0 <= x < y < |origin| ==> origin[x] < origin[y])
    && (forall i :: 0 <= i < |rows| && IsFirst(lo, rows, i) ==> i in origin)
  }

  /** The folded lines are, in file order, exactly the first sound row of each symbol and minute. */
  lemma {:induction false} KeptAreFirst(lo: int, rows: seq<Row>) returns (origin: seq<nat>)
    ensures AreFirst(lo, rows, Kept(lo, rows), origin)
    decreases |rows|
  {
    origin := [];
    if rows != [] {
      hide Kept, IsFirst, AreFirst;
      var n := |rows| - 1;
      origin := KeptAreFirst(lo, rows[..n]);
      KeptLast(lo, rows);
      FirstOrNot(lo, rows, Kept(lo, rows[..n]), origin);
      if IsFirst(lo, rows, n) { origin := origin + [n]; }
    }
  }

  lemma FirstOrNot(lo: int, rows: seq<Row>, ls: seq<Line>, origin: seq<nat>)
    requires rows != [] && AreFirst(lo, rows[..|rows| - 1], ls, origin)
    requires forall i :: 0 <= i < |rows| - 1 ==> IsFirst(lo, rows, i) == IsFirst(lo, rows[..|rows| - 1], i)
    ensures var n := |rows| - 1;
            if IsFirst(lo, rows, n) then AreFirst(lo, rows, ls + [rows[n].line], origin + [n])
            else AreFirst(lo, rows, ls, origin)
  {
    hide IsFirst;
    var n := |rows| - 1;
    forall i | 0 <= i < n && IsFirst(lo, rows, i) ensures i in origin {
      assert IsFirst(lo, rows[..n], i);
    }
  }

  lemma KeptLast(lo: int, rows: seq<Row>)
    requires rows != []
    ensures var n := |rows| - 1;
            Kept(lo, rows) == if IsFirst(lo, rows, n) then Kept(lo, rows[..n]) + [rows[n].line] else Kept(lo, rows[..n])
    ensures var n := |rows| - 1;
            forall i :: 0 <= i < n ==> IsFirst(lo, rows, i) == IsFirst(lo, rows[..n], i)
  {
    var n := |rows| - 1;
    if rows[n].Row? { CoveredMeans(lo, rows[..n], rows[n].line.symbol, Bucket(lo, rows[n].line.ns)); }
    hide Covers, Claimed, Bucket, Sound, InSession;
    forall i | 0 <= i < n ensures IsFirst(lo, rows, i) == IsFirst(lo, rows[..n], i) {
      assert rows[..n][..i] == rows[..i];
    }
  }
}
