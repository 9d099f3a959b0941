/** Whether the order of a day file's rows shows in the bars that aggregate_file of db/load_daily_bars.py
    makes of them: which row stands for a minute, and which price comes first. */
module BarOrder {
  import opened BarFold

  /** One symbol's sound rows, in order, duplicates included. */
  function SymbolLines(lo: int, rows: seq<Row>, symbol: int): (ls: seq<Line>)
    ensures forall l :: l in ls ==> InSession(lo, l.ns) && l.symbol == symbol
  {
    if rows == [] then []
    else
      var r := rows[|rows| - 1];
      SymbolLines(lo, rows[..|rows| - 1], symbol) + if Candidate(lo, r) && r.line.symbol == symbol then [r.line] else []
  }

  lemma {:induction false} RowOf(lo: int, rows: seq<Row>, symbol: int, l: Line) returns (p: nat)
    requires l in SymbolLines(lo, rows, symbol)
    ensures p < |rows| && Candidate(lo, rows[p]) && rows[p].line == l && l.symbol == symbol
    decreases |rows|
  {
    var n := |rows| - 1;
    if l in SymbolLines(lo, rows[..n], symbol) {
      p := RowOf(lo, rows[..n], symbol, l);
    } else {
      p := n;
    }
  }

  lemma {:induction false} LinesJoin(lo: int, a: seq<Row>, b: seq<Row>, symbol: int)
    ensures SymbolLines(lo, a + b, symbol) == SymbolLines(lo, a, symbol) + SymbolLines(lo, b, symbol)
    decreases |b|
  {
    if b == [] {
      assert a + b == a;
    } else {
      var n := |b| - 1;
      assert (a + b)[..|a + b| - 1] == a + b[..n];
      LinesJoin(lo, a, b[..n], symbol);
    }
  }

  /** Where b has a's last element. */
  lemma Partner<T>(a: seq<T>, b: seq<T>) returns (p: nat)
    requires multiset(a) == multiset(b) && a != []
    ensures p < |b| && b[p] == a[|a| - 1] && a == a[..|a| - 1] + [a[|a| - 1]] && b == b[..p] + [b[p]] + b[p + 1..]
    ensures multiset(a[..|a| - 1]) == multiset(b[..p] + b[p + 1..])
  {
    var n := |a| - 1;
    assert a[n] in multiset(b);
    p :| 0 <= p < |b| && b[p] == a[n];
    Without(a, n);
    Without(b, p);
    assert a[..n] + a[n + 1..] == a[..n];
  }

  lemma Without<T>(s: seq<T>, p: nat)
    requires p < |s|
    ensures s == s[..p] + [s[p]] + s[p + 1..]
    ensures multiset(s[..p] + s[p + 1..]) == multiset(s) - multiset{s[p]}
  {
    assert s == s[..p] + [s[p]] + s[p + 1..];
  }

  lemma {:induction false} SameLines(lo: int, a: seq<Row>, b: seq<Row>, symbol: int)
    requires multiset(a) == multiset(b)
    ensures multiset(SymbolLines(lo, a, symbol)) == multiset(SymbolLines(lo, b, symbol))
    decreases |a|
  {
    if a == [] {
      assert |multiset(b)| == |b|;
    } else {
      var n := |a| - 1;
      var p := Partner(a, b);
      SameLines(lo, a[..n], b[..p] + b[p + 1..], symbol);
      LinesJoin(lo, b[..p], b[p + 1..], symbol);
      LinesJoin(lo, b[..p] + [b[p]], b[p + 1..], symbol);
      LinesJoin(lo, b[..p], [b[p]], symbol);
      LinesJoin(lo, a[..n], [a[n]], symbol);
      hide SymbolLines;
    }
  }

  lemma {:induction false} VolumeJoin(a: seq<Line>, b: seq<Line>)
    ensures Volume(a + b) == Volume(a) + Volume(b)
    decreases |b|
  {
    if b == [] {
      assert a + b == a;
    } else {
      assert (a + b)[..|a + b| - 1] == a + b[..|b| - 1];
      VolumeJoin(a, b[..|b| - 1]);
    }
  }

  // ---- what is kept of a symbol ----------------------------------------------------------------

  /** One of the lines for each of their minutes. */
  ghost predicate Picks(lo: int, a: seq<Line>, ls: seq<Line>) {
    && (forall x :: x in a ==> x in ls)
    && (forall k: int :: Covers(lo, a, k) <==> Covers(lo, ls, k))
    && OnePerMinute(lo, a)
  }

  ghost predicate OnePerMinute(lo: int, a: seq<Line>) {
    forall i, j :: 0 <= i < j < |a| ==> Bucket(lo, a[i].ns) != Bucket(lo, a[j].ns)
  }

  predicate IsOf(lo: int, r: Row, symbol: int) {
    r.Row? && Candidate(lo, r) && r.line.symbol == symbol
  }

  /** What the last row adds for a symbol. */
  lemma LastRow(lo: int, rows: seq<Row>, symbol: int)
    requires rows != []
    ensures var n := |rows| - 1;
            var a, now := Of(Kept(lo, rows[..n]), symbol), Of(Kept(lo, rows), symbol);
            if IsOf(lo, rows[n], symbol)
            then now == (if Covers(lo, a, Bucket(lo, rows[n].line.ns)) then a else a + [rows[n].line])
                 && SymbolLines(lo, rows, symbol) == SymbolLines(lo, rows[..n], symbol) + [rows[n].line]
            else now == a && SymbolLines(lo, rows, symbol) == SymbolLines(lo, rows[..n], symbol)
  {
    var r := rows[|rows| - 1];
    if Candidate(lo, r) { OfGrows(Kept(lo, rows[..|rows| - 1]), r.line, symbol); }
    hide Covers, Sound, InSession, Of, Bucket;
  }

  lemma {:induction false} KeptPicks(lo: int, rows: seq<Row>, symbol: int)
    ensures Picks(lo, Of(Kept(lo, rows), symbol), SymbolLines(lo, rows, symbol))
    decreases |rows|
  {
    if rows != [] {
      var n := |rows| - 1;
      KeptPicks(lo, rows[..n], symbol);
      LastRow(lo, rows, symbol);
      hide Picks, Covers, IsOf, Kept, Of, SymbolLines;
      if IsOf(lo, rows[n], symbol) {
        PickGrows(lo, Of(Kept(lo, rows[..n]), symbol), SymbolLines(lo, rows[..n], symbol), rows[n].line);
      }
    } else {
      assert SymbolLines(lo, rows, symbol) == [] == Of(Kept(lo, rows), symbol);
    }
  }

  lemma PickGrows(lo: int, a: seq<Line>, ls: seq<Line>, l: Line)
    requires Picks(lo, a, ls)
    ensures Picks(lo, if Covers(lo, a, Bucket(lo, l.ns)) then a else a + [l], ls + [l])
  {
    forall k: int
      ensures Covers(lo, a + [l], k) <==> Covers(lo, a, k) || Bucket(lo, l.ns) == k
      ensures Covers(lo, ls + [l], k) <==> Covers(lo, ls, k) || Bucket(lo, l.ns) == k
    {
      CoversGrows(lo, a, l, k);
      CoversGrows(lo, ls, l, k);
    }
    hide Bucket;
  }

  /** Lines that are the same up to order. */
  lemma SameMembers(a: seq<Line>, b: seq<Line>)
    requires multiset(a) == multiset(b)
    ensures Within(a, b) && Within(b, a)
  {
    forall x: Line ensures x in a <==> x in b {
      assert x in multiset(a) <==> x in multiset(b);
    }
  }

  lemma PicksOfSame(lo: int, a: seq<Line>, ls: seq<Line>, ms: seq<Line>)
    requires Picks(lo, a, ls) && Within(ls, ms) && Within(ms, ls)
    ensures Picks(lo, a, ms)
  {
    hide Bucket;
    forall k: int ensures Covers(lo, ls, k) <==> Covers(lo, ms, k) {
      CoversSame(lo, ls, ms, k);
      CoversSame(lo, ms, ls, k);
    }
  }

  lemma CoversSame(lo: int, ls: seq<Line>, ms: seq<Line>, k: int)
    requires Within(ls, ms)
    ensures Covers(lo, ls, k) ==> Covers(lo, ms, k)
  {
    if Covers(lo, ls, k) {
      var i :| 0 <= i < |ls| && Bucket(lo, ls[i].ns) == k;
      assert ls[i] in ms;
    }
  }

  // ---- the condition ---------------------------------------------------------------------------

  /** Either all of these prices are numbers or none is. */
  ghost predicate Unmixed(ls: seq<Line>, high: bool) {
    forall x: Line, y: Line :: x in ls && y in ls ==> (Price(x, high).num.NaN? <==> Price(y, high).num.NaN?)
  }

  predicate SameMinute(lo: int, x: Line, y: Line) {
    Bucket(lo, x.ns) == Bucket(lo, y.ns)
  }

  /** No line lies in an earlier minute, or in a later one. */
  ghost predicate Outermost(lo: int, ls: seq<Line>, x: Line, first: bool) {
    forall z: Line :: z in ls ==>
      if first then Bucket(lo, x.ns) <= Bucket(lo, z.ns) else Bucket(lo, z.ns) <= Bucket(lo, x.ns)
  }

  /** The lines of the first minute agree on time and opening price, those of the last on time and closing
      price. */
  ghost predicate EndsAgree(lo: int, ls: seq<Line>, first: bool) {
    forall x: Line, y: Line :: x in ls && y in ls && SameMinute(lo, x, y) && Outermost(lo, ls, x, first) ==>
      x.ns == y.ns && if first then x.open == y.open else x.close == y.close
  }

  ghost predicate VolumesAgree(lo: int, ls: seq<Line>) {
    VolumesMatch(lo, ls, ls)
  }

  ghost predicate Unbeaten(ls: seq<Line>, y: Line, high: bool) {
    forall z: Line :: z in ls ==> !Beats(Price(z, high).num, Price(y, high).num, high)
  }

  /** Some minute has the extreme price in each of its lines. */
  ghost predicate SureExtreme(lo: int, ls: seq<Line>, high: bool) {
    exists x: Line :: x in ls && Sure(lo, ls, x, high)
  }

  ghost predicate Sure(lo: int, ls: seq<Line>, x: Line, high: bool) {
    forall y: Line :: y in ls && SameMinute(lo, x, y) ==> Unbeaten(ls, y, high)
  }

  ghost predicate PriceSettled(lo: int, ls: seq<Line>, high: bool) {
    Unmixed(ls, high) && (ls != [] ==> SureExtreme(lo, ls, high))
  }

  /** Which line stands for its minute, and which comes first, is all the same. */
  ghost predicate Indifferent(lo: int, ls: seq<Line>) {
    && PriceSettled(lo, ls, true) && PriceSettled(lo, ls, false)
    && EndsAgree(lo, ls, true) && EndsAgree(lo, ls, false) && VolumesAgree(lo, ls)
  }

  // ---- it is enough ----------------------------------------------------------------------------

  /** The values of two bars, leaving aside which of several equal prices' texts they carry. */
  predicate SameNumbers(s: Summary, t: Summary) {
    && s.firstNs == t.firstNs && s.lastNs == t.lastNs && s.open == t.open && s.close == t.close
    && s.high.num == t.high.num && s.low.num == t.low.num && s.volume == t.volume && s.mask == t.mask
  }

  lemma Monotone(lo: int, m: int, n: int)
    requires m <= n
    ensures Bucket(lo, m) <= Bucket(lo, n)
  {
  }

  /** The picked line with the first or the last time lies in the first or the last minute. */
  lemma ExtremeIsOutermost(lo: int, a: seq<Line>, ls: seq<Line>, x: Line, first: bool)
    requires Picks(lo, a, ls)
    requires forall y :: y in a ==> if first then x.ns <= y.ns else y.ns <= x.ns
    ensures Outermost(lo, ls, x, first)
  {
    hide Bucket;
    forall z: Line | z in ls
      ensures if first then Bucket(lo, x.ns) <= Bucket(lo, z.ns) else Bucket(lo, z.ns) <= Bucket(lo, x.ns)
    {
      var y := PickOf(lo, a, ls, z);
      if first { Monotone(lo, x.ns, y.ns); } else { Monotone(lo, y.ns, x.ns); }
    }
  }

  lemma PickOf(lo: int, a: seq<Line>, ls: seq<Line>, z: Line) returns (y: Line)
    requires Picks(lo, a, ls) && z in ls
    ensures y in a && SameMinute(lo, z, y)
  {
    hide Bucket;
    var i :| 0 <= i < |ls| && ls[i] == z;
    assert Covers(lo, ls, Bucket(lo, z.ns));
    var j :| 0 <= j < |a| && Bucket(lo, a[j].ns) == Bucket(lo, z.ns);
    y := a[j];
  }

  lemma SameTimes(lo: int, s: Summary, t: Summary, a: seq<Line>, b: seq<Line>, ls: seq<Line>)
    requires Times(s, a) && Times(t, b) && Picks(lo, a, ls) && Picks(lo, b, ls)
    requires EndsAgree(lo, ls, true) && EndsAgree(lo, ls, false)
    ensures s.firstNs == t.firstNs && s.lastNs == t.lastNs && s.open == t.open && s.close == t.close
  {
    hide Bucket, Covers;
    var i :| 0 <= i < |a| && a[i].ns == s.firstNs && a[i].open == s.open;
    var j :| 0 <= j < |a| && a[j].ns == s.lastNs && a[j].close == s.close;
    var p :| 0 <= p < |b| && b[p].ns == t.firstNs && b[p].open == t.open;
    var q :| 0 <= q < |b| && b[q].ns == t.lastNs && b[q].close == t.close;
    assert a[i] in a && a[j] in a && b[p] in b && b[q] in b;
    SameEnd(lo, a, b, ls, a[i], b[p], true);
    SameEnd(lo, a, b, ls, a[j], b[q], false);
  }

  lemma SameEnd(lo: int, a: seq<Line>, b: seq<Line>, ls: seq<Line>, x: Line, y: Line, first: bool)
    requires Picks(lo, a, ls) && Picks(lo, b, ls) && EndsAgree(lo, ls, first) && x in a && y in b
    requires forall z :: z in a ==> if first then x.ns <= z.ns else z.ns <= x.ns
    requires forall z :: z in b ==> if first then y.ns <= z.ns else z.ns <= y.ns
    ensures x.ns == y.ns && if first then x.open == y.open else x.close == y.close
  {
    hide Bucket, Covers;
    ExtremeIsOutermost(lo, a, ls, x, first);
    ExtremeIsOutermost(lo, b, ls, y, first);
    assert x in ls && y in ls && SameMinute(lo, x, y);
  }

  /** The extreme of a pick is a price that none of all the lines beats. */
  lemma ExtremeOfPick(lo: int, q: Quote, a: seq<Line>, ls: seq<Line>, high: bool) returns (y: Line)
    requires Leads(q, a, high) && a != [] && Picks(lo, a, ls) && PriceSettled(lo, ls, high)
    ensures y in ls && Price(y, high).num == q.num && Unbeaten(ls, y, high)
  {
    y := SurePick(lo, a, ls, high);
    hide Bucket, Covers, Leads, Price, Beats;
    assert forall z :: z in a ==> z in ls;
    LeaderIs(q, a, y, high);
  }

  lemma SurePick(lo: int, a: seq<Line>, ls: seq<Line>, high: bool) returns (y: Line)
    requires a != [] && Picks(lo, a, ls) && PriceSettled(lo, ls, high)
    ensures y in a && y in ls && Unbeaten(ls, y, high)
  {
    hide Bucket, Covers, Unbeaten, Unmixed;
    assert a[0] in a;
    var x: Line :| x in ls && Sure(lo, ls, x, high);
    y := PickOf(lo, a, ls, x);
  }

  lemma LeaderIs(q: Quote, a: seq<Line>, y: Line, high: bool)
    requires Leads(q, a, high) && y in a
    requires forall x :: x in a ==> (Price(x, high).num.NaN? <==> Price(y, high).num.NaN?)
    requires forall x :: x in a ==> !Beats(Price(x, high).num, Price(y, high).num, high)
    ensures q.num == Price(y, high).num
  {
    hide Price, Below;
    assert a[0] in a;
    if !Price(y, high).num.NaN? {
      var i: nat :| i < |a| && FirstToReach(q, a, i, high);
      assert a[i] in a;
      BelowOrders(q.num, Price(y, high).num, q.num);
    }
  }

  lemma SameLead(lo: int, q: Quote, p: Quote, a: seq<Line>, b: seq<Line>, ls: seq<Line>, high: bool)
    requires Leads(q, a, high) && Leads(p, b, high) && Picks(lo, a, ls) && Picks(lo, b, ls) && a != [] && b != []
    requires PriceSettled(lo, ls, high)
    ensures q.num == p.num
  {
    hide Leads, Picks, Price, Below, SureExtreme;
    var y := ExtremeOfPick(lo, q, a, ls, high);
    var z := ExtremeOfPick(lo, p, b, ls, high);
    BelowOrders(q.num, p.num, q.num);
  }

  lemma SameMarks(s: Summary, t: Summary, lo: int, a: seq<Line>, b: seq<Line>, ls: seq<Line>)
    requires Marks(s.mask, lo, a) && Marks(t.mask, lo, b) && Picks(lo, a, ls) && Picks(lo, b, ls)
    ensures s.mask == t.mask
  {
    hide Covers;
    forall k: nat ensures HasBit(s.mask, k) <==> HasBit(t.mask, k) {
      assert Covers(lo, a, k) <==> Covers(lo, ls, k);
    }
    SameBits(s.mask, t.mask);
  }

  lemma {:induction false} SameVolume(lo: int, a: seq<Line>, b: seq<Line>)
    requires OnePerMinute(lo, a) && OnePerMinute(lo, b)
    requires forall k: int :: Covers(lo, a, k) <==> Covers(lo, b, k)
    requires VolumesMatch(lo, a, b)
    ensures Volume(a) == Volume(b)
    decreases |a|
  {
    if a == [] {
      SomeMinute(lo, b);
    } else {
      hide Bucket, OnePerMinute;
      var n := |a| - 1;
      assert Covers(lo, a, Bucket(lo, a[n].ns));
      var p :| 0 <= p < |b| && Bucket(lo, b[p].ns) == Bucket(lo, a[n].ns);
      WithoutMinute(lo, a, n);
      WithoutMinute(lo, b, p);
      assert a[..n] + a[n + 1..] == a[..n];
      assert SameMinute(lo, a[n], b[p]);
      hide Covers, SameMinute;
      var rest := b[..p] + b[p + 1..];
      MatchFewer(lo, a, b, a[..n], rest);
      hide VolumesMatch;
      SameVolume(lo, a[..n], rest);
      VolumeWithout(b, p);
    }
  }

  ghost predicate VolumesMatch(lo: int, a: seq<Line>, b: seq<Line>) {
    forall x: Line, y: Line :: x in a && y in b && SameMinute(lo, x, y) ==> x.volume == y.volume
  }

  lemma MatchFewer(lo: int, a: seq<Line>, b: seq<Line>, c: seq<Line>, d: seq<Line>)
    requires VolumesMatch(lo, a, b) && Within(c, a) && Within(d, b)
    ensures VolumesMatch(lo, c, d)
  {
    hide SameMinute;
  }

  lemma SomeMinute(lo: int, b: seq<Line>)
    ensures b != [] ==> Covers(lo, b, Bucket(lo, b[0].ns))
  {
  }

  lemma WithoutMinute(lo: int, a: seq<Line>, n: nat)
    requires OnePerMinute(lo, a) && n < |a|
    ensures var rest := a[..n] + a[n + 1..];
            && OnePerMinute(lo, rest) && Within(rest, a)
            && forall k: int :: Covers(lo, rest, k) <==> Covers(lo, a, k) && k != Bucket(lo, a[n].ns)
  {
    var rest := a[..n] + a[n + 1..];
    forall k: int ensures Covers(lo, rest, k) <==> Covers(lo, a, k) && k != Bucket(lo, a[n].ns) {
      CoversWithout(lo, a, n, k);
    }
    hide Bucket, Covers;
    assert forall i :: 0 <= i < |rest| ==> rest[i] == a[if i < n then i else i + 1];
  }

  lemma CoversWithout(lo: int, a: seq<Line>, n: nat, k: int)
    requires OnePerMinute(lo, a) && n < |a|
    ensures Covers(lo, a[..n] + a[n + 1..], k) <==> Covers(lo, a, k) && k != Bucket(lo, a[n].ns)
  {
    hide Bucket;
    var rest := a[..n] + a[n + 1..];
    if Covers(lo, rest, k) {
      var j :| 0 <= j < |rest| && Bucket(lo, rest[j].ns) == k;
      assert rest[j] == a[if j < n then j else j + 1];
    }
    if Covers(lo, a, k) && k != Bucket(lo, a[n].ns) {
      var i :| 0 <= i < |a| && Bucket(lo, a[i].ns) == k;
      assert rest[if i < n then i else i - 1] == a[i];
    }
  }

  lemma VolumeWithout(b: seq<Line>, p: nat)
    requires p < |b|
    ensures Volume(b) == Volume(b[..p] + b[p + 1..]) + b[p].volume
  {
    Without(b, p);
    VolumeJoin(b[..p], b[p + 1..]);
    VolumeJoin(b[..p] + [b[p]], b[p + 1..]);
    VolumeJoin(b[..p], [b[p]]);
    assert Volume([b[p]]) == Volume([]) + b[p].volume;
  }

  lemma SameFolds(lo: int, a: seq<Line>, b: seq<Line>, ls: seq<Line>)
    requires Picks(lo, a, ls) && Picks(lo, b, ls) && Indifferent(lo, ls)
    requires a != [] && b != [] && AllInSession(lo, a) && AllInSession(lo, b)
    ensures SameNumbers(Fold(lo, a), Fold(lo, b))
  {
    FoldSummarises(lo, a);
    FoldSummarises(lo, b);
    var s, t := Fold(lo, a), Fold(lo, b);
    hide Fold, Times, Leads, Marks, Volume, AllInSession, Unmixed, SureExtreme, EndsAgree, PriceSettled, Bucket, Covers;
    SameTimes(lo, s, t, a, b, ls);
    SameLead(lo, s.high, t.high, a, b, ls, true);
    SameLead(lo, s.low, t.low, a, b, ls, false);
    SameMarks(s, t, lo, a, b, ls);
    MatchFewer(lo, ls, ls, a, b);
    SameVolume(lo, a, b);
  }

  /** The two files fold the symbol to the same bar, or neither has one. */
  ghost predicate SameBar(lo: int, rows: seq<Row>, other: seq<Row>, symbol: int) {
    var a, b := Of(Kept(lo, rows), symbol), Of(Kept(lo, other), symbol);
    && (a == [] <==> b == [])
    && (a != [] ==> AllInSession(lo, a) && AllInSession(lo, b) && SameNumbers(Fold(lo, a), Fold(lo, b)))
  }

  /** Any order of these rows gives the symbol the same bar. */
  ghost predicate OrderFree(lo: int, m: multiset<Row>, symbol: int) {
    forall rows, other :: multiset(rows) == m && multiset(other) == m ==> SameBar(lo, rows, other, symbol)
  }

  lemma IndifferentIsFree(lo: int, rows: seq<Row>, other: seq<Row>, symbol: int)
    requires multiset(rows) == multiset(other) && Indifferent(lo, SymbolLines(lo, rows, symbol))
    ensures SameBar(lo, rows, other, symbol)
  {
    hide Indifferent, Fold, Picks, Kept, Of;
    var ls, a, b := SymbolLines(lo, rows, symbol), Of(Kept(lo, rows), symbol), Of(Kept(lo, other), symbol);
    KeptPicks(lo, rows, symbol);
    KeptPicks(lo, other, symbol);
    SameLines(lo, rows, other, symbol);
    SameMembers(ls, SymbolLines(lo, other, symbol));
    PicksOfSame(lo, b, SymbolLines(lo, other, symbol), ls);
    hide SymbolLines;
    EmptyTogether(lo, a, b, ls);
    if a != [] { SameFolds(lo, a, b, ls); }
  }

  lemma EmptyTogether(lo: int, a: seq<Line>, b: seq<Line>, ls: seq<Line>)
    requires Picks(lo, a, ls) && Picks(lo, b, ls)
    ensures a == [] <==> b == []
  {
    hide Bucket;
    if a != [] { var y := PickOf(lo, b, ls, a[0]); }
    if b != [] { var y := PickOf(lo, a, ls, b[0]); }
  }

  // ---- and it is needed ------------------------------------------------------------------------

  /** Two beginnings that cover the same minutes go on alike. */
  lemma {:induction false} KeptAfter(lo: int, p: seq<Row>, q: seq<Row>, rest: seq<Row>, symbol: int)
    returns (t: seq<Line>)
    requires forall k: int :: Covers(lo, Of(Kept(lo, p), symbol), k) <==> Covers(lo, Of(Kept(lo, q), symbol), k)
    ensures Of(Kept(lo, p + rest), symbol) == Of(Kept(lo, p), symbol) + t
    ensures Of(Kept(lo, q + rest), symbol) == Of(Kept(lo, q), symbol) + t
    decreases |rest|
  {
    hide Covers, Kept, Of, IsOf, Bucket;
    t := [];
    if rest == [] {
      assert p + rest == p && q + rest == q;
    } else {
      var n := |rest| - 1;
      t := KeptAfter(lo, p, q, rest[..n], symbol);
      assert (p + rest)[..|p + rest| - 1] == p + rest[..n] && (q + rest)[..|q + rest| - 1] == q + rest[..n];
      GoesOn(lo, p + rest, symbol, Of(Kept(lo, p), symbol), t);
      GoesOn(lo, q + rest, symbol, Of(Kept(lo, q), symbol), t);
      t := Next(lo, Of(Kept(lo, p), symbol), t, rest[n], symbol);
    }
  }

  function Next(lo: int, a: seq<Line>, t: seq<Line>, r: Row, symbol: int): seq<Line> {
    if IsOf(lo, r, symbol) && !Covers(lo, a, Bucket(lo, r.line.ns)) && !Covers(lo, t, Bucket(lo, r.line.ns))
    then t + [r.line] else t
  }

  lemma GoesOn(lo: int, rows: seq<Row>, symbol: int, a: seq<Line>, t: seq<Line>)
    requires rows != [] && Of(Kept(lo, rows[..|rows| - 1]), symbol) == a + t
    ensures Of(Kept(lo, rows), symbol) == a + Next(lo, a, t, rows[|rows| - 1], symbol)
  {
    hide Kept, Of, Covers, Candidate, Bucket;
    LastRow(lo, rows, symbol);
    var r := rows[|rows| - 1];
    if IsOf(lo, r, symbol) {
      CoversConcat(lo, a, t, Bucket(lo, r.line.ns));
      assert a + (t + [r.line]) == a + t + [r.line];
    }
  }

  lemma {:induction false} CoversConcat(lo: int, a: seq<Line>, b: seq<Line>, k: int)
    ensures Covers(lo, a + b, k) <==> Covers(lo, a, k) || Covers(lo, b, k)
    decreases |b|
  {
    if b == [] {
      assert a + b == a;
      assert !Covers(lo, b, k);
    } else {
      var n := |b| - 1;
      assert a + b == a + b[..n] + [b[n]] && b == b[..n] + [b[n]];
      CoversConcat(lo, a, b[..n], k);
      CoversGrows(lo, a + b[..n], b[n], k);
      CoversGrows(lo, b[..n], b[n], k);
    }
  }

  lemma FirstRow(lo: int, r: Row, symbol: int)
    requires IsOf(lo, r, symbol)
    ensures Of(Kept(lo, [r]), symbol) == [r.line]
  {
    LastRow(lo, [r], symbol);
    assert [r][..0] == [];
  }

  lemma SecondRow(lo: int, r: Row, s: Row, symbol: int)
    requires IsOf(lo, r, symbol) && IsOf(lo, s, symbol) && SameMinute(lo, r.line, s.line)
    ensures Of(Kept(lo, [r, s]), symbol) == [r.line]
  {
    FirstRow(lo, r, symbol);
    LastRow(lo, [r, s], symbol);
    assert [r, s][..1] == [r];
    assert [r.line][0] == r.line;
  }

  /** An order with that line of the symbol first. */
  lemma Front(lo: int, rows: seq<Row>, symbol: int, x: Line) returns (a: seq<Row>, t: seq<Line>)
    requires x in SymbolLines(lo, rows, symbol)
    ensures multiset(a) == multiset(rows) && Of(Kept(lo, a), symbol) == [x] + t
  {
    hide Kept, Of, Covers, SymbolLines, Candidate;
    var p := RowOf(lo, rows, symbol, x);
    var rest := rows[..p] + rows[p + 1..];
    Without(rows, p);
    a := [rows[p]] + rest;
    FirstRow(lo, rows[p], symbol);
    t := KeptAfter(lo, [rows[p]], [rows[p]], rest, symbol);
  }

  /** Two orders alike but for which of two lines of a minute comes first. */
  lemma Swap(lo: int, rows: seq<Row>, symbol: int, x: Line, y: Line)
    returns (a: seq<Row>, b: seq<Row>, t: seq<Line>)
    requires x in SymbolLines(lo, rows, symbol) && y in SymbolLines(lo, rows, symbol) && SameMinute(lo, x, y)
    ensures multiset(a) == multiset(rows) == multiset(b)
    ensures Of(Kept(lo, a), symbol) == [x] + t && Of(Kept(lo, b), symbol) == [y] + t
  {
    if x == y {
      a, t := Front(lo, rows, symbol, x);
      b := a;
    } else {
      hide Kept, Of, Covers, SymbolLines, Candidate, Bucket;
      var r, u, rest := TakeTwo(lo, rows, symbol, x, y);
      SecondRow(lo, r, u, symbol);
      SecondRow(lo, u, r, symbol);
      a, b := [r, u] + rest, [u, r] + rest;
      SwapCovers(lo, x, y);
      t := KeptAfter(lo, [r, u], [u, r], rest, symbol);
    }
  }

  lemma SwapCovers(lo: int, x: Line, y: Line)
    requires SameMinute(lo, x, y)
    ensures forall k: int :: Covers(lo, [x], k) <==> Covers(lo, [y], k)
  {
    hide Bucket;
    assert [x][0] == x && [y][0] == y;
  }

  lemma TakeTwo(lo: int, rows: seq<Row>, symbol: int, x: Line, y: Line) returns (r: Row, u: Row, rest: seq<Row>)
    requires x in SymbolLines(lo, rows, symbol) && y in SymbolLines(lo, rows, symbol) && x != y
    ensures IsOf(lo, r, symbol) && r.line == x && IsOf(lo, u, symbol) && u.line == y
    ensures multiset([r, u] + rest) == multiset(rows) == multiset([u, r] + rest)
  {
    hide SymbolLines, Candidate;
    var p := RowOf(lo, rows, symbol, x);
    var q := RowOf(lo, rows, symbol, y);
    r, u := rows[p], rows[q];
    rest := TakeBoth(rows, r, u);
  }

  lemma TakeBoth(rows: seq<Row>, r: Row, u: Row) returns (rest: seq<Row>)
    requires r in rows && u in rows && r != u
    ensures multiset([r, u] + rest) == multiset(rows) == multiset([u, r] + rest)
  {
    var others := Take(rows, r);
    assert u in multiset(rows);
    assert u in multiset(others);
    rest := Take(others, u);
    Together(r, u, rest);
    Together(u, r, rest);
  }

  lemma Take(rows: seq<Row>, r: Row) returns (rest: seq<Row>)
    requires r in rows
    ensures multiset(rows) == multiset{r} + multiset(rest)
  {
    var p :| 0 <= p < |rows| && rows[p] == r;
    rest := rows[..p] + rows[p + 1..];
    Without(rows, p);
  }

  lemma Together(r: Row, u: Row, rest: seq<Row>)
    ensures multiset([r, u] + rest) == multiset{r} + multiset{u} + multiset(rest)
  {
  }

  lemma PicksOfOrder(lo: int, rows: seq<Row>, a: seq<Row>, symbol: int)
    requires multiset(a) == multiset(rows)
    ensures Picks(lo, Of(Kept(lo, a), symbol), SymbolLines(lo, rows, symbol))
  {
    hide Picks, Kept, Of, SymbolLines;
    KeptPicks(lo, a, symbol);
    SameLines(lo, a, rows, symbol);
    SameMembers(SymbolLines(lo, a, symbol), SymbolLines(lo, rows, symbol));
    PicksOfSame(lo, Of(Kept(lo, a), symbol), SymbolLines(lo, a, symbol), SymbolLines(lo, rows, symbol));
  }

  /** The bars of two orders. */
  lemma TwoBars(lo: int, a: seq<Row>, b: seq<Row>, symbol: int) returns (s: Summary, u: Summary)
    requires SameBar(lo, a, b, symbol) && Of(Kept(lo, a), symbol) != []
    ensures Summarises(s, lo, Of(Kept(lo, a), symbol)) && Summarises(u, lo, Of(Kept(lo, b), symbol))
    ensures SameNumbers(s, u)
  {
    hide Fold, Summarises;
    var x, y := Of(Kept(lo, a), symbol), Of(Kept(lo, b), symbol);
    FoldSummarises(lo, x);
    FoldSummarises(lo, y);
    s, u := Fold(lo, x), Fold(lo, y);
  }

  /** What the order of two lines of a minute leaves the same. */
  lemma Swapped(lo: int, rows: seq<Row>, symbol: int, x: Line, y: Line)
    returns (t: seq<Line>, s: Summary, u: Summary)
    requires OrderFree(lo, multiset(rows), symbol)
    requires x in SymbolLines(lo, rows, symbol) && y in SymbolLines(lo, rows, symbol) && SameMinute(lo, x, y)
    ensures Summarises(s, lo, [x] + t) && Summarises(u, lo, [y] + t) && SameNumbers(s, u)
    ensures Picks(lo, [x] + t, SymbolLines(lo, rows, symbol))
  {
    hide SameBar, Summarises, Picks, Kept, Of, SymbolLines, Bucket;
    var a, b;
    a, b, t := Swap(lo, rows, symbol, x, y);
    PicksOfOrder(lo, rows, a, symbol);
    s, u := TwoBars(lo, a, b, symbol);
  }

  lemma VolumesMust(lo: int, rows: seq<Row>, symbol: int)
    requires OrderFree(lo, multiset(rows), symbol)
    ensures VolumesAgree(lo, SymbolLines(lo, rows, symbol))
  {
    hide OrderFree, SymbolLines, Times, Extremes, Marks;
    var ls := SymbolLines(lo, rows, symbol);
    forall x: Line, y: Line | x in ls && y in ls && SameMinute(lo, x, y) ensures x.volume == y.volume {
      var t, s, u := Swapped(lo, rows, symbol, x, y);
      VolumeJoin([x], t);
      VolumeJoin([y], t);
      assert [x][..0] == [] == [y][..0];
      assert Volume([x]) == x.volume && Volume([y]) == y.volume;
    }
  }

  lemma EndsMust(lo: int, rows: seq<Row>, symbol: int, first: bool)
    requires OrderFree(lo, multiset(rows), symbol)
    ensures EndsAgree(lo, SymbolLines(lo, rows, symbol), first)
  {
    hide OrderFree, SymbolLines, Extremes, Marks, Times, Bucket, Volume, Picks;
    var ls := SymbolLines(lo, rows, symbol);
    forall x: Line, y: Line | x in ls && y in ls && SameMinute(lo, x, y) && Outermost(lo, ls, x, first)
      ensures x.ns == y.ns && if first then x.open == y.open else x.close == y.close
    {
      var t, s, u := Swapped(lo, rows, symbol, x, y);
      AloneAtTheEnd(lo, ls, x, y, t, first);
      EndOf(s, x, t, first);
      EndOf(u, y, t, first);
    }
  }

  lemma AloneAtTheEnd(lo: int, ls: seq<Line>, x: Line, y: Line, t: seq<Line>, first: bool)
    requires Picks(lo, [x] + t, ls) && SameMinute(lo, x, y) && Outermost(lo, ls, x, first)
    ensures forall z :: z in t ==> if first then x.ns < z.ns && y.ns < z.ns else z.ns < x.ns && z.ns < y.ns
  {
    hide Bucket, Covers;
    forall z | z in t ensures if first then x.ns < z.ns && y.ns < z.ns else z.ns < x.ns && z.ns < y.ns {
      var i :| 0 <= i < |t| && t[i] == z;
      var a := [x] + t;
      assert a[0] == x && a[i + 1] == z;
      assert z in a;
      Strict(lo, x, z, first);
      Strict(lo, y, z, first);
    }
  }

  lemma Strict(lo: int, x: Line, z: Line, first: bool)
    requires if first then Bucket(lo, x.ns) < Bucket(lo, z.ns) else Bucket(lo, z.ns) < Bucket(lo, x.ns)
    ensures if first then x.ns < z.ns else z.ns < x.ns
  {
    hide Bucket;
    if first {
      if z.ns <= x.ns { Monotone(lo, z.ns, x.ns); }
    } else {
      if x.ns <= z.ns { Monotone(lo, x.ns, z.ns); }
    }
  }

  lemma EndOf(s: Summary, x: Line, t: seq<Line>, first: bool)
    requires Times(s, [x] + t) && forall z :: z in t ==> if first then x.ns < z.ns else z.ns < x.ns
    ensures if first then s.firstNs == x.ns && s.open == x.open else s.lastNs == x.ns && s.close == x.close
  {
    var a := [x] + t;
    assert a[0] == x;
    forall i | 0 < i < |a| ensures a[i] in t { assert a[i] == t[i - 1]; }
  }

  lemma LeadOf(s: Summary, lo: int, ls: seq<Line>, high: bool) returns (q: Quote)
    requires Summarises(s, lo, ls)
    ensures q == (if high then s.high else s.low) && Leads(q, ls, high)
  {
    q := if high then s.high else s.low;
    hide Leads, Times, Marks, Volume;
  }

  /** A price that is no number in front, or a number in front. */
  lemma UnmixedMust(lo: int, rows: seq<Row>, symbol: int, high: bool)
    requires OrderFree(lo, multiset(rows), symbol)
    ensures Unmixed(SymbolLines(lo, rows, symbol), high)
  {
    hide SymbolLines, Summarises, Kept, Of, SameBar;
    var ls := SymbolLines(lo, rows, symbol);
    forall x: Line, y: Line | x in ls && y in ls ensures Price(x, high).num.NaN? <==> Price(y, high).num.NaN? {
      var a, t := Front(lo, rows, symbol, x);
      var b, w := Front(lo, rows, symbol, y);
      var s, u := TwoBars(lo, a, b, symbol);
      var q := LeadOf(s, lo, [x] + t, high);
      var p := LeadOf(u, lo, [y] + w, high);
      LeadIsNumber(q, [x] + t, high);
      LeadIsNumber(p, [y] + w, high);
    }
  }

  lemma LeadIsNumber(q: Quote, ls: seq<Line>, high: bool)
    requires Leads(q, ls, high)
    ensures ls != [] && (q.num.NaN? <==> Price(ls[0], high).num.NaN?)
  {
    hide Price, Beats;
  }

  lemma AnUnbeaten(lo: int, ls: seq<Line>, high: bool) returns (x: Line)
    requires ls != [] && AllInSession(lo, ls) && Unmixed(ls, high)
    ensures x in ls && Unbeaten(ls, x, high)
  {
    FoldSummarises(lo, ls);
    var q := LeadOf(Fold(lo, ls), lo, ls, high);
    x := LeadingLine(q, ls, high);
  }

  lemma LeadingLine(q: Quote, ls: seq<Line>, high: bool) returns (x: Line)
    requires Leads(q, ls, high) && Unmixed(ls, high)
    ensures x in ls && Price(x, high).num == q.num && Unbeaten(ls, x, high)
  {
    hide Price, Below;
    x := ls[0];
    if Price(x, high).num.NaN? {
      forall z: Line | z in ls ensures !Beats(Price(z, high).num, Price(x, high).num, high) {
        Irreflexive(Price(z, high).num, Price(x, high).num, high);
      }
    } else {
      var i: nat :| i < |ls| && FirstToReach(q, ls, i, high);
      x := ls[i];
      forall z: Line | z in ls ensures !Beats(Price(z, high).num, Price(x, high).num, high) {
        var j :| 0 <= j < |ls| && ls[j] == z;
      }
    }
  }

  ghost predicate IsBeaten(lo: int, r: Row, symbol: int, ls: seq<Line>, high: bool) {
    IsOf(lo, r, symbol) && !Unbeaten(ls, r.line, high)
  }

  /** The rows of the symbol that are beaten, or all the others. */
  ghost function Part(lo: int, rows: seq<Row>, symbol: int, ls: seq<Line>, high: bool, beaten: bool): (p: seq<Row>)
    ensures forall r :: r in p <==> r in rows && IsBeaten(lo, r, symbol, ls, high) == beaten
  {
    if rows == [] then []
    else
      var r := rows[0];
      assert rows == [r] + rows[1..];
      (if IsBeaten(lo, r, symbol, ls, high) == beaten then [r] else [])
      + Part(lo, rows[1..], symbol, ls, high, beaten)
  }

  lemma {:induction false} PartsMakeAll(lo: int, rows: seq<Row>, symbol: int, ls: seq<Line>, high: bool)
    ensures multiset(Part(lo, rows, symbol, ls, high, true) + Part(lo, rows, symbol, ls, high, false)) == multiset(rows)
  {
    hide IsBeaten;
    if rows != [] {
      assert rows == [rows[0]] + rows[1..];
      PartsMakeAll(lo, rows[1..], symbol, ls, high);
    }
  }

  lemma {:induction false} LineOf(lo: int, rows: seq<Row>, symbol: int, r: Row)
    requires r in rows && IsOf(lo, r, symbol)
    ensures r.line in SymbolLines(lo, rows, symbol)
    decreases |rows|
  {
    var n := |rows| - 1;
    if r != rows[n] {
      assert r in rows[..n];
      LineOf(lo, rows[..n], symbol, r);
    }
  }

  lemma BeatenLine(lo: int, rows: seq<Row>, symbol: int, high: bool, x: Line)
    requires var ls := SymbolLines(lo, rows, symbol);
             x in SymbolLines(lo, Part(lo, rows, symbol, ls, high, true), symbol)
    ensures var ls := SymbolLines(lo, rows, symbol); x in ls && !Unbeaten(ls, x, high)
  {
    hide SymbolLines, Candidate, Unbeaten;
    var ls := SymbolLines(lo, rows, symbol);
    var p := Part(lo, rows, symbol, ls, high, true);
    var i := RowOf(lo, p, symbol, x);
    assert p[i] in p;
    LineOf(lo, rows, symbol, p[i]);
  }

  lemma NotSure(lo: int, ls: seq<Line>, x: Line, high: bool) returns (y: Line)
    requires !Sure(lo, ls, x, high)
    ensures y in ls && SameMinute(lo, x, y) && !Unbeaten(ls, y, high)
  {
    hide SameMinute, Unbeaten;
    y :| y in ls && SameMinute(lo, x, y) && !Unbeaten(ls, y, high);
  }

  lemma BeatenInMinute(lo: int, rows: seq<Row>, symbol: int, high: bool, x: Line) returns (y: Line)
    requires var ls := SymbolLines(lo, rows, symbol); x in ls && !SureExtreme(lo, ls, high)
    ensures var ls := SymbolLines(lo, rows, symbol);
            y in SymbolLines(lo, Part(lo, rows, symbol, ls, high, true), symbol) && SameMinute(lo, x, y)
  {
    hide SymbolLines, Candidate, Unbeaten, SameMinute, Sure;
    var ls := SymbolLines(lo, rows, symbol);
    y := NotSure(lo, ls, x, high);
    var i := RowOf(lo, rows, symbol, y);
    assert IsBeaten(lo, rows[i], symbol, ls, high);
    LineOf(lo, Part(lo, rows, symbol, ls, high, true), symbol, rows[i]);
  }

  /** If every minute has a beaten line, in some order only beaten lines are kept. */
  lemma BeatenFirst(lo: int, rows: seq<Row>, symbol: int, high: bool) returns (a: seq<Row>)
    requires !SureExtreme(lo, SymbolLines(lo, rows, symbol), high)
    ensures multiset(a) == multiset(rows)
    ensures var ls := SymbolLines(lo, rows, symbol);
            forall x :: x in Of(Kept(lo, a), symbol) ==> x in ls && !Unbeaten(ls, x, high)
  {
    hide SymbolLines, Kept, Of, Covers, IsBeaten, Bucket, Unbeaten, SureExtreme;
    var ls := SymbolLines(lo, rows, symbol);
    var p, rest := Part(lo, rows, symbol, ls, high, true), Part(lo, rows, symbol, ls, high, false);
    PartsMakeAll(lo, rows, symbol, ls, high);
    a := p + rest;
    var t := KeptAfter(lo, p, p, rest, symbol);
    PicksOfOrder(lo, rows, a, symbol);
    KeptPicks(lo, p, symbol);
    var k := Of(Kept(lo, p), symbol);
    hide Picks;
    if t != [] {
      NothingMore(lo, rows, symbol, high, k, t);
    }
    assert k + [] == k;
    forall x | x in k ensures x in ls && !Unbeaten(ls, x, high) {
      PickIsOne(lo, k, SymbolLines(lo, p, symbol), x);
      BeatenLine(lo, rows, symbol, high, x);
    }
  }

  lemma PickIsOne(lo: int, a: seq<Line>, ls: seq<Line>, x: Line)
    requires Picks(lo, a, ls) && x in a
    ensures x in ls
  {
  }

  lemma NothingMore(lo: int, rows: seq<Row>, symbol: int, high: bool, k: seq<Line>, t: seq<Line>)
    requires var ls := SymbolLines(lo, rows, symbol);
             && !SureExtreme(lo, ls, high) && Picks(lo, k + t, ls)
             && Picks(lo, k, SymbolLines(lo, Part(lo, rows, symbol, ls, high, true), symbol))
    ensures t == []
  {
    hide SymbolLines, Covers, Bucket, SureExtreme;
    if t != [] {
      var a := k + t;
      assert a[|k|] == t[0] && a[|k|] in a;
      var y := BeatenInMinute(lo, rows, symbol, high, t[0]);
      var p := Part(lo, rows, symbol, SymbolLines(lo, rows, symbol), high, true);
      var z := PickOf(lo, k, SymbolLines(lo, p, symbol), y);
      var i :| 0 <= i < |k| && k[i] == z;
      NotTwice(lo, k, t, i);
    }
  }

  lemma NotTwice(lo: int, k: seq<Line>, t: seq<Line>, i: nat)
    requires OnePerMinute(lo, k + t) && i < |k| && t != []
    ensures !SameMinute(lo, k[i], t[0])
  {
    hide Bucket;
    assert (k + t)[i] == k[i] && (k + t)[|k|] == t[0];
  }

  /** Otherwise one order has the extreme price and another has not. */
  lemma SureMust(lo: int, rows: seq<Row>, symbol: int, high: bool)
    requires OrderFree(lo, multiset(rows), symbol) && SymbolLines(lo, rows, symbol) != []
    ensures SureExtreme(lo, SymbolLines(lo, rows, symbol), high)
  {
    hide SymbolLines, Summarises, Kept, Of, SameBar, SureExtreme, Unmixed;
    var ls := SymbolLines(lo, rows, symbol);
    UnmixedMust(lo, rows, symbol, high);
    if !SureExtreme(lo, ls, high) {
      var x := AnUnbeaten(lo, ls, high);
      var a, t := Front(lo, rows, symbol, x);
      var b := BeatenFirst(lo, rows, symbol, high);
      PicksOfOrder(lo, rows, a, symbol);
      var s, u := TwoBars(lo, a, b, symbol);
      var q := LeadOf(s, lo, [x] + t, high);
      var p := LeadOf(u, lo, Of(Kept(lo, b), symbol), high);
      Disagree(lo, ls, x, t, Of(Kept(lo, b), symbol), q, p, high);
    }
  }

  lemma Disagree(lo: int, ls: seq<Line>, x: Line, t: seq<Line>, b: seq<Line>, q: Quote, p: Quote, high: bool)
    requires Leads(q, [x] + t, high) && Picks(lo, [x] + t, ls) && Unmixed(ls, high) && Unbeaten(ls, x, high)
    requires Leads(p, b, high) && forall y :: y in b ==> y in ls && !Unbeaten(ls, y, high)
    ensures q.num != p.num
  {
    var a := [x] + t;
    assert a[0] == x && a[0] in a;
    hide Price, Beats, Leads, Covers, OnePerMinute;
    forall z | z in a ensures z in ls {}
    LeaderIs(q, a, x, high);
    assert forall y :: y in b ==> y in ls;
    var y := LeadingLine(p, b, high);
    assert !Unbeaten(ls, y, high);
  }

  /** WHEN THE ORDER OF THE ROWS IS IMMATERIAL, for any file: exactly when, of the symbol's sound rows, the
      highs are all numbers or all not, and the lows likewise; some minute has the highest high in every row,
      and some the lowest low; rows of one minute agree on the volume, those of the first minute on time and
      opening price, and those of the last on time and closing price. */
  lemma OrderFreeIff(lo: int, rows: seq<Row>, symbol: int)
    ensures OrderFree(lo, multiset(rows), symbol) <==> Indifferent(lo, SymbolLines(lo, rows, symbol))
  {
    hide SameBar, SymbolLines, SureExtreme, Unmixed, EndsAgree, VolumesAgree;
    var ls := SymbolLines(lo, rows, symbol);
    if Indifferent(lo, ls) {
      forall a, b | multiset(a) == multiset(rows) && multiset(b) == multiset(rows) ensures SameBar(lo, a, b, symbol) {
        IndifferentToo(lo, rows, a, symbol);
        IndifferentIsFree(lo, a, b, symbol);
      }
    }
    if OrderFree(lo, multiset(rows), symbol) {
      forall high ensures PriceSettled(lo, ls, high) {
        UnmixedMust(lo, rows, symbol, high);
        if ls != [] { SureMust(lo, rows, symbol, high); }
      }
      EndsMust(lo, rows, symbol, true);
      EndsMust(lo, rows, symbol, false);
      VolumesMust(lo, rows, symbol);
    }
  }

  lemma IndifferentToo(lo: int, rows: seq<Row>, a: seq<Row>, symbol: int)
    requires multiset(a) == multiset(rows) && Indifferent(lo, SymbolLines(lo, rows, symbol))
    ensures Indifferent(lo, SymbolLines(lo, a, symbol))
  {
    var ls, ms := SymbolLines(lo, rows, symbol), SymbolLines(lo, a, symbol);
    SameLines(lo, rows, a, symbol);
    SameMembers(ls, ms);
    hide SymbolLines, Bucket, Price, Beats;
    SettledToo(lo, ls, ms, true);
    SettledToo(lo, ls, ms, false);
    hide PriceSettled;
    forall x: Line, first | x in ms && Outermost(lo, ms, x, first) ensures Outermost(lo, ls, x, first) {}
  }

  lemma SettledToo(lo: int, ls: seq<Line>, ms: seq<Line>, high: bool)
    requires PriceSettled(lo, ls, high) && Within(ls, ms) && Within(ms, ls)
    ensures PriceSettled(lo, ms, high)
  {
    hide Unmixed, Sure, Within;
    UnmixedToo(ls, ms, high);
    if ms != [] {
      Member(ms, ls, ms[0]);
      var x: Line :| x in ls && Sure(lo, ls, x, high);
      Member(ls, ms, x);
      SureToo(lo, ls, ms, x, high);
    }
  }

  ghost predicate Within(ls: seq<Line>, ms: seq<Line>) {
    forall x: Line :: x in ls ==> x in ms
  }

  lemma Member(ls: seq<Line>, ms: seq<Line>, x: Line)
    requires Within(ls, ms) && x in ls
    ensures x in ms
  {
  }

  lemma SureToo(lo: int, ls: seq<Line>, ms: seq<Line>, x: Line, high: bool)
    requires Sure(lo, ls, x, high) && Within(ms, ls)
    ensures Sure(lo, ms, x, high)
  {
    hide SameMinute, Unbeaten, Within;
    forall y: Line | y in ms && SameMinute(lo, x, y) ensures Unbeaten(ms, y, high) {
      Member(ms, ls, y);
      UnbeatenToo(ls, ms, y, high);
    }
  }

  lemma UnmixedToo(ls: seq<Line>, ms: seq<Line>, high: bool)
    requires Unmixed(ls, high) && Within(ms, ls)
    ensures Unmixed(ms, high)
  {
    hide Price;
  }

  lemma UnbeatenToo(ls: seq<Line>, ms: seq<Line>, y: Line, high: bool)
    requires Unbeaten(ls, y, high) && Within(ms, ls)
    ensures Unbeaten(ms, y, high)
  {
    hide Price, Beats;
  }

  // ---- files without duplicates ----------------------------------------------------------------

  /** Rows of one minute carry the same line. */
  ghost predicate Once(lo: int, ls: seq<Line>) {
    forall x: Line, y: Line :: x in ls && y in ls && SameMinute(lo, x, y) ==> x == y
  }

  /** Then it is only the prices that are no numbers: a first one is never replaced, a later one never taken. */
  lemma OrderFreeOnce(lo: int, rows: seq<Row>, symbol: int)
    requires Once(lo, SymbolLines(lo, rows, symbol))
    ensures OrderFree(lo, multiset(rows), symbol)
            <==> Unmixed(SymbolLines(lo, rows, symbol), true) && Unmixed(SymbolLines(lo, rows, symbol), false)
  {
    OrderFreeIff(lo, rows, symbol);
    hide OrderFree;
    var ls := SymbolLines(lo, rows, symbol);
    forall high | ls != [] && Unmixed(ls, high) ensures SureExtreme(lo, ls, high) {
      var x := AnUnbeaten(lo, ls, high);
      hide Unbeaten, Unmixed;
      assert Sure(lo, ls, x, high);
    }
  }
}
