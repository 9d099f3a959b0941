/** The rows of a day file and the bars aggregate_file of db/load_daily_bars.py makes of them, told in
    nanoseconds: which row counts for which minute, which are skipped, and what the mask says. */
module BarRows {
  import opened BarFold

  /** Neither zero nor below: a text that is no number passes. */
  predicate NotZeroOrLess(n: Number) {
    match n
    case NaN => true
    case Infinite(positive) => positive
    case Finite(x) => x > 0.0
  }

  /** The high is not seen to lie under the low. */
  predicate InOrder(high: Number, low: Number) {
    || high.NaN? || low.NaN? || high == Infinite(true) || low == Infinite(false)
    || (high.Finite? && low.Finite? && low.x <= high.x)
  }

  predicate Good(r: Row) {
    && r.Row? && r.symbolOk && r.numbersOk && 0 <= r.line.volume
    && NotZeroOrLess(r.line.low.num) && InOrder(r.line.high.num, r.line.low.num)
  }

  lemma SoundMeans(r: Row)
    ensures Sound(r) <==> Good(r)
  {
  }

  /** The row is sound, of that symbol, and in the k-th minute of the session, whose last minute counts only
      with its start. */
  predicate FallsIn(lo: int, r: Row, symbol: int, k: int) {
    && r.Row? && Good(r) && r.line.symbol == symbol && 0 <= k < 390
    && lo + 60_000_000_000 * k <= r.line.ns < lo + 60_000_000_000 * (k + 1)
    && r.line.ns <= lo + 389 * 60_000_000_000
  }

  lemma ClaimsMeans(lo: int, r: Row, symbol: int, k: int)
    ensures Claims(lo, r, symbol, k) <==> FallsIn(lo, r, symbol, k)
  {
    SoundMeans(r);
    hide Sound, Good;
    if r.Row? { MinuteMeans(lo, r.line.ns, k); }
  }

  lemma MinuteMeans(lo: int, ns: int, k: int)
    ensures InSession(lo, ns) && Bucket(lo, ns) == k
            <==> 0 <= k < 390 && lo + 60_000_000_000 * k <= ns < lo + 60_000_000_000 * (k + 1)
                 && ns <= lo + 389 * 60_000_000_000
  {
  }

  ghost function TwoTo(k: nat): nat {
    if k == 0 then 1 else 2 * TwoTo(k - 1)
  }

  /** Bit k is the k-th binary digit. */
  lemma {:induction false} HasBitMeans(mask: nat, k: nat)
    ensures TwoTo(k) > 0 && (HasBit(mask, k) <==> mask / TwoTo(k) % 2 == 1)
  {
    if k > 0 {
      HasBitMeans(mask / 2, k - 1);
      HalfOf(mask, TwoTo(k - 1));
    }
  }

  lemma HalfOf(m: nat, p: nat)
    requires p > 0
    ensures m / 2 / p == m / (2 * p)
  {
    var q, r := m / 2 / p, m / 2 % p;
    assert m / 2 == q * p + r;
    var rest := 2 * r + m % 2;
    assert m == q * (2 * p) + rest && 0 <= rest < 2 * p;
    Quotient(m, 2 * p, q, rest);
  }

  lemma Quotient(m: nat, d: nat, q: nat, r: nat)
    requires d > 0 && m == q * d + r && r < d
    ensures m / d == q
  {
    var x, rest := m / d, m % d;
    assert m == x * d + rest;
    if x > q { Times(q + 1, x, d); } else if x < q { Times(x + 1, q, d); }
  }

  lemma Times(a: int, b: int, d: int)
    requires a <= b && d >= 0
    ensures a * d <= b * d
  {
  }

  /** THE MASK. A symbol has a bar exactly if some row falls into one of its minutes, and bit k is set exactly
      if some row falls into minute k. */
  lemma MaskMeans(lo: int, rows: seq<Row>, views: map<int, Summary>, symbol: int)
    requires AreFolds(views, lo, Kept(lo, rows))
    ensures symbol in views <==> exists i, k :: 0 <= i < |rows| && FallsIn(lo, rows[i], symbol, k)
    ensures symbol in views ==>
              forall k: nat :: HasBit(views[symbol].mask, k)
                               <==> exists i :: 0 <= i < |rows| && FallsIn(lo, rows[i], symbol, k)
  {
    hide Kept, Of, FallsIn, Claims, HasBit, Covers, Fold;
    var ls := Of(Kept(lo, rows), symbol);
    forall k: int ensures Covers(lo, ls, k) <==> exists i :: 0 <= i < |rows| && FallsIn(lo, rows[i], symbol, k) {
      CoveredMeans(lo, rows, symbol, k);
      forall i | 0 <= i < |rows| ensures Claims(lo, rows[i], symbol, k) <==> FallsIn(lo, rows[i], symbol, k) {
        ClaimsMeans(lo, rows[i], symbol, k);
      }
    }
    if symbol in views {
      forall k: nat ensures HasBit(views[symbol].mask, k) <==> Covers(lo, ls, k) {
        MaskTells(views[symbol], lo, ls, k);
      }
      FirstCovers(lo, ls);
    } else {
      NothingCovered(lo, ls);
      forall i, k | 0 <= i < |rows| ensures !FallsIn(lo, rows[i], symbol, k) { assert !Covers(lo, ls, k); }
    }
  }

  lemma FirstCovers(lo: int, ls: seq<Line>)
    requires ls != []
    ensures exists k :: Covers(lo, ls, k)
  {
    assert Covers(lo, ls, Bucket(lo, ls[0].ns));
  }

  lemma NothingCovered(lo: int, ls: seq<Line>)
    requires ls == []
    ensures forall k :: !Covers(lo, ls, k)
  {
  }

  /** Row i falls into a minute no earlier row of its symbol falls into. */
  ghost predicate Opens(lo: int, rows: seq<Row>, i: nat)
    requires i < |rows|
  {
    && rows[i].Row?
    && exists k :: FallsIn(lo, rows[i], rows[i].line.symbol, k)
                   && forall j :: 0 <= j < i ==> !FallsIn(lo, rows[j], rows[i].line.symbol, k)
  }

  /** THE FOLDED ROWS are those; in file order, by BarFold.KeptAreFirst. */
  lemma FirstMeans(lo: int, rows: seq<Row>, i: nat)
    requires i < |rows|
    ensures IsFirst(lo, rows, i) <==> Opens(lo, rows, i)
  {
    hide FallsIn, Claims, Good, Sound, InSession, Bucket;
    if rows[i].Row? {
      var symbol, k := rows[i].line.symbol, Bucket(lo, rows[i].line.ns);
      SoundMeans(rows[i]);
      forall j, m | 0 <= j <= i ensures Claims(lo, rows[j], symbol, m) <==> FallsIn(lo, rows[j], symbol, m) {
        ClaimsMeans(lo, rows[j], symbol, m);
      }
      ClaimsOwn(lo, rows[i]);
      if IsFirst(lo, rows, i) {
        forall j | 0 <= j < i ensures !FallsIn(lo, rows[j], symbol, k) { assert rows[..i][j] == rows[j]; }
      }
    }
  }

  /** A row claims its own minute, if any. */
  lemma ClaimsOwn(lo: int, r: Row)
    requires r.Row?
    ensures Candidate(lo, r) <==> Claims(lo, r, r.line.symbol, Bucket(lo, r.line.ns))
    ensures forall k :: Claims(lo, r, r.line.symbol, k) ==> k == Bucket(lo, r.line.ns)
  {
  }

  /** Row i is counted as skipped: without eight columns or a time; or inside the session, and either not sound
      or with an earlier row in its minute. */
  ghost predicate IsSkipped(lo: int, rows: seq<Row>, i: nat)
    requires i < |rows|
  {
    rows[i] == Unreadable
    || (lo <= rows[i].line.ns <= lo + 389 * 60_000_000_000 && !Opens(lo, rows, i))
  }

  ghost function SkippedRows(lo: int, rows: seq<Row>): set<int> {
    set i | 0 <= i < |rows| && IsSkipped(lo, rows, i)
  }

  lemma {:induction false} SkippedAre(lo: int, rows: seq<Row>)
    ensures Skipped(lo, rows) == |SkippedRows(lo, rows)|
    decreases |rows|
  {
    if rows != [] {
      hide IsSkipped, Kept, Of, Covers, Bucket, Sound;
      var n := |rows| - 1;
      var before, now := SkippedRows(lo, rows[..n]), SkippedRows(lo, rows);
      SkippedAre(lo, rows[..n]);
      forall i | 0 <= i < n ensures IsSkipped(lo, rows[..n], i) <==> IsSkipped(lo, rows, i) {
        SkippedBefore(lo, rows, i);
      }
      SkippedLast(lo, rows);
      assert now == if IsSkipped(lo, rows, n) then before + {n} else before;
    } else {
      assert SkippedRows(lo, rows) == {};
    }
  }

  lemma SkippedBefore(lo: int, rows: seq<Row>, i: nat)
    requires i < |rows| - 1
    ensures IsSkipped(lo, rows[..|rows| - 1], i) <==> IsSkipped(lo, rows, i)
  {
    var init := rows[..|rows| - 1];
    assert forall j :: 0 <= j <= i ==> init[j] == rows[j];
    hide FallsIn;
    assert Opens(lo, init, i) <==> Opens(lo, rows, i);
  }

  lemma SkippedLast(lo: int, rows: seq<Row>)
    requires rows != []
    ensures var n := |rows| - 1;
            Skipped(lo, rows) == Skipped(lo, rows[..n]) + if IsSkipped(lo, rows, n) then 1 else 0
  {
    var n := |rows| - 1;
    var r := rows[n];
    FirstMeans(lo, rows, n);
    hide Opens, Sound, Covers, Claimed, Bucket, Of, Kept;
    if r.Row? { CoveredMeans(lo, rows[..n], r.line.symbol, Bucket(lo, r.line.ns)); }
  }
}
