/** Splitting one identity at its over-long gaps: the row-level arithmetic of find_latest_gaps and
    _splice_one in db/load_delistings.py. */
module Peeling {
  import opened Wrappers

  datatype Symbol = Symbol(name: string)

  /** A securities row with the dates of its bars and the corporate actions attributed to it. */
  datatype Identity = Identity(symbol: Symbol, firstSeen: Option<int>, delisted: Option<int>,
                               bars: seq<int>, actions: set<nat>)

  ghost predicate Increasing(bars: seq<int>) {
    forall i, j :: 0 <= i < j < |bars| ==> bars[i] < bars[j]
  }

  /** The hole before bar i is longer than the threshold. */
  predicate GapAt(bars: seq<int>, g: int, i: nat) {
    0 < i < |bars| && bars[i] - bars[i - 1] > g
  }

  ghost predicate GapFree(bars: seq<int>, g: int) {
    forall i: nat :: i < |bars| ==> !GapAt(bars, g, i)
  }

  /** The bar after the latest over-long hole among the first n bars; 0 when there is none. */
  function LatestGap(bars: seq<int>, g: int, n: nat): (i: nat)
    requires n <= |bars|
    ensures i == 0 || (i < n && GapAt(bars, g, i))
    ensures forall j: nat :: i < j < n ==> !GapAt(bars, g, j)
    decreases n
  {
    if n == 0 then 0 else if GapAt(bars, g, n - 1) then n - 1 else LatestGap(bars, g, n - 1)
  }

  ghost function Gaps(bars: seq<int>, g: int): nat {
    if |bars| < 2 then 0 else Gaps(bars[..|bars| - 1], g) + (if GapAt(bars, g, |bars| - 1) then 1 else 0)
  }

  /** The pre-gap issuer dies the day after its last bar and loses every action... */
  function Older(x: Identity, i: nat): Identity
    requires 0 < i < |x.bars|
  {
    Identity(x.symbol, x.firstSeen, Some(x.bars[i - 1] + 1), x.bars[..i], {})
  }

  /** ... to the post-gap one, which also inherits the combined row's delisting. */
  function Newer(x: Identity, i: nat): Identity
    requires 0 < i < |x.bars|
  {
    Identity(x.symbol, Some(x.bars[i]), x.delisted, x.bars[i..], x.actions)
  }

  // ---- what the table allows -------------------------------------------------------------------

  /** The securities table's CHECK: no delisting before the first sighting. */
  predicate Legal(x: Identity) {
    x.delisted.Some? && x.firstSeen.Some? ==> x.firstSeen.value <= x.delisted.value
  }

  /** Both rows of a splice pass it; otherwise the statement fails and nothing is changed. */
  predicate Storable(x: Identity, i: nat): (passes: bool)
    requires 0 < i < |x.bars|
    ensures passes <==> (x.firstSeen.Some? ==> x.firstSeen.value <= x.bars[i - 1] + 1)
                        && (x.delisted.Some? ==> x.bars[i] <= x.delisted.value)
  {
    Legal(Older(x, i)) && Legal(Newer(x, i))
  }

  /** The first n splices of a row, latest gap first, all pass. */
  predicate Peelable(x: Identity, g: int, n: nat)
    decreases n
  {
    var i := LatestGap(x.bars, g, |x.bars|);
    n == 0 || i == 0 || (Storable(x, i) && Peelable(Older(x, i), g, n - 1))
  }

  /** How many over-long gaps there are from bar i on. */
  ghost function GapsFrom(bars: seq<int>, g: int, i: nat): int
    requires i <= |bars|
  {
    Gaps(bars, g) - Gaps(bars[..i], g)
  }

  /** Each of a row's n latest gaps is one the row could be spliced at. */
  ghost predicate Splittable(x: Identity, g: int, n: nat) {
    forall i: nat :: GapAt(x.bars, g, i) && GapsFrom(x.bars, g, i) <= n ==> Storable(x, i)
  }

  /** THE CONDITION, in terms of the row alone: the first n splices pass if and only if, at each of the n
      latest gaps, the row was first seen by the day after the gap's start and delisted, if at all, no
      earlier than its end. */
  lemma {:induction false} PeelableIff(x: Identity, g: int, n: nat)
    requires Increasing(x.bars)
    ensures Peelable(x, g, n) <==> Splittable(x, g, n)
    decreases n
  {
    hide Splittable, Storable, LatestGap;
    var i := LatestGap(x.bars, g, |x.bars|);
    if n == 0 || i == 0 {
      NothingToSplit(x, g, n);
    } else {
      PeelableIff(Older(x, i), g, n - 1);
      SplittableStep(x, g, i, n);
    }
  }

  lemma NothingToSplit(x: Identity, g: int, n: nat)
    requires n == 0 || LatestGap(x.bars, g, |x.bars|) == 0
    ensures Splittable(x, g, n)
  {
    forall j: nat | GapAt(x.bars, g, j) ensures GapsFrom(x.bars, g, j) >= 1 {
      OneGapFrom(x.bars, g, j);
    }
    hide GapsFrom;
  }

  /** The latest gap and the gaps before it. */
  lemma SplittableStep(x: Identity, g: int, i: nat, n: nat)
    requires Increasing(x.bars) && i == LatestGap(x.bars, g, |x.bars|) && 0 < i < |x.bars| && n > 0
    ensures Splittable(x, g, n) <==> Storable(x, i) && Splittable(Older(x, i), g, n - 1)
  {
    var older := Older(x, i);
    OneGapLeft(x.bars, g, i);
    assert GapAt(x.bars, g, i);
    forall j: nat
      ensures GapAt(x.bars, g, j) ==> j <= i
      ensures GapAt(older.bars, g, j) <==> GapAt(x.bars, g, j) && j < i
      ensures GapAt(older.bars, g, j) ==> GapsFrom(older.bars, g, j) == GapsFrom(x.bars, g, j) - 1
    {
      GapBelow(x, g, i, j);
    }
    if Storable(x, i) {
      forall j: nat | 0 < j < i ensures Storable(older, j) <==> Storable(x, j) { OlderStorable(x, i, j); }
    }
    hide GapsFrom, GapAt, Storable, LatestGap, Older;
    if Splittable(x, g, n) {
      forall j: nat | GapAt(older.bars, g, j) && GapsFrom(older.bars, g, j) <= n - 1 ensures Storable(older, j) {
        assert Storable(x, j);
      }
    }
    if Storable(x, i) && Splittable(older, g, n - 1) {
      forall j: nat | GapAt(x.bars, g, j) && GapsFrom(x.bars, g, j) <= n ensures Storable(x, j) {
        if j < i { assert Storable(older, j); }
      }
    }
  }

  lemma GapBelow(x: Identity, g: int, i: nat, j: nat)
    requires i == LatestGap(x.bars, g, |x.bars|) && 0 < i < |x.bars|
    ensures GapAt(x.bars, g, j) ==> j <= i
    ensures var older := Older(x, i);
            && (GapAt(older.bars, g, j) <==> GapAt(x.bars, g, j) && j < i)
            && (GapAt(older.bars, g, j) ==> GapsFrom(older.bars, g, j) == GapsFrom(x.bars, g, j) - 1)
  {
    PeelRemovesOne(x, g, i);
    if j < i { assert x.bars[..i][..j] == x.bars[..j]; }
    hide Gaps;
  }

  lemma OneGapFrom(bars: seq<int>, g: int, j: nat)
    requires GapAt(bars, g, j)
    ensures GapsFrom(bars, g, j) >= 1
    decreases |bars|
  {
    var n := |bars| - 1;
    if j < n {
      OneGapFrom(bars[..n], g, j);
      assert bars[..n][..j] == bars[..j];
    }
  }

  lemma OneGapLeft(bars: seq<int>, g: int, i: nat)
    requires i == LatestGap(bars, g, |bars|) && 0 < i < |bars|
    ensures GapsFrom(bars, g, i) == 1
  {
    GapsOfPrefix(bars, g, i, |bars|);
    assert bars[..|bars|] == bars;
  }

  /** After a splice that passed, the remaining row passes at an earlier gap exactly if the whole row would
      have. */
  lemma OlderStorable(x: Identity, i: nat, j: nat)
    requires Increasing(x.bars) && 0 < j < i < |x.bars| && Storable(x, i)
    ensures Storable(Older(x, i), j) <==> Storable(x, j)
  {
    assert x.bars[j] <= x.bars[i - 1] && x.bars[j] < x.bars[i];
    assert Older(x, i).bars[j] == x.bars[j] && Older(x, i).bars[j - 1] == x.bars[j - 1];
  }

  /** Two rows that cannot be spliced at their gap: bars from before the first sighting, and bars from after
      the delisting. Both rows are legal. */
  lemma UnstorableRows(symbol: Symbol, n: nat)
    requires n > 0
    ensures var early := Identity(symbol, Some(500), None, [1, 500], {});
            Legal(early) && GapAt(early.bars, 180, 1) && !Peelable(early, 180, n)
    ensures var late := Identity(symbol, Some(1), Some(3), [1, 2, 500], {});
            Legal(late) && GapAt(late.bars, 180, 2) && !Peelable(late, 180, n)
  {
    assert LatestGap([1, 500], 180, 2) == 1;
    assert LatestGap([1, 2, 500], 180, 3) == 2;
  }

  // ---- what a peeled identity has become -------------------------------------------------------

  ghost function Bars(pieces: seq<Identity>): seq<int> {
    if pieces == [] then [] else pieces[0].bars + Bars(pieces[1..])
  }

  /** `pieces`, oldest first, are what splicing has so far made of `whole`. */
  ghost predicate Pieces(whole: Identity, pieces: seq<Identity>, g: int) {
    && pieces != []
    && Bars(pieces) == whole.bars
    && (forall j :: 0 <= j < |pieces| ==> pieces[j].symbol == whole.symbol)
    && pieces[0].firstSeen == whole.firstSeen
    && pieces[|pieces| - 1].delisted == whole.delisted
    && pieces[|pieces| - 1].actions == whole.actions
    && (forall j :: 0 <= j < |pieces| - 1 ==> pieces[j].actions == {})
    && (forall j :: 0 < j < |pieces| ==> Parted(pieces[j - 1], pieces[j], g) && GapFree(pieces[j].bars, g))
  }

  /** Two consecutive pieces: a hole longer than the threshold lies between them, the older one is
      delisted the day after its last bar, the newer one first seen on its first. */
  ghost predicate Parted(older: Identity, newer: Identity, g: int) {
    && older.bars != [] && newer.bars != []
    && newer.bars[0] - older.bars[|older.bars| - 1] > g
    && older.delisted == Some(older.bars[|older.bars| - 1] + 1)
    && newer.firstSeen == Some(newer.bars[0])
  }

  lemma Untouched(whole: Identity, g: int)
    ensures Pieces(whole, [whole], g)
  {
    assert Bars([whole]) == whole.bars + Bars([whole][1..]);
  }

  function Peeled(pieces: seq<Identity>, i: nat): seq<Identity>
    requires pieces != [] && 0 < i < |pieces[0].bars|
  {
    [Older(pieces[0], i), Newer(pieces[0], i)] + pieces[1..]
  }

  lemma PeelConservesBars(pieces: seq<Identity>, i: nat)
    requires pieces != [] && 0 < i < |pieces[0].bars|
    ensures Bars(Peeled(pieces, i)) == Bars(pieces)
  {
    var first, rest := pieces[0], pieces[1..];
    var older, newer := Older(first, i), Newer(first, i);
    assert Peeled(pieces, i)[1..] == [newer] + rest && ([newer] + rest)[1..] == rest;
    assert older.bars + (newer.bars + Bars(rest)) == first.bars + Bars(rest);
  }

  /** One splice at the latest gap of the oldest piece keeps all of this. */
  lemma PeelKeeps(whole: Identity, pieces: seq<Identity>, g: int, i: nat)
    requires Pieces(whole, pieces, g) && 0 < i < |pieces[0].bars| && i == LatestGap(pieces[0].bars, g, |pieces[0].bars|)
    ensures Pieces(whole, Peeled(pieces, i), g)
  {
    var first := pieces[0];
    var older, newer, rest := Older(first, i), Newer(first, i), pieces[1..];
    var peeled := Peeled(pieces, i);
    PeelConservesBars(pieces, i);
    assert GapFree(newer.bars, g) by {
      forall j: nat | j < |newer.bars| ensures !GapAt(newer.bars, g, j) {
        assert !GapAt(first.bars, g, i + j) || j == 0;
      }
    }
    assert GapAt(first.bars, g, i);
    assert Parted(older, newer, g);
    forall j | 0 < j < |peeled| ensures Parted(peeled[j - 1], peeled[j], g) && GapFree(peeled[j].bars, g) {
      if j == 2 {
        assert Parted(pieces[0], pieces[1], g) && GapFree(pieces[1].bars, g);
        assert newer.bars[|newer.bars| - 1] == first.bars[|first.bars| - 1];
      } else if j > 2 {
        assert peeled[j] == pieces[j - 1] && peeled[j - 1] == pieces[j - 2];
        assert Parted(pieces[j - 2], pieces[j - 1], g) && GapFree(pieces[j - 1].bars, g);
      }
    }
    forall j | 0 <= j < |peeled| - 1 ensures peeled[j].actions == {} {
      if j > 0 { assert |pieces| > 1 ==> pieces[j - 1].actions == {}; }
    }
  }

  lemma {:induction false} NoGapsNone(bars: seq<int>, g: int)
    ensures GapFree(bars, g) <==> Gaps(bars, g) == 0
  {
    if |bars| >= 2 {
      var init := bars[..|bars| - 1];
      NoGapsNone(init, g);
      assert forall i: nat :: i < |init| ==> GapAt(bars, g, i) == GapAt(init, g, i);
      assert GapFree(bars, g) <==> GapFree(init, g) && !GapAt(bars, g, |bars| - 1);
    }
  }

  lemma {:induction false} GapsOfPrefix(bars: seq<int>, g: int, i: nat, n: nat)
    requires 0 < i < n <= |bars| && i == LatestGap(bars, g, n)
    ensures Gaps(bars[..n], g) == Gaps(bars[..i], g) + 1
    decreases n
  {
    assert bars[..n][..n - 1] == bars[..n - 1];
    assert GapAt(bars[..n], g, n - 1) == GapAt(bars, g, n - 1);
    if i < n - 1 {
      GapsOfPrefix(bars, g, i, n - 1);
    }
  }

  /** Each splice removes exactly one over-long gap from the oldest piece. */
  lemma PeelRemovesOne(x: Identity, g: int, i: nat)
    requires i == LatestGap(x.bars, g, |x.bars|) && 0 < i < |x.bars|
    ensures Gaps(Older(x, i).bars, g) == Gaps(x.bars, g) - 1
  {
    GapsOfPrefix(x.bars, g, i, |x.bars|);
    assert x.bars[..|x.bars|] == x.bars;
  }

  // ---- the maximal runs ------------------------------------------------------------------------

  ghost function Flatten(runs: seq<seq<int>>): seq<int> {
    if runs == [] then [] else runs[0] + Flatten(runs[1..])
  }

  /** The runs of bars whose consecutive gaps are within the threshold, cut wherever one is not. */
  ghost predicate MaximalRuns(runs: seq<seq<int>>, bars: seq<int>, g: int) {
    && Flatten(runs) == bars
    && (forall j :: 0 <= j < |runs| ==> runs[j] != [] && GapFree(runs[j], g))
    && (forall j :: 0 < j < |runs| ==> runs[j][0] - runs[j - 1][|runs[j - 1]| - 1] > g)
  }

  /** There is only one way to cut. */
  lemma {:induction false} RunsAreUnique(one: seq<seq<int>>, two: seq<seq<int>>, bars: seq<int>, g: int)
    requires MaximalRuns(one, bars, g) && MaximalRuns(two, bars, g)
    ensures one == two
    decreases |one|
  {
    if one == [] {
      if two != [] { FirstRunIsPrefix(two); }
    } else if two == [] {
      FirstRunIsPrefix(one);
    } else {
      FirstRun(one, bars, g);
      FirstRun(two, bars, g);
      assert |one[0]| == |two[0]|;
      RestIsRuns(one, bars, g);
      RestIsRuns(two, bars, g);
      RunsAreUnique(one[1..], two[1..], bars[|one[0]|..], g);
      assert one == [one[0]] + one[1..] && two == [two[0]] + two[1..];
    }
  }

  lemma FirstRunIsPrefix(runs: seq<seq<int>>)
    requires runs != []
    ensures runs[0] <= Flatten(runs)
  {
  }

  lemma RestIsRuns(runs: seq<seq<int>>, bars: seq<int>, g: int)
    requires MaximalRuns(runs, bars, g) && runs != []
    ensures |runs[0]| <= |bars| && MaximalRuns(runs[1..], bars[|runs[0]|..], g)
  {
    assert bars[|runs[0]|..] == Flatten(runs[1..]);
  }

  /** The first run ends at the first over-long gap, or at the last bar. */
  lemma FirstRun(runs: seq<seq<int>>, bars: seq<int>, g: int)
    requires MaximalRuns(runs, bars, g) && runs != []
    ensures var n := |runs[0]|;
            && 0 < n <= |bars| && runs[0] == bars[..n]
            && (forall i: nat :: i < n ==> !GapAt(bars, g, i))
            && (n < |bars| ==> GapAt(bars, g, n))
  {
    FirstRunIsPrefix(runs);
    var n := |runs[0]|;
    forall i: nat | i < n ensures !GapAt(bars, g, i) {
      assert !GapAt(runs[0], g, i);
    }
    if n < |bars| {
      assert Flatten(runs[1..]) == bars[n..];
      FirstRunIsPrefix(runs[1..]);
      assert bars[n] == runs[1][0] && bars[n - 1] == runs[0][n - 1];
    }
  }

  ghost function RunsOf(pieces: seq<Identity>): (runs: seq<seq<int>>)
    ensures |runs| == |pieces| && forall j :: 0 <= j < |pieces| ==> runs[j] == pieces[j].bars
  {
    if pieces == [] then [] else [pieces[0].bars] + RunsOf(pieces[1..])
  }

  lemma {:induction false} FlattenRuns(pieces: seq<Identity>)
    ensures Flatten(RunsOf(pieces)) == Bars(pieces)
  {
    if pieces != [] {
      FlattenRuns(pieces[1..]);
      assert RunsOf(pieces)[1..] == RunsOf(pieces[1..]);
    }
  }

  /** Once the oldest piece has no over-long gap left, the pieces are exactly the maximal runs. */
  lemma FullyPeeled(whole: Identity, pieces: seq<Identity>, g: int)
    requires Pieces(whole, pieces, g) && GapFree(pieces[0].bars, g) && whole.bars != []
    ensures MaximalRuns(RunsOf(pieces), whole.bars, g)
  {
    FlattenRuns(pieces);
    forall j | 0 <= j < |pieces| ensures pieces[j].bars != [] && GapFree(pieces[j].bars, g) {
      PieceHasBars(whole, pieces, g, j);
    }
    forall j | 0 < j < |pieces| ensures pieces[j].bars[0] - pieces[j - 1].bars[|pieces[j - 1].bars| - 1] > g {
      assert Parted(pieces[j - 1], pieces[j], g);
    }
  }

  lemma PieceHasBars(whole: Identity, pieces: seq<Identity>, g: int, j: nat)
    requires Pieces(whole, pieces, g) && whole.bars != [] && j < |pieces|
    ensures pieces[j].bars != []
  {
    if j > 0 {
      assert Parted(pieces[j - 1], pieces[j], g);
    } else if |pieces| > 1 {
      assert Parted(pieces[0], pieces[1], g);
    } else {
      assert Bars(pieces[1..]) == [];
    }
  }

  /** The identities' date ranges do not overlap: every bar of an older piece is before every bar of a
      newer one. */
  lemma RangesDisjoint(pieces: seq<Identity>, j: nat, k: nat, m: nat, n: nat)
    requires Increasing(Bars(pieces)) && j < k < |pieces| && m < |pieces[j].bars| && n < |pieces[k].bars|
    ensures pieces[j].bars[m] < pieces[k].bars[n]
  {
    var p, q := BarPlaces(pieces, j, m, k, n);
  }

  lemma {:induction false} BarPlaces(pieces: seq<Identity>, j: nat, m: nat, k: nat, n: nat) returns (p: nat, q: nat)
    requires j < k < |pieces| && m < |pieces[j].bars| && n < |pieces[k].bars|
    ensures p < q < |Bars(pieces)| && Bars(pieces)[p] == pieces[j].bars[m] && Bars(pieces)[q] == pieces[k].bars[n]
  {
    var head := |pieces[0].bars|;
    if j == 0 {
      p := m;
      q := BarPlace(pieces[1..], k - 1, n);
    } else {
      p, q := BarPlaces(pieces[1..], j - 1, m, k - 1, n);
      p := head + p;
    }
    q := head + q;
  }

  lemma {:induction false} BarPlace(pieces: seq<Identity>, k: nat, n: nat) returns (p: nat)
    requires k < |pieces| && n < |pieces[k].bars|
    ensures p < |Bars(pieces)| && Bars(pieces)[p] == pieces[k].bars[n]
  {
    if k == 0 {
      p := n;
    } else {
      p := BarPlace(pieces[1..], k - 1, n);
      p := |pieces[0].bars| + p;
    }
  }
}
