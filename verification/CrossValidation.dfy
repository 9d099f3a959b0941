/** TimeSeriesCrossValidator.split of src/ml/validation.py: which folds it yields, and whether training
    labels reach into the test range. Division is Python's floor division; divisors are positive. */
module CrossValidation {
  import WalkForward

  /** Training rows are 0 up to `trainEnd`, test rows `testStart` up to `testEnd`. */
  datatype Fold = Fold(trainEnd: int, testStart: int, testEnd: int)

  function Max(a: int, b: int): int {
    if a >= b then a else b
  }

  function MinTrain(n: nat, splits: nat): (m: int)
    requires splits >= 2
    ensures m >= 30
  {
    Max(30, n / (splits + 1))
  }

  /** Negative for very short data. */
  function FoldSize(n: nat, splits: nat): int
    requires splits >= 2
  {
    (n - MinTrain(n, splits)) / splits
  }

  /** The gap, or none at all when a fold is not longer than it. */
  function EffectiveGap(n: nat, splits: nat, gap: nat): nat
    requires splits >= 2
  {
    if FoldSize(n, splits) <= gap then 0 else gap
  }

  function Offset(f: int, size: int): int {
    f * size
  }

  function FoldAt(n: nat, splits: nat, gap: nat, f: nat): Fold
    requires splits >= 2
  {
    var size := FoldSize(n, splits);
    var trainEnd := MinTrain(n, splits) + Offset(f, size);
    Fold(trainEnd, trainEnd + EffectiveGap(n, splits, gap), trainEnd + size)
  }

  lemma Grow(a: int, b: int, s: int)
    requires a <= b
    ensures s >= 0 ==> Offset(a, s) <= Offset(b, s)
    ensures Offset(a + 1, s) == Offset(a, s) + s
  {
  }

  /** All the folds together end inside the data, leaving fewer samples than there are folds. */
  lemma FoldsFit(n: nat, splits: nat)
    requires splits >= 2
    ensures MinTrain(n, splits) + Offset(splits, FoldSize(n, splits)) <= n
    ensures n - (MinTrain(n, splits) + Offset(splits, FoldSize(n, splits))) < splits
  {
    var r := n - MinTrain(n, splits);
    assert r == (r / splits) * splits + r % splits;
  }

  method Split(n: nat, splits: nat, gap: nat) returns (folds: seq<Fold>)
    requires splits >= 2
    ensures FoldSize(n, splits) <= 0 ==> folds == []
    ensures FoldSize(n, splits) > 0 ==> |folds| == splits
    ensures forall f :: 0 <= f < |folds| ==> folds[f] == FoldAt(n, splits, gap, f)
  {
    hide Offset, MinTrain, FoldSize;
    var minTrain := MinTrain(n, splits);
    var size := FoldSize(n, splits);
    var g := EffectiveGap(n, splits, gap);
    folds := [];
    FoldsFit(n, splits);
    for f := 0 to splits
      invariant size <= 0 ==> folds == []
      invariant size > 0 ==> |folds| == f
      invariant forall i :: 0 <= i < |folds| ==> folds[i] == FoldAt(n, splits, gap, i)
    {
      var trainEnd := minTrain + Offset(f, size);
      var testStart, testEnd := trainEnd + g, trainEnd + size;
      Grow(f, f, size);
      Grow(f + 1, splits, size);
      if testStart >= n { continue; }
      if testEnd > n { testEnd := n; }
      if testStart >= testEnd { continue; }
      folds := folds + [Fold(trainEnd, testStart, testEnd)];
    }
  }

  /** There are folds exactly from thirty samples plus one per fold on. */
  lemma FoldsWhen(n: nat, splits: nat)
    requires splits >= 2
    ensures FoldSize(n, splits) > 0 <==> n >= 30 + splits
  {
    AtLeastOne(n - MinTrain(n, splits), splits);
    Shares(n, splits, n / (splits + 1));
    hide FoldSize;
  }

  lemma Shares(n: nat, splits: nat, q: nat)
    requires splits >= 2 && q == n / (splits + 1)
    ensures n - Max(30, q) >= splits <==> n >= 30 + splits
  {
    assert n == Offset(q, splits + 1) + n % (splits + 1);
    SharesOf(n, splits, q);
  }

  lemma SharesOf(n: nat, splits: nat, q: nat)
    requires Offset(q, splits + 1) <= n
    ensures q > 30 ==> n - q >= splits && n >= 30 + splits
  {
    assert Offset(q, splits + 1) == Offset(q, splits) + q;
    if q > 30 { WalkForward.Scale(31, q, splits); }
  }

  lemma AtLeastOne(r: int, k: nat)
    requires k >= 1
    ensures r / k >= 1 <==> r >= k
  {
    assert r == (r / k) * k + r % k;
    if r / k >= 1 { WalkForward.Scale(1, r / k, k); }
    if r / k <= 0 { WalkForward.Scale(r / k, 0, k); }
  }

  /** What the folds are: nonempty and in bounds, with growing training prefixes of at least thirty,
      each test range ending where the next training prefix does, and fewer samples than folds left over. */
  lemma FoldsAre(n: nat, splits: nat, gap: nat, f: nat)
    requires splits >= 2 && n >= 30 + splits && f < splits
    ensures var a := FoldAt(n, splits, gap, f);
            && 30 <= a.trainEnd <= a.testStart < a.testEnd <= n
            && (f + 1 < splits ==>
                  var b := FoldAt(n, splits, gap, f + 1); a.testEnd == b.trainEnd && a.trainEnd < b.trainEnd)
            && (f + 1 == splits ==> n - a.testEnd < splits)
    ensures forall h :: 0 <= h < f ==>
              FoldAt(n, splits, gap, h).testEnd <= FoldAt(n, splits, gap, f).testStart
              && FoldAt(n, splits, gap, h).trainEnd < FoldAt(n, splits, gap, f).trainEnd
  {
    FoldsWhen(n, splits);
    FoldsFit(n, splits);
    hide MinTrain, FoldSize, Offset;
    var size := FoldSize(n, splits);
    Grow(f, f, size);
    Grow(0, f, size);
    assert Offset(0, size) == 0 by { Zero(size); }
    Grow(f + 1, splits, size);
    forall h | 0 <= h < f
      ensures FoldAt(n, splits, gap, h).testEnd <= FoldAt(n, splits, gap, f).testStart
              && FoldAt(n, splits, gap, h).trainEnd < FoldAt(n, splits, gap, f).trainEnd
    {
      Grow(h, h, size);
      Grow(h + 1, f, size);
    }
  }

  lemma Zero(s: int)
    ensures Offset(0, s) == 0
  {
  }

  /** THE SIZES, by their bounds: the first training prefix is the greater of 30 and the whole part of n over one
      more than the folds; a fold is the whole part of the rest over the folds; the gap is there only if it is
      shorter than a fold. */
  lemma SizesMean(n: nat, splits: nat, gap: nat, f: nat)
    requires splits >= 2 && n >= 30 + splits && f < splits
    ensures var first := FoldAt(n, splits, gap, 0).trainEnd;
            && first >= 30
            && (first == 30 || first * (splits + 1) <= n)
            && n < (first + 1) * (splits + 1)
    ensures var first, a := FoldAt(n, splits, gap, 0).trainEnd, FoldAt(n, splits, gap, f);
            var size := a.testEnd - a.trainEnd;
            && size * splits <= n - first < (size + 1) * splits
            && a.trainEnd == first + f * size
            && a.testStart == a.trainEnd + if gap < size then gap else 0
  {
    FoldsWhen(n, splits);
    Zero(FoldSize(n, splits));
    WalkForward.DivisionIs(n, splits + 1);
    Bounds(n, splits, n / (splits + 1), MinTrain(n, splits));
    var r := n - MinTrain(n, splits);
    assert MinTrain(n, splits) <= n;
    WalkForward.DivisionIs(r, splits);
    Shared(r, splits, r / splits);
  }

  lemma Bounds(n: nat, splits: nat, q: nat, first: nat)
    requires q * (splits + 1) <= n < q * (splits + 1) + splits + 1 && first == Max(30, q)
    ensures first == 30 || first * (splits + 1) <= n
    ensures n < (first + 1) * (splits + 1)
  {
    WalkForward.Scale(q + 1, first + 1, splits + 1);
  }

  lemma Shared(r: nat, splits: nat, size: nat)
    requires splits >= 1 && size * splits <= r < size * splits + splits
    ensures size * splits <= r < (size + 1) * splits
  {
  }

  /** The example of the docstring, 100 samples in 3 splits with a gap of 5: the first test range is rows 35
      to 52, not 35 to 54. */
  lemma FirstFoldOfExample()
    ensures FoldAt(100, 3, 5, 0) == Fold(30, 35, 53)
  {
    assert MinTrain(100, 3) == 30 && FoldSize(100, 3) == 23;
  }

  // ---- leakage -------------------------------------------------------------------------------

  /** Two price histories of that length, the same before row `end`. */
  ghost predicate Alike(c: seq<real>, d: seq<real>, length: nat, end: int) {
    |c| == |d| == length && forall x :: 0 <= x < end && x < length ==> c[x] == d[x]
  }

  /** No training label changes with a price at or after the test start, for any price history. */
  ghost predicate NoLeak(n: nat, a: Fold, ahead: nat)
    requires 0 <= a.trainEnd <= n
  {
    forall c, d :: Alike(c, d, n + ahead, a.testStart) ==>
      WalkForward.Labels(c, ahead)[..a.trainEnd] == WalkForward.Labels(d, ahead)[..a.trainEnd]
  }

  /** Labels that look `ahead` rows ahead stay clear of every fold's test range if and only if the gap is
      at least that long and shorter than a fold; otherwise every fold leaks. */
  lemma LeakFreeIff(n: nat, splits: nat, gap: nat, ahead: nat, f: nat)
    requires splits >= 2 && n >= 30 + splits && f < splits && ahead >= 1
    ensures 0 <= FoldAt(n, splits, gap, f).trainEnd <= n
    ensures NoLeak(n, FoldAt(n, splits, gap, f), ahead) <==> ahead <= gap < FoldSize(n, splits)
  {
    FoldsAre(n, splits, gap, f);
    var a := FoldAt(n, splits, gap, f);
    assert a.testStart - a.trainEnd == EffectiveGap(n, splits, gap);
    hide FoldAt, MinTrain, FoldSize;
    if a.testStart - a.trainEnd >= ahead {
      ClearOf(n, a, ahead);
    } else {
      Reaches(n, a, ahead);
    }
  }

  lemma ClearOf(n: nat, a: Fold, ahead: nat)
    requires 0 <= a.trainEnd <= n && a.testStart - a.trainEnd >= ahead
    ensures NoLeak(n, a, ahead)
  {
    forall c, d | Alike(c, d, n + ahead, a.testStart)
      ensures WalkForward.Labels(c, ahead)[..a.trainEnd] == WalkForward.Labels(d, ahead)[..a.trainEnd]
    {
      var p, q := WalkForward.Labels(c, ahead), WalkForward.Labels(d, ahead);
      forall i | 0 <= i < a.trainEnd ensures p[i] == q[i] {
        assert c[i] == d[i] && c[i + ahead] == d[i + ahead];
      }
    }
  }

  lemma Reaches(n: nat, a: Fold, ahead: nat)
    requires 1 <= a.trainEnd <= a.testStart < n && a.testStart - a.trainEnd < ahead
    ensures !NoLeak(n, a, ahead)
  {
    var t := a.trainEnd;
    var c := seq(n + ahead, x => 1.0);
    var d := WalkForward.LaterRise(n, ahead, a.testStart - 1, t);
    var p, q := WalkForward.Labels(c, ahead), WalkForward.Labels(d, ahead);
    assert Alike(c, d, n + ahead, a.testStart);
    assert p[..t][t - 1] != q[..t][t - 1];
  }
}
