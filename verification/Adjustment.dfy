/** `adjust` and the factor checks of `verify` in db/load_corporate_actions.py, over the daily bar table
    and every operation that leaves it in a new state. */
module Adjustment {
  import opened Wrappers
  import opened Splits

  datatype Key = Key(security: nat, day: int)

  /** A close is a NUMERIC(18,6), held in millionths. */
  type Micros = n: int | 0 < n < 1_000_000_000_000_000_000 witness 1

  datatype Bar = Bar(micros: Micros, factor: Option<real>, adjClose: Option<real>) {
    function Close(): real {
      micros as real / 1_000_000.0
    }
  }

  type Bars = map<Key, Bar>

  const MAX_MEANINGFUL := 1_000_000_000_000.0
  const BATCH: nat := 500_000

  predicate HasSplit(actions: Actions, security: nat) {
    SplitsOf(actions, security) != map[]
  }

  // ---- the update statements, bar by bar -----------------------------------------------------

  function WithFactor(bar: Bar, f: real): Bar
    requires f != 0.0
  {
    bar.(factor := Some(f),
         adjClose := if bar.Close() / f <= MAX_MEANINGFUL then Some(RoundTo(bar.Close() / f, 10)) else None)
  }

  function Plain(bar: Bar): Bar {
    bar.(factor := Some(1.0), adjClose := Some(bar.Close()))
  }

  /** The statement aborts on a factor rounded to zero (division by zero) and on an adjusted close
      rounded to zero (a CHECK constraint). */
  predicate Unstorable(bar: Bar, f: real) {
    f == 0.0 || (bar.Close() / f <= MAX_MEANINGFUL && RoundTo(bar.Close() / f, 10) <= 0.0)
  }

  predicate SplitUpdateFails(bars: Bars, actions: Actions, asOf: int) {
    exists k :: k in bars && HasSplit(actions, k.security)
                && Unstorable(bars[k], Factor(SplitsOf(actions, k.security), k.day, asOf))
  }

  /** The condition on the recorded ratios and the close, before any rounding: the product of the later ratios
      is below half a unit of the factor's last decimal, or so large that the close over it is below half a unit
      of the adjusted close's last. */
  predicate TooExtreme(bar: Bar, product: real) {
    || product * 1_000_000_000_000.0 < 0.5
    || product * 1_000_000_000_000.0 >= 20_000_000_000_000_000.0 * bar.micros as real + 0.5
  }

  /** WHEN `adjust` FAILS, as far as a caller can tell beforehand. */
  lemma FailsIff(bars: Bars, actions: Actions, asOf: int)
    ensures SplitUpdateFails(bars, actions, asOf)
            <==> exists k :: k in bars && HasSplit(actions, k.security)
                             && TooExtreme(bars[k], Product(SplitsOf(actions, k.security), k.day, asOf))
  {
    hide Unstorable, TooExtreme, Factor, Product;
    forall k | k in bars
      ensures Unstorable(bars[k], Factor(SplitsOf(actions, k.security), k.day, asOf))
              <==> TooExtreme(bars[k], Product(SplitsOf(actions, k.security), k.day, asOf))
    {
      UnstorableIff(bars[k], Product(SplitsOf(actions, k.security), k.day, asOf));
      FactorIs(SplitsOf(actions, k.security), k.day, asOf);
    }
  }

  lemma UnstorableIff(bar: Bar, product: real)
    ensures Unstorable(bar, RoundTo(product, FACTOR_PLACES)) <==> TooExtreme(bar, product)
  {
    hide Pow10, RoundTo, Unstorable;
    TrillionIs();
    RoundIs(product, FACTOR_PLACES);
    var scaled := product * 1_000_000_000_000.0;
    assert Scaled(product, FACTOR_PLACES) == scaled;
    var n := (scaled + 0.5).Floor;
    TooSmallIff(bar, n, n as real / 1_000_000_000_000.0);
    Reaches(scaled, 1);
    Reaches(scaled, 20_000_000_000_000_000 * bar.micros + 1);
  }

  lemma Reaches(y: real, n: int)
    ensures (y + 0.5).Floor >= n <==> y >= n as real - 0.5
  {
  }

  /** For a factor of n units. */
  lemma TooSmallIff(bar: Bar, n: int, f: real)
    requires f == n as real / 1_000_000_000_000.0
    ensures Unstorable(bar, f) <==> n < 1 || n > 20_000_000_000_000_000 * bar.micros
  {
    if f != 0.0 {
      QuotientBelowIff(bar.Close() / f, bar.Close(), f);
      RoundsToZeroIff(bar.Close() / f);
      hide RoundTo, Pow10;
      assert Unstorable(bar, f) <==> bar.Close() / f < 0.000_000_000_05;
    }
  }

  lemma QuotientBelowIff(q: real, close: real, f: real)
    requires f != 0.0 && close > 0.0 && q == close / f
    ensures q < 0.000_000_000_05 <==> f < 0.0 || close < 0.000_000_000_05 * f
  {
    assert q * f == close;
    if f > 0.0 { BelowIff(q, f, 0.000_000_000_05, close, 0.000_000_000_05 * f); } else { NegativeIff(q, f); }
  }

  lemma BelowIff(q: real, f: real, bound: real, qf: real, boundF: real)
    requires f > 0.0 && qf == q * f && boundF == bound * f
    ensures q < bound <==> qf < boundF
  {
    assert qf - boundF == (q - bound) * f;
  }

  lemma NegativeIff(q: real, f: real)
    requires f < 0.0
    ensures q < 0.0 <==> q * f > 0.0
  {
  }

  lemma RoundsToZeroIff(q: real)
    ensures RoundTo(q, 10) <= 0.0 <==> q < 0.000_000_000_05
  {
    var n := (q * 10_000_000_000.0 + 0.5).Floor;
    TenBillionIs();
    RoundIs(q, 10);
    assert Scaled(q, 10) == q * 10_000_000_000.0;
    hide RoundTo, Pow10;
    Reaches(q * 10_000_000_000.0, 1);
  }

  lemma FactorIs(splits: Ratios, after: int, until: int)
    ensures Factor(splits, after, until) == RoundTo(Product(splits, after, until), FACTOR_PLACES)
  {
  }

  /** First update: every bar of a security that has any recorded split. */
  function SplitUpdate(bars: Bars, actions: Actions, asOf: int): Bars
    requires !SplitUpdateFails(bars, actions, asOf)
  {
    map k | k in bars ::
      if HasSplit(actions, k.security) then WithFactor(bars[k], Factor(SplitsOf(actions, k.security), k.day, asOf))
      else bars[k]
  }

  /** Second update: stale factors of securities that no longer have any split. */
  function ResetStale(bars: Bars, actions: Actions): Bars {
    map k | k in bars ::
      if bars[k].factor.Some? && bars[k].factor.value != 1.0 && !HasSplit(actions, k.security) then Plain(bars[k])
      else bars[k]
  }

  /** One batch of the last update: some of the bars that still have no factor. */
  function PlainBatch(bars: Bars, batch: set<Key>): Bars {
    map k | k in bars :: if k in batch then Plain(bars[k]) else bars[k]
  }

  ghost function Pending(bars: Bars): set<Key> {
    set k | k in bars && bars[k].factor == None
  }

  /** What the whole command does to one bar. */
  ghost function Settled(bar: Bar, splits: Ratios, day: int, asOf: int): Bar
    requires splits != map[] ==> Factor(splits, day, asOf) != 0.0
  {
    if splits != map[] then WithFactor(bar, Factor(splits, day, asOf))
    else if bar.factor == Some(1.0) then bar
    else Plain(bar)
  }

  ghost predicate AllSettled(before: Bars, after: Bars, actions: Actions, asOf: int) {
    && before.Keys == after.Keys
    && !SplitUpdateFails(before, actions, asOf)
    && forall k :: k in before ==> after[k] == SettledAt(before, actions, k, asOf)
  }

  ghost function SettledAt(bars: Bars, actions: Actions, k: Key, asOf: int): Bar
    requires k in bars && !SplitUpdateFails(bars, actions, asOf)
  {
    Settled(bars[k], SplitsOf(actions, k.security), k.day, asOf)
  }

  /** The bars that had no factor are now plain, the others unchanged. */
  ghost predicate Filled(before: Bars, after: Bars) {
    && before.Keys == after.Keys
    && forall k :: k in before ==> after[k] == if before[k].factor == None then Plain(before[k]) else before[k]
  }

  /** The three updates one after the other settle every bar. */
  lemma UpdatesSettle(before: Bars, after: Bars, actions: Actions, asOf: int)
    requires !SplitUpdateFails(before, actions, asOf)
    requires Filled(ResetStale(SplitUpdate(before, actions, asOf), actions), after)
    ensures AllSettled(before, after, actions, asOf)
  {
    hide Factor, SplitUpdateFails, WithFactor, Plain, RoundTo;
    forall k | k in before ensures k in after && after[k] == SettledAt(before, actions, k, asOf) {
      BarSettles(before, after, actions, asOf, k);
    }
    assert after.Keys == before.Keys;
  }

  lemma BarSettles(before: Bars, after: Bars, actions: Actions, asOf: int, k: Key)
    requires !SplitUpdateFails(before, actions, asOf) && k in before
    requires Filled(ResetStale(SplitUpdate(before, actions, asOf), actions), after)
    ensures k in after && after[k] == SettledAt(before, actions, k, asOf)
  {
    hide Factor, RoundTo;
    var one := SplitUpdate(before, actions, asOf);
    var two := ResetStale(one, actions);
    assert k in one && k in two;
    assert HasSplit(actions, k.security) ==> one[k].factor.Some?;
    hide WithFactor;
  }

  /** What a bar of a security with splits holds in the end, told from its close and the product of the later
      ratios: the factor is the product rounded half up to 12 decimals; the level is the close over the factor,
      rounded half up to 10 decimals, and is left out above 10^12. */
  ghost predicate LevelFits(bar: Bar, product: real) {
    && bar.factor.Some?
    && var f := bar.factor.value;
       && f > 0.0 && Units(f, product, 1_000_000_000_000.0)
       && (bar.adjClose == None <==> bar.Close() > 1_000_000_000_000.0 * f)
       && (bar.adjClose.Some? ==>
             bar.adjClose.value > 0.0 && UnitsOver(bar.adjClose.value, bar.Close(), f, 10_000_000_000.0))
  }

  /** x, a whole number of the `unit`-th parts, is nearest to close / f; the larger of two. */
  ghost predicate UnitsOver(x: real, close: real, f: real, unit: real) {
    var n := x * unit;
    n == n.Floor as real && (n - 0.5) * f <= close * unit < (n + 0.5) * f
  }

  /** THE LEVELS. Every bar of a security with splits ends that way; any other with factor 1 and its close,
      unless its factor was 1 already, and then as it was. */
  lemma LevelsMean(before: Bars, after: Bars, actions: Actions, asOf: int)
    requires AllSettled(before, after, actions, asOf)
    ensures forall k :: k in after ==>
              && k in before && after[k].micros == before[k].micros
              && if HasSplit(actions, k.security)
                 then LevelFits(after[k], Product(SplitsOf(actions, k.security), k.day, asOf))
                 else if before[k].factor == Some(1.0) then after[k] == before[k]
                 else after[k].factor == Some(1.0) && after[k].adjClose == Some(before[k].Close())
  {
    hide Factor, LevelFits, WithFactor, Unstorable;
    forall k | k in after && HasSplit(actions, k.security)
      ensures after[k].micros == before[k].micros
      ensures LevelFits(after[k], Product(SplitsOf(actions, k.security), k.day, asOf))
    {
      FactorIs(SplitsOf(actions, k.security), k.day, asOf);
      assert after[k] == SettledAt(before, actions, k, asOf);
      LevelOf(before[k], Product(SplitsOf(actions, k.security), k.day, asOf));
    }
  }

  lemma LevelOf(bar: Bar, product: real)
    requires !Unstorable(bar, RoundTo(product, FACTOR_PLACES))
    ensures RoundTo(product, FACTOR_PLACES) != 0.0
    ensures var after := WithFactor(bar, RoundTo(product, FACTOR_PLACES));
            LevelFits(after, product) && after.micros == bar.micros
  {
    hide RoundTo, Pow10, Units, UnitsOver;
    var f := RoundTo(product, FACTOR_PLACES);
    TrillionIs();
    TenBillionIs();
    RoundUnits(product, FACTOR_PLACES, 1_000_000_000_000.0);
    FactorPositive(bar, product);
    assert f > 0.0;
    var q := bar.Close() / f;
    assert q * f == bar.Close();
    BelowIff(1_000_000_000_000.0, f, q, 1_000_000_000_000.0 * f, bar.Close());
    RoundUnits(q, 10, 10_000_000_000.0);
    OverFactor(RoundTo(q, 10), q, bar.Close(), f, 10_000_000_000.0);
  }

  lemma TenBillionIs()
    ensures Pow10(10) == 10_000_000_000.0
  {
    assert Pow10(2) == 100.0 && Pow10(4) == 10_000.0 && Pow10(6) == 1_000_000.0 && Pow10(8) == 100_000_000.0;
  }

  lemma FactorPositive(bar: Bar, product: real)
    requires !Unstorable(bar, RoundTo(product, FACTOR_PLACES))
    ensures RoundTo(product, FACTOR_PLACES) > 0.0
  {
    hide RoundTo, Unstorable, Pow10;
    var n := (product * 1_000_000_000_000.0 + 0.5).Floor;
    TrillionIs();
    RoundIs(product, FACTOR_PLACES);
    assert Scaled(product, FACTOR_PLACES) == product * 1_000_000_000_000.0;
    TooSmallIff(bar, n, n as real / 1_000_000_000_000.0);
  }

  lemma OverFactor(x: real, q: real, close: real, f: real, unit: real)
    requires f > 0.0 && unit > 0.0 && q * f == close && Units(x, q, unit)
    ensures UnitsOver(x, close, f, unit)
  {
    var n := x * unit;
    assert close * unit == q * unit * f;
    TimesFactor(n - 0.5, q * unit, f);
    BelowIff(q * unit, f, n + 0.5, close * unit, (n + 0.5) * f);
  }

  lemma TimesFactor(a: real, b: real, f: real)
    requires a <= b && f > 0.0
    ensures a * f <= b * f
  {
  }

  ghost predicate IsLatest(bars: Bars, day: int) {
    (exists k :: k in bars && k.day == day) && forall k :: k in bars ==> k.day <= day
  }

  datatype Outcome = NoBars | SqlError | Done(plain: nat)

  class PriceStore {
    var bars: Bars
    var actions: Actions
    var asOf: Option<int>

    constructor ()
      ensures bars == map[] && actions == map[] && asOf == None
    {
      bars, actions, asOf := map[], map[], None;
    }

    /** max(trade_date). */
    method LatestDay() returns (day: int)
      requires bars != map[]
      ensures IsLatest(bars, day)
    {
      var first :| first in bars;
      day := first.day;
      var rest := bars.Keys;
      while rest != {}
        invariant rest <= bars.Keys
        invariant exists k :: k in bars && k.day == day
        invariant forall k :: k in bars && k !in rest ==> k.day <= day
        decreases |rest|
      {
        var k :| k in rest;
        if k.day > day { day := k.day; }
        rest := rest - {k};
      }
    }

    /** Terminates with every bar settled as if on its own; on an unstorable value no bar changes,
        though the as-of date is already recorded. */
    method Adjust() returns (outcome: Outcome)
      modifies this
      ensures actions == old(actions)
      ensures outcome.NoBars? <==> old(bars) == map[]
      ensures outcome.NoBars? ==> bars == old(bars) && asOf == old(asOf)
      ensures !outcome.NoBars? ==> asOf.Some? && IsLatest(old(bars), asOf.value)
      ensures outcome.SqlError? <==> old(bars) != map[] && SplitUpdateFails(old(bars), actions, asOf.value)
      ensures outcome.SqlError? ==> bars == old(bars)
      ensures outcome.Done? ==> AllSettled(old(bars), bars, actions, asOf.value)
    {
      hide SplitUpdateFails, AllSettled, SplitUpdate, ResetStale, Filled;
      if bars == map[] { return NoBars; }
      var latest := LatestDay();
      asOf := Some(latest);
      if SplitUpdateFails(bars, actions, latest) { return SqlError; }
      bars := SplitUpdate(bars, actions, latest);
      bars := ResetStale(bars, actions);
      var total := FillPlain();
      UpdatesSettle(old(bars), bars, actions, latest);
      return Done(total);
    }

    /** The batched loop; it ends with no bar left without a factor. */
    method FillPlain() returns (total: nat)
      modifies this`bars
      ensures Filled(old(bars), bars) && Pending(bars) == {}
      ensures total == |Pending(old(bars))|
    {
      total := 0;
      while true
        invariant bars.Keys == old(bars).Keys && Pending(bars) <= Pending(old(bars))
        invariant forall k :: k in bars ==>
                    bars[k] == if k in Pending(old(bars)) && k !in Pending(bars) then Plain(old(bars)[k])
                               else old(bars)[k]
        invariant total + |Pending(bars)| == |Pending(old(bars))|
        decreases |Pending(bars)|
      {
        var batch := NextBatch();
        if batch == {} { break; }
        PendingShrinks(bars, batch);
        bars := PlainBatch(bars, batch);
        total := total + |batch|;
      }
    }

    /** Up to BATCH bars without a factor; empty only when none is left. */
    method NextBatch() returns (batch: set<Key>)
      ensures batch <= Pending(bars) && |batch| <= BATCH
      ensures batch == {} ==> Pending(bars) == {}
    {
      var pending := set k | k in bars && bars[k].factor == None;
      batch := {};
      while pending != {} && |batch| < BATCH
        invariant pending + batch == Pending(bars) && pending !! batch && |batch| <= BATCH
        decreases |pending|
      {
        var k :| k in pending;
        pending := pending - {k};
        batch := batch + {k};
      }
    }
  }

  lemma PendingShrinks(bars: Bars, batch: set<Key>)
    requires batch <= Pending(bars)
    ensures Pending(PlainBatch(bars, batch)) == Pending(bars) - batch
    ensures |Pending(PlainBatch(bars, batch))| == |Pending(bars)| - |batch|
  {
    assert Pending(PlainBatch(bars, batch)) == Pending(bars) - batch;
    assert Pending(bars) == (Pending(bars) - batch) + batch;
  }
}
