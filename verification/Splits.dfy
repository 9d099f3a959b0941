/** The split algebra of db/migrations/007_point_in_time.up.sql, on which adjustment, marking and the
    gap audit all rest. A day is an integer; a security's recorded splits map ex-dates to ratios. */
module Splits {

  /** Ratios are shares after per share before: 4-for-1 is 4.0, a 1-for-10 reverse is 0.1. */
  type Ratios = map<int, real>

  /** Recorded splits by security. */
  type Actions = map<nat, Ratios>

  function SplitsOf(actions: Actions, security: nat): Ratios {
    if security in actions then actions[security] else map[]
  }

  ghost predicate Positive(splits: Ratios) {
    forall d :: d in splits ==> splits[d] > 0.0
  }

  function RatioOn(splits: Ratios, day: int): real {
    if day in splits then splits[day] else 1.0
  }

  /** The product of the ratios with ex-date in (after, until]; 1 when there is none. */
  function Product(splits: Ratios, after: int, until: int): real
    decreases until - after
  {
    if until <= after then 1.0 else Product(splits, after, until - 1) * RatioOn(splits, until)
  }

  /** SQL's ROUND(x, places) of a positive value: half away from zero. */
  function RoundTo(x: real, places: nat): real {
    ((x * Pow10(places) + 0.5).Floor) as real / Pow10(places)
  }

  function Pow10(n: nat): (r: real)
    ensures r > 0.0
  {
    if n == 0 then 1.0 else 10.0 * Pow10(n - 1)
  }

  predicate Whole(y: real) {
    y.Floor as real == y
  }

  /** x has no more than `places` decimals. */
  predicate Fits(x: real, places: nat) {
    Whole(Scaled(x, places))
  }

  function Scaled(x: real, places: nat): real {
    x * Pow10(places)
  }

  lemma WholeInt(y: real, n: int)
    requires y == n as real
    ensures Whole(y) && y.Floor == n
  {
  }

  lemma NearestWhole(y: real)
    ensures var n := (y + 0.5).Floor; -0.5 <= n as real - y <= 0.5 && (Whole(y) <==> n as real == y)
  {
    var n := (y + 0.5).Floor;
    if Whole(y) { HalfUp(y.Floor); }
    if n as real == y { WholeInt(y, n); }
    hide Whole;
  }

  lemma HalfUp(n: int)
    ensures (n as real + 0.5).Floor == n
  {
  }

  /** Rounding leaves a value as it is exactly when it has no more decimals than asked for, and moves it
      by half a unit of the last place at most. */
  lemma RoundExactIff(x: real, places: nat)
    ensures RoundTo(x, places) == x <==> Fits(x, places)
    ensures -0.5 <= (RoundTo(x, places) - x) * Pow10(places) <= 0.5
  {
    hide Pow10, Whole, Scaled;
    NearestWhole(Scaled(x, places));
    RoundIs(x, places);
    Rescaled(x, places, ((Scaled(x, places) + 0.5).Floor) as real);
    hide RoundTo;
  }

  lemma RoundIs(x: real, places: nat)
    ensures RoundTo(x, places) == (Scaled(x, places) + 0.5).Floor as real / Pow10(places)
  {
  }

  lemma Rescaled(x: real, places: nat, n: real)
    ensures n / Pow10(places) == x <==> n == Scaled(x, places)
    ensures (n / Pow10(places) - x) * Pow10(places) == n - Scaled(x, places)
  {
    hide Pow10;
    var r := n / Pow10(places);
    assert r * Pow10(places) == n;
    SameQuotient(r, x, Pow10(places));
  }

  lemma SameQuotient(x: real, y: real, p: real)
    requires p > 0.0
    ensures x * p == y * p <==> x == y
  {
    if x * p == y * p { assert (x - y) * p == 0.0; }
  }

  lemma FitsBy(x: real, places: nat, scaled: int)
    requires x * Pow10(places) == scaled as real
    ensures Fits(x, places)
  {
    WholeInt(x * Pow10(places), scaled);
    hide Pow10, Whole;
  }

  lemma {:induction false} PowersAdd(m: nat, n: nat)
    ensures Pow10(m + n) == Pow10(m) * Pow10(n)
  {
    if m > 0 {
      PowersAdd(m - 1, n);
      assert Pow10(m + n) == 10.0 * Pow10(m - 1 + n);
      Associate(10.0, Pow10(m - 1), Pow10(n));
    }
  }

  lemma WholeTimes(y: real, z: real, yz: real)
    requires Whole(y) && Whole(z) && yz == y * z
    ensures Whole(yz)
  {
    WholeInt(yz, y.Floor * z.Floor);
  }

  lemma ScaledProduct(x: real, m: nat, y: real, n: nat, xy: real)
    requires xy == x * y
    ensures Scaled(xy, m + n) == Scaled(x, m) * Scaled(y, n)
  {
    PowersAdd(m, n);
    hide Pow10;
    Exchange(x, y, Pow10(m), Pow10(n));
  }

  lemma Exchange(x: real, y: real, p: real, q: real)
    ensures x * y * (p * q) == (x * p) * (y * q)
  {
    assert x * y * (p * q) == x * (y * p) * q;
  }

  /** Decimals add up under multiplication. */
  lemma FitsProduct(x: real, m: nat, y: real, n: nat, xy: real)
    requires Fits(x, m) && Fits(y, n) && xy == x * y
    ensures Fits(xy, m + n)
  {
    hide Scaled, Whole;
    ScaledProduct(x, m, y, n, xy);
    WholeTimes(Scaled(x, m), Scaled(y, n), Scaled(xy, m + n));
  }

  lemma FitsMore(x: real, m: nat, n: nat)
    requires Fits(x, m) && m <= n
    ensures Fits(x, n)
  {
    hide Fits;
    OneFits(n - m);
    FitsProduct(x, m, 1.0, n - m, x);
  }

  lemma {:induction false} OneFits(n: nat)
    ensures Fits(1.0, n)
  {
    if n == 0 {
      FitsBy(1.0, 0, 1);
    } else {
      OneFits(n - 1);
      FitsBy(1.0, n, 10 * (1.0 * Pow10(n - 1)).Floor);
    }
  }

  const FACTOR_PLACES: nat := 12
  const HALF_UNIT := 0.000_000_000_000_5

  /** split_factor_between: the product, rounded to 12 places. */
  function Factor(splits: Ratios, after: int, until: int): real {
    RoundTo(Product(splits, after, until), FACTOR_PLACES)
  }

  lemma {:induction false} ProductPositive(splits: Ratios, after: int, until: int)
    requires Positive(splits)
    ensures Product(splits, after, until) > 0.0
    decreases until - after
  {
    if after < until { ProductPositive(splits, after, until - 1); }
  }

  /** The product over (a, c] is the product over (a, b] times the product over (b, c]. */
  lemma {:induction false} ProductSplits(splits: Ratios, a: int, b: int, c: int)
    requires a <= b <= c
    ensures Product(splits, a, c) == Product(splits, a, b) * Product(splits, b, c)
    decreases c - b
  {
    hide Product;
    NoProduct(splits, c);
    if b < c {
      ProductSplits(splits, a, b, c - 1);
      ProductStep(splits, a, c);
      ProductStep(splits, b, c);
      Regrouped(Product(splits, a, b), Product(splits, b, c - 1), RatioOn(splits, c), Product(splits, a, c - 1),
                Product(splits, b, c), Product(splits, a, c));
    }
  }

  lemma NoProduct(splits: Ratios, day: int)
    ensures Product(splits, day, day) == 1.0
  {
  }

  lemma ProductStep(splits: Ratios, after: int, until: int)
    requires after < until
    ensures Product(splits, after, until) == Product(splits, after, until - 1) * RatioOn(splits, until)
  {
  }

  lemma Associate(p: real, q: real, r: real)
    ensures p * q * r == p * (q * r)
  {
  }

  lemma Regrouped(p: real, q: real, r: real, pq: real, qr: real, pqr: real)
    requires pq == p * q && qr == q * r && pqr == pq * r
    ensures pqr == p * qr
  {
  }

  // ---- when the stored factor is the product --------------------------------------------------

  /** THE FACTOR. It is the product exactly when the product has no more than 12 decimals, and never more
      than half a unit of the twelfth decimal away. */
  lemma FactorIsProductIff(splits: Ratios, after: int, until: int)
    ensures Factor(splits, after, until) == Product(splits, after, until)
            <==> Fits(Product(splits, after, until), FACTOR_PLACES)
    ensures -HALF_UNIT <= Factor(splits, after, until) - Product(splits, after, until) <= HALF_UNIT
  {
    hide Product, Pow10, RoundTo, Fits;
    RoundExactIff(Product(splits, after, until), FACTOR_PLACES);
    TrillionIs();
  }

  /** x, a whole number of the `unit`-th parts, is nearest to y; the larger of two. */
  ghost predicate Units(x: real, y: real, unit: real) {
    var n := x * unit;
    n == n.Floor as real && n - 0.5 <= y * unit < n + 0.5
  }

  /** The factor is the product rounded half up to 12 decimals. */
  lemma FactorMeans(splits: Ratios, after: int, until: int)
    ensures Units(Factor(splits, after, until), Product(splits, after, until), 1_000_000_000_000.0)
  {
    hide Product, Pow10, RoundTo, Units;
    TrillionIs();
    RoundUnits(Product(splits, after, until), FACTOR_PLACES, 1_000_000_000_000.0);
  }

  lemma RoundUnits(y: real, places: nat, unit: real)
    requires Pow10(places) == unit
    ensures Units(RoundTo(y, places), y, unit)
  {
    hide Pow10, RoundTo, Units;
    var n := (Scaled(y, places) + 0.5).Floor;
    RoundIs(y, places);
    TimesBack(RoundTo(y, places), Pow10(places), n);
    UnitsAre(RoundTo(y, places), y, Pow10(places), n);
  }

  lemma TimesBack(q: real, unit: real, n: int)
    requires unit > 0.0 && q == n as real / unit
    ensures q * unit == n as real
  {
  }

  lemma UnitsAre(x: real, y: real, unit: real, n: int)
    requires x * unit == n as real && n == (y * unit + 0.5).Floor
    ensures Units(x, y, unit)
  {
    var scaled := y * unit;
    assert n as real <= scaled + 0.5 < n as real + 1.0;
    WholeInt(x * unit, n);
  }

  /** How many decimals the ratios with ex-date in (after, until] have together. */
  ghost function Decimals(of: int -> nat, after: int, until: int): nat
    decreases until - after
  {
    if until <= after then 0 else Decimals(of, after, until - 1) + of(until)
  }

  /** Ratios whose decimals add up to 12 at most have a product the factor holds exactly: any number of
      whole splits, for one, or a single NUMERIC(18,8) ratio among them. */
  lemma {:induction false} FewDecimalsFit(splits: Ratios, of: int -> nat, after: int, until: int)
    requires forall d :: after < d <= until ==> Fits(RatioOn(splits, d), of(d))
    ensures Fits(Product(splits, after, until), Decimals(of, after, until))
    ensures Decimals(of, after, until) <= FACTOR_PLACES ==>
                Factor(splits, after, until) == Product(splits, after, until)
    decreases until - after
  {
    hide Fits, Factor;
    if until <= after {
      OneFits(0);
    } else {
      FewDecimalsFit(splits, of, after, until - 1);
      FitsProduct(Product(splits, after, until - 1), Decimals(of, after, until - 1), RatioOn(splits, until), of(until),
                  Product(splits, after, until));
    }
    if Decimals(of, after, until) <= FACTOR_PLACES {
      FitsMore(Product(splits, after, until), Decimals(of, after, until), FACTOR_PLACES);
      FactorIsProductIff(splits, after, until);
    }
  }

  // ---- returns ---------------------------------------------------------------------------------

  /** Both factors a return needs are there; an `adjust` that meets a zero factor fails. */
  predicate Storable(splits: Ratios, s: int, t: int, asOf: int) {
    Factor(splits, s, asOf) > 0.0 && Factor(splits, t, asOf) > 0.0
  }

  /** The return from s to t as a consumer computes it: the ratio of (close / factor) at the two days, with
      the factors stored for the as-of date. */
  ghost function AdjustedReturn(splits: Ratios, closeS: real, closeT: real, s: int, t: int, asOf: int): real
    requires closeS > 0.0 && Storable(splits, s, t, asOf)
  {
    Quotient(closeS, Factor(splits, s, asOf));
    (closeT / Factor(splits, t, asOf)) / (closeS / Factor(splits, s, asOf))
  }

  lemma Quotient(x: real, y: real)
    requires x > 0.0 && y > 0.0
    ensures x / y > 0.0
  {
    var q := x / y;
    assert q * y == x;
  }

  /** A return is the raw ratio times the quotient of the two factors. */
  lemma ReturnByFactors(splits: Ratios, closeS: real, closeT: real, s: int, t: int, asOf: int)
    requires closeS > 0.0 && Storable(splits, s, t, asOf)
    ensures AdjustedReturn(splits, closeS, closeT, s, t, asOf)
            == closeT / closeS * (Factor(splits, s, asOf) / Factor(splits, t, asOf))
  {
    hide Factor;
    var f, g := Factor(splits, s, asOf), Factor(splits, t, asOf);
    assert f / g * g == f;
    Cancel(closeS, closeT, f / g, g, f);
  }

  lemma Cancel(x: real, y: real, p: real, q: real, pq: real)
    requires x > 0.0 && q > 0.0 && pq > 0.0 && pq == p * q
    ensures x / pq > 0.0 && (y / q) / (x / pq) == y / x * p
  {
    Quotient(x, pq);
    var u, v, w := x / pq, y / q, y / x;
    assert u * pq == x && v * q == y && w * x == y;
    assert w * (u * (p * q)) == v * q;
    assert (w * u * p) * q == v * q;
    assert w * u * p == v;
    assert (w * p) * u == v;
  }

  lemma {:induction false} SameProduct(one: Ratios, two: Ratios, after: int, until: int)
    requires forall d :: after < d <= until ==> RatioOn(one, d) == RatioOn(two, d)
    ensures Product(one, after, until) == Product(two, after, until)
    decreases until - after
  {
    if after < until { SameProduct(one, two, after, until - 1); }
  }

  /** From s to t the factors compose: the one to the as-of date is the one up to t times the rest. */
  ghost predicate Composes(splits: Ratios, s: int, t: int, asOf: int) {
    Factor(splits, s, asOf) == Factor(splits, s, t) * Factor(splits, t, asOf)
  }

  /** The return from s to t at this as-of date is the one computed on day t itself. */
  ghost predicate KnownOnTheDay(splits: Ratios, s: int, t: int, asOf: int) {
    && Storable(splits, s, t, asOf) && Storable(splits, s, t, t)
    && forall x: real, y: real :: x > 0.0 ==>
         AdjustedReturn(splits, x, y, s, t, asOf) == AdjustedReturn(splits, x, y, s, t, t)
  }

  /** No as-of date and no split after t moves any return up to t. */
  ghost predicate PointInTime(splits: Ratios) {
    forall s, t, asOf :: s <= t <= asOf ==> KnownOnTheDay(splits, s, t, asOf)
  }

  ghost predicate AllFit(splits: Ratios) {
    forall a, b :: Fits(Product(splits, a, b), FACTOR_PLACES)
  }

  /** Each ratio by itself fits, as any NUMERIC(18,8) does. */
  ghost predicate EachFits(splits: Ratios) {
    forall d :: d in splits ==> Fits(splits[d], FACTOR_PLACES)
  }

  lemma FactorAtOnce(splits: Ratios, t: int)
    ensures Product(splits, t, t) == 1.0 && Factor(splits, t, t) == 1.0
  {
    hide Factor;
    FactorIsProductIff(splits, t, t);
    OneFits(FACTOR_PLACES);
  }

  lemma ReturnOnTheDay(splits: Ratios, closeS: real, closeT: real, s: int, t: int)
    requires closeS > 0.0 && Storable(splits, s, t, t)
    ensures AdjustedReturn(splits, closeS, closeT, s, t, t) == closeT / closeS * Factor(splits, s, t)
  {
    ReturnByFactors(splits, closeS, closeT, s, t, t);
    FactorAtOnce(splits, t);
    hide Factor;
    assert Factor(splits, s, t) / 1.0 == Factor(splits, s, t);
  }

  lemma QuotientIs(f: real, g: real, h: real)
    requires g > 0.0
    ensures f / g == h <==> f == h * g
  {
    assert f / g * g == f;
    SameQuotient(f / g, h, g);
  }

  lemma KnownIffComposes(splits: Ratios, s: int, t: int, asOf: int)
    requires Storable(splits, s, t, asOf) && Storable(splits, s, t, t)
    ensures KnownOnTheDay(splits, s, t, asOf) <==> Composes(splits, s, t, asOf)
  {
    hide Factor, AdjustedReturn;
    var f, g, h := Factor(splits, s, asOf), Factor(splits, t, asOf), Factor(splits, s, t);
    QuotientIs(f, g, h);
    if Composes(splits, s, t, asOf) {
      forall x: real, y: real | x > 0.0
        ensures AdjustedReturn(splits, x, y, s, t, asOf) == AdjustedReturn(splits, x, y, s, t, t)
      {
        ReturnByFactors(splits, x, y, s, t, asOf);
        ReturnOnTheDay(splits, x, y, s, t);
      }
    }
    ReturnByFactors(splits, 1.0, 1.0, s, t, asOf);
    ReturnOnTheDay(splits, 1.0, 1.0, s, t);
  }

  lemma FittingFactor(splits: Ratios, a: int, b: int)
    requires Positive(splits) && Fits(Product(splits, a, b), FACTOR_PLACES)
    ensures Factor(splits, a, b) == Product(splits, a, b) > 0.0
  {
    FactorIsProductIff(splits, a, b);
    ProductPositive(splits, a, b);
  }

  lemma {:induction false} ComposedFactor(splits: Ratios, a: int, b: int)
    requires EachFits(splits) && PointInTime(splits)
    ensures Fits(Product(splits, a, b), FACTOR_PLACES)
    decreases b - a
  {
    hide Fits, Factor;
    if b <= a {
      OneFits(FACTOR_PLACES);
    } else {
      ComposedFactor(splits, a, b - 1);
      OneDay(splits, b);
      FactorIsProductIff(splits, a, b - 1);
      FactorIsProductIff(splits, a, b);
      assert KnownOnTheDay(splits, a, b - 1, b);
      KnownIffComposes(splits, a, b - 1, b);
    }
  }

  lemma OneDay(splits: Ratios, d: int)
    requires EachFits(splits)
    ensures Factor(splits, d - 1, d) == RatioOn(splits, d)
  {
    OneFits(FACTOR_PLACES);
    assert Product(splits, d - 1, d - 1) == 1.0;
    assert 1.0 * RatioOn(splits, d) == RatioOn(splits, d);
    FactorIsProductIff(splits, d - 1, d);
    hide Fits, Factor;
  }

  /** POINT IN TIME. Returns depend on no as-of date if and only if every product of recorded ratios has no
      more than 12 decimals. */
  lemma PointInTimeIff(splits: Ratios)
    requires Positive(splits) && EachFits(splits)
    ensures PointInTime(splits) <==> AllFit(splits)
  {
    hide Fits, Factor, Product;
    if AllFit(splits) {
      forall s, t, asOf | s <= t <= asOf ensures KnownOnTheDay(splits, s, t, asOf) {
        FittingFactor(splits, s, asOf);
        FittingFactor(splits, t, asOf);
        FittingFactor(splits, s, t);
        FactorAtOnce(splits, t);
        ProductSplits(splits, s, t, asOf);
        KnownIffComposes(splits, s, t, asOf);
      }
    }
    if PointInTime(splits) {
      forall a, b ensures Fits(Product(splits, a, b), FACTOR_PLACES) {
        ComposedFactor(splits, a, b);
      }
    }
  }

  /** Ratios that each fit, and an as-of date that moves a return all the same: two 1-for-3 reverse splits
      recorded with 8 decimals. */
  lemma ThirdsMove()
    ensures var splits := map[1 := 0.33333333, 2 := 0.33333333];
            && Positive(splits) && EachFits(splits)
            && Storable(splits, 0, 1, 2) && Storable(splits, 0, 1, 1) && !KnownOnTheDay(splits, 0, 1, 2)
  {
    var splits := map[1 := 0.33333333, 2 := 0.33333333];
    var third := 0.33333333;
    TrillionIs();
    FitsBy(third, FACTOR_PLACES, 333_333_330_000);
    OneDay(splits, 1);
    OneDay(splits, 2);
    FactorAtOnce(splits, 1);
    assert Product(splits, 0, 0) == 1.0 && Product(splits, 0, 1) == third && Product(splits, 0, 2) == third * third;
    assert Scaled(third * third, FACTOR_PLACES) == 111_111_108_888.8889;
    assert !Fits(third * third, FACTOR_PLACES);
    FactorIsProductIff(splits, 0, 2);
    assert Factor(splits, 0, 2) > 0.0;
    hide Factor;
    KnownIffComposes(splits, 0, 1, 2);
  }

  /** The factors of one and of two such splits. */
  lemma ThirdsRounded()
    ensures Factor(map[1 := 0.33333333], 0, 2) == 0.33333333
    ensures Factor(map[1 := 0.33333333, 2 := 0.33333333], 0, 2) == 0.111_111_108_889
  {
    var one, two, third := map[1 := 0.33333333], map[1 := 0.33333333, 2 := 0.33333333], 0.33333333;
    TrillionIs();
    assert Product(one, 0, 0) == 1.0 && Product(one, 0, 1) == third && Product(one, 0, 2) == third * 1.0;
    assert Product(two, 0, 0) == 1.0 && Product(two, 0, 1) == third && Product(two, 0, 2) == third * third;
    hide Product, RoundTo, Pow10;
    RoundedBy(third, FACTOR_PLACES, 333_333_330_000);
    RoundedBy(third * third, FACTOR_PLACES, 111_111_108_889);
  }

  lemma RoundedBy(x: real, places: nat, n: int)
    requires n as real <= Scaled(x, places) + 0.5 < n as real + 1.0
    ensures RoundTo(x, places) == n as real / Pow10(places)
  {
    hide Pow10, Scaled;
    NearestTo(Scaled(x, places), n);
    RoundIs(x, places);
  }

  lemma NearestTo(y: real, n: int)
    requires n as real <= y + 0.5 < n as real + 1.0
    ensures (y + 0.5).Floor == n
  {
  }

  lemma TrillionIs()
    ensures Pow10(FACTOR_PLACES) == 1_000_000_000_000.0
  {
    assert Pow10(2) == 100.0;
    assert Pow10(4) == 10_000.0;
    assert Pow10(6) == 1_000_000.0;
    assert Pow10(8) == 100_000_000.0;
    assert Pow10(10) == 10_000_000_000.0;
  }

  /** The splits recorded by day t. */
  ghost function UpTo(splits: Ratios, t: int): Ratios {
    map d | d in splits && d <= t :: splits[d]
  }

  /** Forgetting the splits after t is the same as computing on day t: so a return that depends on no as-of
      date depends on no later split either, and conversely. */
  lemma LaterSplitsAreTheAsOf(splits: Ratios, closeS: real, closeT: real, s: int, t: int, asOf: int)
    requires s <= t <= asOf && closeS > 0.0
    ensures Storable(UpTo(splits, t), s, t, asOf) <==> Storable(splits, s, t, t)
    ensures Storable(splits, s, t, t) ==>
              AdjustedReturn(UpTo(splits, t), closeS, closeT, s, t, asOf)
                  == AdjustedReturn(splits, closeS, closeT, s, t, t)
  {
    var cut := UpTo(splits, t);
    SameProduct(cut, splits, s, t);
    ProductSplits(cut, s, t, asOf);
    NoSplits(cut, t, asOf);
    FactorAtOnce(splits, t);
    assert Product(cut, s, t) * 1.0 == Product(cut, s, t);
  }

  lemma {:induction false} NoSplits(splits: Ratios, after: int, until: int)
    requires forall d :: after < d <= until ==> d !in splits
    ensures Product(splits, after, until) == 1.0
    decreases until - after
  {
    if after < until { NoSplits(splits, after, until - 1); }
  }

  /** Two split histories that agree up to t give the same return from s to t, at any as-of dates. */
  lemma LaterSplitsDoNotMatter(one: Ratios, two: Ratios, closeS: real, closeT: real, s: int, t: int, asOf1: int,
                               asOf2: int)
    requires PointInTime(one) && PointInTime(two) && s <= t <= asOf1 && t <= asOf2 && closeS > 0.0
    requires forall d :: s < d <= t ==> RatioOn(one, d) == RatioOn(two, d)
    ensures Storable(one, s, t, asOf1) && Storable(two, s, t, asOf2)
    ensures AdjustedReturn(one, closeS, closeT, s, t, asOf1) == AdjustedReturn(two, closeS, closeT, s, t, asOf2)
  {
    hide Factor, AdjustedReturn;
    assert KnownOnTheDay(one, s, t, asOf1) && KnownOnTheDay(two, s, t, asOf2);
    ReturnOnTheDay(one, closeS, closeT, s, t);
    ReturnOnTheDay(two, closeS, closeT, s, t);
    SameFactor(one, two, s, t);
  }

  lemma SameFactor(one: Ratios, two: Ratios, after: int, until: int)
    requires forall d :: after < d <= until ==> RatioOn(one, d) == RatioOn(two, d)
    ensures Factor(one, after, until) == Factor(two, after, until)
  {
    SameProduct(one, two, after, until);
  }

  // ---- the gap audit ---------------------------------------------------------------------------

  /** The gap audit's cross-gap ratio of a hole from `before` to `resume`: the unrounded product. */
  function CrossGapRatio(splits: Ratios, closeBefore: real, closeAfter: real, before: int, resume: int): real
    requires closeBefore > 0.0
  {
    closeAfter / closeBefore * Product(splits, before, resume)
  }

  /** On every hole up to the as-of date the audit's ratio is the ratio of the two adjusted closes. */
  ghost predicate AuditAgrees(splits: Ratios, asOf: int) {
    forall before, resume :: before <= resume <= asOf ==> AgreesOn(splits, before, resume, asOf)
  }

  ghost predicate AllFitUpTo(splits: Ratios, asOf: int) {
    forall s :: s <= asOf ==> Fits(Product(splits, s, asOf), FACTOR_PLACES)
  }

  ghost predicate AgreesOn(splits: Ratios, before: int, resume: int, asOf: int) {
    && Storable(splits, before, resume, asOf)
    && forall x: real, y: real :: x > 0.0 ==>
         CrossGapRatio(splits, x, y, before, resume) == AdjustedReturn(splits, x, y, before, resume, asOf)
  }

  /** THE AUDIT AND THE ADJUSTMENT agree if and only if the products up to the as-of date have no more than
      12 decimals: the audit multiplies unrounded ratios, the adjustment divides by rounded factors. */
  lemma AuditAgreesIff(splits: Ratios, asOf: int)
    requires Positive(splits)
    ensures AuditAgrees(splits, asOf) <==> AllFitUpTo(splits, asOf)
  {
    hide Fits, Factor, Product, AdjustedReturn;
    if AllFitUpTo(splits, asOf) {
      forall before, resume | before <= resume <= asOf ensures AgreesOn(splits, before, resume, asOf) {
        FittingFactor(splits, before, asOf);
        FittingFactor(splits, resume, asOf);
        ProductSplits(splits, before, resume, asOf);
        AgreesWhere(splits, before, resume, asOf);
      }
    }
    if AuditAgrees(splits, asOf) {
      forall s | s <= asOf ensures Fits(Product(splits, s, asOf), FACTOR_PLACES) {
        assert AgreesOn(splits, s, asOf, asOf);
        AgreesWhere(splits, s, asOf, asOf);
        FactorAtOnce(splits, asOf);
        FactorIsProductIff(splits, s, asOf);
      }
    }
  }

  lemma AgreesWhere(splits: Ratios, before: int, resume: int, asOf: int)
    requires Storable(splits, before, resume, asOf)
    ensures AgreesOn(splits, before, resume, asOf)
            <==> Factor(splits, before, asOf) == Product(splits, before, resume) * Factor(splits, resume, asOf)
  {
    hide Factor, Product, AdjustedReturn;
    QuotientIs(Factor(splits, before, asOf), Factor(splits, resume, asOf), Product(splits, before, resume));
    forall x: real, y: real | x > 0.0
      ensures AdjustedReturn(splits, x, y, before, resume, asOf)
              == y / x * (Factor(splits, before, asOf) / Factor(splits, resume, asOf))
    {
      ReturnByFactors(splits, x, y, before, resume, asOf);
    }
    ReturnByFactors(splits, 1.0, 1.0, before, resume, asOf);
    assert CrossGapRatio(splits, 1.0, 1.0, before, resume) == Product(splits, before, resume);
  }

  /** How far the quotient of two factors is from p, weighed by the later factor. */
  ghost function Error(f: real, g: real, p: real): real
    requires g > 0.0
  {
    (f / g - p) * g
  }

  /** How far they can be apart, in every case: half a unit of the twelfth decimal of the factor, once for
      each end of the interval. */
  lemma ReturnError(splits: Ratios, s: int, t: int, asOf: int)
    requires Positive(splits) && s <= t <= asOf && Storable(splits, s, t, asOf)
    ensures var p := Product(splits, s, t);
            -HALF_UNIT * (1.0 + p) <= Error(Factor(splits, s, asOf), Factor(splits, t, asOf), p)
                <= HALF_UNIT * (1.0 + p)
  {
    hide Factor, Product, Error, Positive;
    FactorIsProductIff(splits, s, asOf);
    FactorIsProductIff(splits, t, asOf);
    ProductSplits(splits, s, t, asOf);
    ProductPositive(splits, s, t);
    ErrorOf(Factor(splits, s, asOf), Factor(splits, t, asOf), Product(splits, s, asOf), Product(splits, t, asOf),
            Product(splits, s, t));
  }

  lemma ErrorOf(f: real, g: real, pf: real, pg: real, p: real)
    requires g > 0.0 && p > 0.0 && pf == p * pg
    requires -HALF_UNIT <= f - pf <= HALF_UNIT && -HALF_UNIT <= g - pg <= HALF_UNIT
    ensures -HALF_UNIT * (1.0 + p) <= Error(f, g, p) <= HALF_UNIT * (1.0 + p)
  {
    ErrorIs(f, g, p);
    hide Error;
    Distribute(p, g, pg);
    var b := p * (g - pg);
    assert Error(f, g, p) == (f - pf) - b;
    Scale(p, g - pg, b);
    Combine(Error(f, g, p), f - pf, b, p);
  }

  lemma Combine(e: real, a: real, b: real, p: real)
    requires e == a - b && -HALF_UNIT <= a <= HALF_UNIT && -(HALF_UNIT * p) <= b <= HALF_UNIT * p
    ensures -HALF_UNIT * (1.0 + p) <= e <= HALF_UNIT * (1.0 + p)
  {
  }

  lemma ErrorIs(f: real, g: real, p: real)
    requires g > 0.0
    ensures Error(f, g, p) == f - p * g
  {
    var q := f / g;
    assert q * g == f;
    Distribute(g, q, p);
  }

  lemma Distribute(p: real, x: real, y: real)
    ensures p * (x - y) == p * x - p * y == (x - y) * p
  {
  }

  lemma Scale(p: real, x: real, px: real)
    requires p > 0.0 && px == p * x && -HALF_UNIT <= x <= HALF_UNIT
    ensures -(HALF_UNIT * p) <= px <= HALF_UNIT * p
  {
    NotNegative(p, HALF_UNIT - x);
    NotNegative(p, HALF_UNIT + x);
    Distribute(p, HALF_UNIT, x);
    Distribute(p, HALF_UNIT, -x);
    assert HALF_UNIT - -x == HALF_UNIT + x && p * -x == -px;
  }

  lemma NotNegative(p: real, y: real)
    requires p >= 0.0 && y >= 0.0
    ensures p * y >= 0.0
  {
  }

  /** Inserting a split of ratio r on day e multiplies exactly the products whose interval covers e. */
  lemma {:induction false} InsertedSplit(splits: Ratios, e: int, r: real, after: int, until: int)
    requires e !in splits
    ensures Product(splits[e := r], after, until)
            == Product(splits, after, until) * (if after < e <= until then r else 1.0)
    decreases until - after
  {
    if after < until {
      InsertedSplit(splits, e, r, after, until - 1);
      var p, q := Product(splits, after, until - 1), RatioOn(splits, until);
      if after < e < until { assert p * r * q == p * q * r; }
    }
  }
}
