/** Walk-forward validation of src/ml/validation.py: the stepping loop against a per-sample definition of
    what it computes, and what each prediction can have seen. A model is any pair of training and
    prediction functions over any state; a failed training is one that returns whatever state it likes. */
module WalkForward {
  import opened Wrappers

  /** One validation: the model, its data, and the sizes. `init` is the initial training size. */
  datatype Job<!M, !F, !L, !P> = Job(
    train: (M, seq<F>, seq<L>) -> M,
    predict: (M, F) -> (M, Option<P>),
    fresh0: M, X: seq<F>, y: seq<L>,
    init: nat, step: nat, every: nat)
  {
    /** What the constructor and the size check guarantee. */
    predicate Valid() {
      |X| == |y| && 0 < init <= |X| && step >= 1 && every >= 1
    }

    /** Retraining happens only between steps: `every` rounded up to whole steps. */
    function Period(): (p: nat)
      requires step >= 1 && every >= 1
      ensures p >= 1
    {
      Product(step, (every + step - 1) / step)
    }

    /** The model as it reaches sample i, before any retraining due there. */
    function Carried(i: nat): M
      requires Valid() && init <= i <= |X|
      decreases i, 0
    {
      if i == init then train(fresh0, X[..i], y[..i])
      else predict(ModelAt(i - 1), X[i - 1]).0
    }

    /** The model that predicts sample i: retrained on everything before i whenever i is a whole number
        of periods after the initial window. */
    function ModelAt(i: nat): M
      requires Valid() && init <= i <= |X|
      decreases i, 1
    {
      if i > init && TrainEnd(i) == i then train(Carried(i), X[..i], y[..i]) else Carried(i)
    }

    function Outcome(i: nat): Option<P>
      requires Valid() && init <= i < |X|
    {
      predict(ModelAt(i), X[i]).1
    }

    /** How much data the model that predicts sample i was trained on. */
    function TrainEnd(i: nat): int
      requires Valid() && init <= i <= |X|
    {
      i - (i - init) % Period()
    }

    /** The successful predictions among samples a up to b. */
    function Kept(a: nat, b: nat): seq<P>
      requires Valid() && init <= a <= b <= |X|
    {
      if a == b then []
      else Kept(a, b - 1) + if Outcome(b - 1).Some? then [Outcome(b - 1).value] else []
    }

    /** Their own labels. */
    function KeptLabels(a: nat, b: nat): (labels: seq<L>)
      requires Valid() && init <= a <= b <= |X|
      ensures |labels| == |Kept(a, b)|
    {
      if a == b then []
      else KeptLabels(a, b - 1) + if Outcome(b - 1).Some? then [y[b - 1]] else []
    }
  }

  function Product(a: nat, b: nat): nat {
    a * b
  }

  datatype StepResult<L, P> = StepResult(step: nat, trainSize: nat, testStart: nat, testEnd: nat,
                                         predictions: seq<P>, actuals: seq<L>, retrained: bool)

  datatype ValidationResult<L, P> = ValidationResult(totalPredictions: nat, failed: nat, measured: bool,
                                                     steps: seq<StepResult<L, P>>)

  /** The period is the least multiple of the step that reaches `every`. */
  lemma PeriodIs<M, F, L, P>(j: Job<M, F, L, P>)
    requires j.step >= 1 && j.every >= 1
    ensures j.every <= j.Period() < j.every + j.step && j.Period() % j.step == 0
    ensures forall d :: 0 <= d && d % j.step == 0 && d >= j.every ==> d >= j.Period()
  {
    var k := (j.every + j.step - 1) / j.step;
    assert k * j.step == j.Period();
    Divided(k * j.step, k, j.step, 0);
    forall d | 0 <= d && d % j.step == 0 && d >= j.every ensures d >= j.Period() {
      FewerSteps(j.step, j.every, k, d);
    }
  }

  lemma FewerSteps(step: nat, every: nat, k: nat, d: nat)
    requires step >= 1 && k == (every + step - 1) / step && d % step == 0 && d >= every
    ensures d >= k * step
  {
    var a := d / step;
    assert d == a * step;
    assert k * step <= every + step - 1;
    if a < k { Scale(a, k - 1, step); }
  }

  /** Quotient and remainder are determined by the division equation. */
  lemma Divided(a: int, q: int, p: int, d: int)
    requires p >= 1 && 0 <= d < p && a == q * p + d
    ensures a / p == q && a % p == d
  {
    var q0, d0 := a / p, a % p;
    assert a == q0 * p + d0;
    if q0 > q { Scale(q + 1, q0, p); }
    if q0 < q { Scale(q0 + 1, q, p); }
  }

  lemma Scale(a: int, b: int, s: int)
    requires a <= b && s >= 0
    ensures a * s <= b * s
  {
  }

  // ---- the loop ------------------------------------------------------------------------------

  function Min(a: int, b: int): int {
    if a <= b then a else b
  }

  /** The test range of step k. */
  function StepStart<M, F, L, P>(j: Job<M, F, L, P>, k: nat): nat {
    j.init + Product(k, j.step)
  }

  function StepEnd<M, F, L, P>(j: Job<M, F, L, P>, k: nat): int {
    Min(StepStart(j, k) + j.step, |j.X|)
  }

  /** Step k as the per-sample definition has it. */
  ghost predicate IsStep<M, F, L, P>(j: Job<M, F, L, P>, k: nat, s: StepResult<L, P>)
    requires j.Valid()
  {
    && StepStart(j, k) < |j.X|
    && s.step == k
    && s.testStart == StepStart(j, k) && s.testEnd == StepEnd(j, k)
    && s.predictions == j.Kept(s.testStart, s.testEnd)
    && s.actuals == j.KeptLabels(s.testStart, s.testEnd)
    && s.trainSize == s.testStart
    && (s.retrained <==> k > 0 && j.TrainEnd(s.testStart) == s.testStart)
  }

  /** A run's report: whole steps that cover the samples after the initial window, and counts that add
      up. */
  ghost predicate Reports<M, F, L, P>(j: Job<M, F, L, P>, r: ValidationResult<L, P>)
    requires j.Valid()
  {
    && (forall k :: 0 <= k < |r.steps| ==> IsStep(j, k, r.steps[k]))
    && StepStart(j, |r.steps|) >= |j.X|
    && r.totalPredictions == |j.Kept(j.init, |j.X|)|
    && r.totalPredictions + r.failed == |j.X| - j.init
    && (r.measured <==> r.totalPredictions > 0)
  }

  /** Where the loop stands at a sample: `days` since the last training, after `q` whole periods. */
  ghost predicate Since<M, F, L, P>(j: Job<M, F, L, P>, start: nat, q: nat, days: nat)
    requires j.Valid()
  {
    start - j.init == Product(q, j.Period()) + days && days % j.step == 0 && days <= j.Period()
  }

  /** No sample inside a step is a whole number of periods in. */
  lemma InsideStep<M, F, L, P>(j: Job<M, F, L, P>, start: nat, q: nat, days: nat, i: nat)
    requires j.Valid() && Since(j, start, q, days) && days < j.Period() && start <= i < start + j.step
    ensures (i - j.init) % j.Period() == days + (i - start)
  {
    PeriodIs(j);
    WholeSteps(days, j.Period(), j.step);
    Divided(i - j.init, q, j.Period(), days + (i - start));
  }

  lemma WholeSteps(d: nat, p: nat, s: nat)
    requires s >= 1 && d % s == 0 && p % s == 0 && d < p
    ensures d + s <= p
  {
    var a, b := d / s, p / s;
    assert d == a * s && p == b * s;
    if a >= b { Scale(b, a, s); }
    Scale(a + 1, b, s);
  }

  /** One test window; failed predictions are dropped together with their labels. */
  method TestWindow<M, F, L, P>(j: Job<M, F, L, P>, m: M, start: nat, end: nat)
    returns (model: M, predictions: seq<P>, actuals: seq<L>, failed: nat)
    requires j.Valid() && j.init <= start < end <= |j.X|
    requires m == j.ModelAt(start)
    requires forall i :: start < i < end ==> j.TrainEnd(i) != i
    ensures model == j.Carried(end)
    ensures predictions == j.Kept(start, end) && actuals == j.KeptLabels(start, end)
    ensures |predictions| + failed == end - start
  {
    model, predictions, actuals, failed := m, [], [], 0;
    var i := start;
    while i < end
      invariant start <= i <= end
      invariant model == if i == start then j.ModelAt(start) else j.Carried(i)
      invariant predictions == j.Kept(start, i) && actuals == j.KeptLabels(start, i)
      invariant |predictions| + failed == i - start
    {
      assert model == j.ModelAt(i);
      var (next, outcome) := j.predict(model, j.X[i]);
      model := next;
      i := i + 1;
      if outcome == None {
        failed := failed + 1;
        continue;
      }
      predictions, actuals := predictions + [outcome.value], actuals + [j.y[i - 1]];
    }
  }

  lemma {:induction false} KeptJoins<M, F, L, P>(j: Job<M, F, L, P>, a: nat, b: nat, c: nat)
    requires j.Valid() && j.init <= a <= b <= c <= |j.X|
    ensures j.Kept(a, c) == j.Kept(a, b) + j.Kept(b, c)
    ensures j.KeptLabels(a, c) == j.KeptLabels(a, b) + j.KeptLabels(b, c)
    decreases c - b
  {
    if b < c { KeptJoins(j, a, b, c - 1); }
  }

  /** The training test of the loop: retraining is due exactly at whole periods. */
  lemma DueAt<M, F, L, P>(j: Job<M, F, L, P>, start: nat, q: nat, days: nat)
    requires j.Valid() && j.init <= start <= |j.X| && Since(j, start, q, days)
    ensures days >= j.every <==> days == j.Period()
    ensures days == j.Period() ==> Since(j, start, q + 1, 0)
    ensures days == 0 || days == j.Period() <==> j.TrainEnd(start) == start
  {
    PeriodIs(j);
    assert Product(q + 1, j.Period()) == Product(q, j.Period()) + j.Period();
    if days == j.Period() { Divided(start - j.init, q + 1, j.Period(), 0); }
    else { Divided(start - j.init, q, j.Period(), days); }
  }

  lemma AfterStep<M, F, L, P>(j: Job<M, F, L, P>, start: nat, q: nat, days: nat)
    requires j.Valid() && Since(j, start, q, days) && days < j.Period()
    ensures Since(j, start + j.step, q, days + j.step)
  {
    PeriodIs(j);
    WholeSteps(days, j.Period(), j.step);
    Divided(days + j.step, days / j.step + 1, j.step, 0);
  }

  /** What calculate_metrics makes of its two arrays: the `measured` flag, or a ValueError. */
  datatype Metrics = Metrics(measured: bool) | Mismatch

  method CalculateMetrics<L, P>(predictions: seq<P>, actuals: seq<L>) returns (m: Metrics)
    ensures m.Mismatch? <==> predictions != [] && actuals != [] && |predictions| != |actuals|
    ensures m.Metrics? ==> (m.measured <==> predictions != [] && actuals != [])
  {
    if |predictions| == 0 || |actuals| == 0 { return Metrics(false); }
    if |predictions| != |actuals| { return Mismatch; }
    return Metrics(true);
  }

  /** How a run ends. */
  datatype Ended<L, P> = Raised | Ended(result: ValidationResult<L, P>)

  function Finish<L, P>(m: Metrics, total: nat, failed: nat, steps: seq<StepResult<L, P>>): Ended<L, P> {
    match m
    case Mismatch => Raised
    case Metrics(measured) => Ended(ValidationResult(total, failed, measured, steps))
  }

  /** run_walk_forward after the size check. */
  method Walk<M, F, L, P>(j: Job<M, F, L, P>) returns (r: Ended<L, P>)
    requires j.Valid()
    ensures r.Ended? && Reports(j, r.result)
  {
    hide j.Kept, j.KeptLabels, j.Period, j.ModelAt, j.Carried, j.TrainEnd, j.Outcome;
    hide Since, StepStart, IsStep;
    var n := |j.X|;
    var steps: seq<StepResult<L, P>> := [];
    var allPredictions: seq<P>, allActuals: seq<L> := [], [];
    var failed: nat, days: nat := 0, 0;
    var start := j.init;
    var m := j.train(j.fresh0, j.X[..start], j.y[..start]);
    var due := false;
    ghost var q: nat := 0;
    AtStart(j);
    while start < n
      invariant j.init <= start <= n && start == Min(StepStart(j, |steps|), n)
      invariant forall k :: 0 <= k < |steps| ==> IsStep(j, k, steps[k])
      invariant allPredictions == j.Kept(j.init, start) && allActuals == j.KeptLabels(j.init, start)
      invariant |allPredictions| + failed == start - j.init
      invariant m == j.Carried(start)
      invariant start < n ==> Since(j, start, q, days)
      invariant start < n ==> (days > 0 <==> |steps| > 0) && (|steps| > 0 <==> start > j.init)
      invariant due <==> days >= j.every
      decreases n - start
    {
      var end := Min(start + j.step, n);
      DueAt(j, start, q, days);
      var retrained := due;
      Trained(j, start, due);
      if due {
        m := j.train(m, j.X[..start], j.y[..start]);
        q, days := q + 1, 0;
        due := false;
      }
      BetweenSteps(j, start, q, days);
      var predictions, actuals, lost;
      m, predictions, actuals, lost := TestWindow(j, m, start, end);
      KeptJoins(j, j.init, start, end);
      allPredictions, allActuals, failed := allPredictions + predictions, allActuals + actuals, failed + lost;
      steps := steps + [StepResult(|steps|, start, start, end, predictions, actuals, retrained)];
      StepIs(j, |steps| - 1, steps[|steps| - 1]);
      days := days + (end - start);
      start := end;
      due := days >= j.every;
    }
    var metrics := CalculateMetrics(allPredictions, allActuals);
    r := Finish(metrics, |allPredictions|, failed, steps);
  }

  lemma AtStart<M, F, L, P>(j: Job<M, F, L, P>)
    requires j.Valid()
    ensures Since(j, j.init, 0, 0) && StepStart(j, 0) == j.init
    ensures j.Kept(j.init, j.init) == [] && j.KeptLabels(j.init, j.init) == []
    ensures j.Carried(j.init) == j.train(j.fresh0, j.X[..j.init], j.y[..j.init])
  {
  }

  lemma StepIs<M, F, L, P>(j: Job<M, F, L, P>, k: nat, s: StepResult<L, P>)
    requires j.Valid() && s.step == k && s.trainSize == s.testStart < |j.X|
    requires s.testStart == Min(StepStart(j, k), |j.X|) && s.testEnd == Min(s.testStart + j.step, |j.X|)
    requires s.predictions == j.Kept(s.testStart, s.testEnd) && s.actuals == j.KeptLabels(s.testStart, s.testEnd)
    requires s.retrained <==> k > 0 && j.TrainEnd(s.testStart) == s.testStart
    ensures IsStep(j, k, s) && s.testEnd == Min(StepStart(j, k + 1), |j.X|)
  {
    OneMoreStep(j, k);
    hide Product, j.Period;
  }

  lemma OneMoreStep<M, F, L, P>(j: Job<M, F, L, P>, k: nat)
    ensures StepStart(j, k + 1) == StepStart(j, k) + j.step
  {
  }

  /** What the loop's flag does to the model. */
  lemma Trained<M, F, L, P>(j: Job<M, F, L, P>, start: nat, due: bool)
    requires j.Valid() && j.init <= start < |j.X|
    requires due <==> start > j.init && j.TrainEnd(start) == start
    ensures j.ModelAt(start) == if due then j.train(j.Carried(start), j.X[..start], j.y[..start]) else j.Carried(start)
  {
  }

  lemma BetweenSteps<M, F, L, P>(j: Job<M, F, L, P>, start: nat, q: nat, days: nat)
    requires j.Valid() && j.init <= start <= |j.X| && Since(j, start, q, days) && days < j.every
    ensures forall i :: start < i < start + j.step && i < |j.X| ==> j.TrainEnd(i) != i
    ensures Since(j, start + j.step, q, days + j.step)
  {
    PeriodIs(j);
    forall i | start < i < start + j.step && i < |j.X| ensures j.TrainEnd(i) != i {
      InsideStep(j, start, q, days, i);
    }
    AfterStep(j, start, q, days);
  }

  // ---- what a report tells -------------------------------------------------------------------

  /** Sample i lies in exactly one step, and the model that predicts it was trained on a prefix ending at
      or before that step's start and fewer than every + step samples back. */
  lemma EachSampleOnce<M, F, L, P>(j: Job<M, F, L, P>, i: nat)
    requires j.Valid() && j.init <= i < |j.X|
    ensures var k := (i - j.init) / j.step;
            && StepStart(j, k) <= i < StepEnd(j, k)
            && (forall k' :: 0 <= k' && StepStart(j, k') <= i < StepEnd(j, k') ==> k' == k)
            && j.init <= j.TrainEnd(i) <= StepStart(j, k) && i - j.TrainEnd(i) < j.every + j.step
  {
    var d := i - j.init;
    var k := d / j.step;
    assert d == k * j.step + d % j.step;
    forall k' | 0 <= k' && StepStart(j, k') <= i < StepEnd(j, k') ensures k' == k {
      Divided(d, k', j.step, i - StepStart(j, k'));
    }
    PeriodIs(j);
    var t := j.TrainEnd(i) - j.init;
    assert t == (d / j.Period()) * j.Period();
    TrainedBeforeStep(d, t, j.Period(), j.step);
  }

  lemma TrainedBeforeStep(d: nat, t: int, p: nat, s: nat)
    requires s >= 1 && p >= 1 && p % s == 0 && t == (d / p) * p
    ensures 0 <= t <= (d / s) * s
  {
    DivisionIs(d, p);
    DivisionIs(p, s);
    DivisionIs(d, s);
    WholeStepsBelow(d / p, p / s, d / s, p, s, d, t);
  }

  lemma DivisionIs(a: nat, b: nat)
    requires b >= 1
    ensures a == (a / b) * b + a % b && 0 <= a / b && 0 <= a % b < b
  {
  }

  /** A multiple of p, itself a multiple of s, lies below the last multiple of s up to d if it lies below d. */
  lemma WholeStepsBelow(q: nat, u: nat, k: nat, p: nat, s: nat, d: nat, t: int)
    requires t == q * p && p == u * s && t <= d < k * s + s
    ensures 0 <= t <= k * s
  {
    Regroup(q, u, s, p);
    if q * u > k { Scale(k + 1, q * u, s); }
    else { Scale(q * u, k, s); }
  }

  lemma Regroup(a: nat, b: nat, s: int, p: int)
    requires p == b * s
    ensures a * p == (a * b) * s && a * b >= 0
  {
  }

  /** The kept predictions and labels belong together: position by position they come from the same
      sample, in order, and exactly the samples whose prediction succeeded are there. */
  lemma {:induction false} PairedByOrigin<M, F, L, P>(j: Job<M, F, L, P>, a: nat, b: nat) returns (origin: seq<nat>)
    requires j.Valid() && j.init <= a <= b <= |j.X|
    ensures |origin| == |j.Kept(a, b)| == |j.KeptLabels(a, b)|
    ensures forall x :: 0 <= x < |origin| ==>
              && a <= origin[x] < b && j.Outcome(origin[x]) == Some(j.Kept(a, b)[x])
              && j.KeptLabels(a, b)[x] == j.y[origin[x]]
    ensures forall x, z :: 0 <= x < z < |origin| ==> origin[x] < origin[z]
    ensures forall i :: a <= i < b && j.Outcome(i).Some? ==> i in origin
    decreases b - a
  {
    if a == b { return []; }
    origin := PairedByOrigin(j, a, b - 1);
    if j.Outcome(b - 1).Some? { origin := origin + [b - 1]; }
  }

  /** All the steps' predictions in a row. */
  function Collected<L, P>(steps: seq<StepResult<L, P>>): seq<P> {
    if steps == [] then [] else Collected(steps[..|steps| - 1]) + steps[|steps| - 1].predictions
  }

  /** What the metrics are computed from is the kept prediction of every sample after the initial
      window. */
  lemma {:induction false} CollectedIsKept<M, F, L, P>(j: Job<M, F, L, P>, steps: seq<StepResult<L, P>>)
    requires j.Valid() && forall k :: 0 <= k < |steps| ==> IsStep(j, k, steps[k])
    ensures j.init <= Min(StepStart(j, |steps|), |j.X|)
    ensures Collected(steps) == j.Kept(j.init, Min(StepStart(j, |steps|), |j.X|))
    decreases |steps|
  {
    if steps != [] {
      var n := |steps| - 1;
      CollectedIsKept(j, steps[..n]);
      assert IsStep(j, n, steps[n]);
      StepIs(j, n, steps[n]);
      KeptJoins(j, j.init, steps[n].testStart, steps[n].testEnd);
    }
  }

  /** A step reports its own start as the training size; that is what its model was trained on if and only
      if the step is the first or retrained. */
  lemma ReportedSizeIff<M, F, L, P>(j: Job<M, F, L, P>, k: nat, s: StepResult<L, P>)
    requires j.Valid() && IsStep(j, k, s)
    ensures s.trainSize == j.TrainEnd(s.testStart) <==> k == 0 || s.retrained
    ensures s.trainSize >= j.TrainEnd(s.testStart)
  {
    TrainEndBounds(j, s.testStart);
    if k == 0 { assert StepStart(j, 0) == j.init; }
  }

  // ---- what a prediction can have seen -------------------------------------------------------

  ghost predicate SameUpTo<M, F, L, P>(j: Job<M, F, L, P>, g: Job<M, F, L, P>, x: nat, l: int)
    requires x <= |j.X| && x <= |g.X| && 0 <= l <= |j.y| && l <= |g.y|
  {
    && g == j.(X := g.X, y := g.y)
    && (forall i :: 0 <= i < x ==> j.X[i] == g.X[i])
    && (forall i :: 0 <= i < l ==> j.y[i] == g.y[i])
  }

  lemma TrainEndBack<M, F, L, P>(j: Job<M, F, L, P>, i: nat)
    requires j.Valid() && j.init < i <= |j.X| && j.TrainEnd(i) != i
    ensures j.TrainEnd(i - 1) == j.TrainEnd(i)
  {
    var d, p := i - j.init, j.Period();
    Divided(d - 1, d / p, p, d % p - 1);
  }

  lemma TrainEndBounds<M, F, L, P>(j: Job<M, F, L, P>, i: nat)
    requires j.Valid() && j.init <= i <= |j.X|
    ensures j.init <= j.TrainEnd(i) <= i && (i == j.init ==> j.TrainEnd(i) == i)
  {
    var d, p := i - j.init, j.Period();
    assert d % p <= d by { if d < p { Divided(d, 0, p, d); } }
    if d == 0 { Divided(0, 0, p, 0); }
  }

  lemma {:induction false} SameModel<M, F, L, P>(j: Job<M, F, L, P>, g: Job<M, F, L, P>, i: nat)
    requires j.Valid() && g.Valid() && j.init <= i <= |j.X| && i <= |g.X|
    requires 0 <= j.TrainEnd(i) <= i && SameUpTo(j, g, i, j.TrainEnd(i))
    ensures j.ModelAt(i) == g.ModelAt(i)
    decreases i
  {
    TrainEndBounds(j, i);
    if i == j.init {
      assert j.X[..i] == g.X[..i] && j.y[..i] == g.y[..i];
    } else {
      TrainEndBounds(j, i - 1);
      if j.TrainEnd(i) != i {
        TrainEndBack(j, i);
      } else {
        assert j.X[..i] == g.X[..i] && j.y[..i] == g.y[..i];
      }
      SameModel(j, g, i - 1);
    }
  }

  /** CAUSALITY BY ROWS. A prediction is determined by the features up to its own row and the labels of
      the rows before the last training, whatever comes after and however the model behaves. */
  lemma SeesOnlyEarlierRows<M, F, L, P>(j: Job<M, F, L, P>, g: Job<M, F, L, P>, i: nat)
    requires j.Valid() && g.Valid() && j.init <= i < |j.X| && i < |g.X|
    requires 0 <= j.TrainEnd(i) <= i && SameUpTo(j, g, i + 1, j.TrainEnd(i))
    ensures j.Outcome(i) == g.Outcome(i)
  {
    SameModel(j, g, i);
  }

  /** lab/datasets.py: a label says whether the close `ahead` rows later is higher. */
  function Labels(closes: seq<real>, ahead: nat): (y: seq<bool>)
    requires ahead <= |closes|
    ensures |y| == |closes| - ahead
    ensures forall i :: 0 <= i < |y| ==> y[i] == (closes[i + ahead] > closes[i])
  {
    seq(|closes| - ahead, i requires 0 <= i < |closes| - ahead => closes[i + ahead] > closes[i])
  }

  /** CAUSALITY BY PRICES, where it holds. From `ahead` - 1 rows after a training on, a prediction depends
      on no price after its own row. */
  lemma SeesOnlyEarlierPrices<M, F, P>(j: Job<M, F, bool, P>, g: Job<M, F, bool, P>, c: seq<real>, d: seq<real>,
                                       ahead: nat, i: nat)
    requires j.Valid() && g.Valid() && j.init <= i < |j.X| && i < |g.X| && g == j.(X := g.X, y := g.y)
    requires 1 <= ahead <= |c| && ahead <= |d| && j.y == Labels(c, ahead) && g.y == Labels(d, ahead)
    requires forall x :: 0 <= x <= i ==> c[x] == d[x] && j.X[x] == g.X[x]
    requires (i - j.init) % j.Period() >= ahead - 1
    ensures j.Outcome(i) == g.Outcome(i)
  {
    TrainEndBounds(j, i);
    SeesOnlyEarlierRows(j, g, i);
  }

  /** A model that predicts the last label it was trained on. */
  function LastLabel(c: seq<real>, ahead: nat, init: nat, step: nat, every: nat): (j: Job<bool, int, bool, bool>)
    requires ahead <= |c|
    ensures |j.X| == |j.y| == |c| - ahead && j.y == Labels(c, ahead)
    ensures j.init == init && j.step == step && j.every == every
  {
    Job((m: bool, X: seq<int>, y: seq<bool>) => if y == [] then m else y[|y| - 1],
        (m: bool, x: int) => (m, Some(m)),
        false, seq(|c| - ahead, i => 0), Labels(c, ahead), init, step, every)
  }

  lemma {:induction false} LastLabelIs(c: seq<real>, ahead: nat, init: nat, step: nat, every: nat, i: nat)
    requires ahead <= |c|
    requires var j := LastLabel(c, ahead, init, step, every); j.Valid() && init <= i < |j.X|
    ensures var j := LastLabel(c, ahead, init, step, every);
            && 0 < j.TrainEnd(i) <= i && j.ModelAt(i) == j.y[j.TrainEnd(i) - 1]
    decreases i
  {
    var j := LastLabel(c, ahead, init, step, every);
    hide j.Period, j.TrainEnd, Labels, Product;
    TrainEndBounds(j, i);
    if i > init && j.TrainEnd(i) != i {
      TrainEndBack(j, i);
      LastLabelIs(c, ahead, init, step, every, i - 1);
    }
  }

  /** And where it fails. Within the first `ahead` - 1 rows from a training the last training label is
      already a later price: for every such row there are two histories, alike up to that row, on which
      some model predicts differently. */
  lemma SeesLaterPrice(n: nat, ahead: nat, init: nat, step: nat, every: nat, i: nat)
    returns (c: seq<real>, d: seq<real>)
    requires 0 < init <= i < n && step >= 1 && every >= 1 && ahead >= 1
    requires var j := LastLabel(seq(n + ahead, x => 1.0), ahead, init, step, every);
             j.Valid() && (i - init) % j.Period() < ahead - 1
    ensures |c| == |d| == n + ahead && forall x :: 0 <= x <= i ==> c[x] == d[x]
    ensures var j, g := LastLabel(c, ahead, init, step, every), LastLabel(d, ahead, init, step, every);
            j.Valid() && g.Valid() && j.Outcome(i) != g.Outcome(i)
  {
    c := seq(n + ahead, x => 1.0);
    var j := LastLabel(c, ahead, init, step, every);
    TrainEndBounds(j, i);
    var t := j.TrainEnd(i);
    LastLabelPredicts(c, ahead, init, step, every, i);
    d := LaterRise(n, ahead, i, t);
    var g := LastLabel(d, ahead, init, step, every);
    SameTrainEnd(j, g, i);
    LastLabelPredicts(d, ahead, init, step, every, i);
  }

  /** A flat history, changed after row i so that label t - 1 changes. */
  lemma LaterRise(n: nat, ahead: nat, i: nat, t: nat) returns (d: seq<real>)
    requires 1 <= t <= i + 1 <= n && i < t - 1 + ahead
    ensures var c := seq(n + ahead, x => 1.0);
            && |d| == n + ahead && (forall x :: 0 <= x <= i ==> c[x] == d[x])
            && Labels(c, ahead)[t - 1] != Labels(d, ahead)[t - 1]
  {
    d := seq(n + ahead, x => if x == t - 1 + ahead then 2.0 else 1.0);
  }

  lemma SameTrainEnd<M, F, L, P>(j: Job<M, F, L, P>, g: Job<M, F, L, P>, i: nat)
    requires j.Valid() && g.Valid() && j.init <= i <= |j.X| == |g.X|
    requires g.init == j.init && g.step == j.step && g.every == j.every
    ensures g.TrainEnd(i) == j.TrainEnd(i)
  {
  }

  lemma LastLabelPredicts(c: seq<real>, ahead: nat, init: nat, step: nat, every: nat, i: nat)
    requires ahead <= |c|
    requires var j := LastLabel(c, ahead, init, step, every); j.Valid() && init <= i < |j.X|
    ensures var j := LastLabel(c, ahead, init, step, every);
            && 0 < j.TrainEnd(i) <= i && j.Outcome(i) == Some(j.y[j.TrainEnd(i) - 1])
  {
    LastLabelIs(c, ahead, init, step, every, i);
  }

  // ---- what the model is asked, in order -------------------------------------------------------

  /** A call of the model: trained on rows and labels, or asked for one row. */
  datatype Asked<F, L> = Fed(X: seq<F>, y: seq<L>) | For(x: F)

  /** A model that only remembers its calls. */
  ghost function Recorder<F, L>(X: seq<F>, y: seq<L>, init: nat, step: nat, every: nat)
    : (j: Job<seq<Asked<F, L>>, F, L, seq<Asked<F, L>>>)
    ensures j.X == X && j.y == y && j.init == init && j.step == step && j.every == every
  {
    Job((calls: seq<Asked<F, L>>, rows: seq<F>, labels: seq<L>) => calls + [Fed(rows, labels)],
        (calls: seq<Asked<F, L>>, x: F) => (calls + [For(x)], Some(calls)),
        [], X, y, init, step, every)
  }

  ghost function Questions<F, L>(X: seq<F>): (calls: seq<Asked<F, L>>)
    ensures |calls| == |X| && forall i :: 0 <= i < |X| ==> calls[i] == For(X[i])
  {
    if X == [] then [] else Questions(X[..|X| - 1]) + [For(X[|X| - 1])]
  }

  /** The calls of the recorder when sample i comes up, last trained before sample t. */
  ghost predicate Rests<F, L>(j: Job<seq<Asked<F, L>>, F, L, seq<Asked<F, L>>>, t: nat, i: nat)
    requires j.Valid() && j.init <= t <= i < |j.X|
  {
    j.ModelAt(i) == (if t == j.init then [] else j.ModelAt(t - 1) + [For(j.X[t - 1])])
                    + [Fed(j.X[..t], j.y[..t])] + Questions(j.X[t..i])
  }

  lemma RestsNow<F, L>(X: seq<F>, y: seq<L>, init: nat, step: nat, every: nat, i: nat)
    requires var j := Recorder(X, y, init, step, every);
             j.Valid() && init <= i < |X| && (i > init ==> j.TrainEnd(i) == i)
    ensures Rests(Recorder(X, y, init, step, every), i, i)
  {
    var j := Recorder(X, y, init, step, every);
    hide j.Period, j.TrainEnd;
    assert X[i..i] == [];
    assert i > init ==> j.Carried(i) == j.ModelAt(i - 1) + [For(X[i - 1])];
    assert j.ModelAt(i) == (if i == init then [] else j.Carried(i)) + [Fed(X[..i], y[..i])];
    assert j.ModelAt(i) == j.ModelAt(i) + Questions<F, L>(X[i..i]);
  }

  lemma RestsOnward<F, L>(X: seq<F>, y: seq<L>, init: nat, step: nat, every: nat, t: nat, i: nat)
    requires var j := Recorder(X, y, init, step, every);
             j.Valid() && init <= t < i < |X| && j.TrainEnd(i) != i && Rests(j, t, i - 1)
    ensures Rests(Recorder(X, y, init, step, every), t, i)
  {
    var j := Recorder(X, y, init, step, every);
    assert j.ModelAt(i) == j.Carried(i) == j.ModelAt(i - 1) + [For(X[i - 1])];
    hide j.Period, j.TrainEnd, j.ModelAt, j.Carried;
    assert X[t..i][..i - 1 - t] == X[t..i - 1] && X[t..i][i - 1 - t] == X[i - 1];
    assert Questions<F, L>(X[t..i]) == Questions<F, L>(X[t..i - 1]) + [For(X[i - 1])];
  }

  lemma LastTraining<M, F, L, P>(j: Job<M, F, L, P>, i: nat) returns (q: nat)
    requires j.Valid() && j.init <= i < |j.X|
    ensures j.TrainEnd(i) == j.init + q * j.Period() && j.TrainEnd(i) <= i < j.TrainEnd(i) + j.Period()
  {
    q := (i - j.init) / j.Period();
    DivisionIs(i - j.init, j.Period());
    hide j.Period;
  }

  lemma {:induction false} RestsAt<F, L>(X: seq<F>, y: seq<L>, init: nat, step: nat, every: nat, i: nat)
    requires var j := Recorder(X, y, init, step, every); j.Valid() && init <= i < |X|
    ensures var j := Recorder(X, y, init, step, every); init <= j.TrainEnd(i) <= i && Rests(j, j.TrainEnd(i), i)
    decreases i
  {
    var j := Recorder(X, y, init, step, every);
    TrainEndBounds(j, i);
    hide j.Period, j.TrainEnd, Rests;
    if j.TrainEnd(i) == i {
      RestsNow(X, y, init, step, every, i);
    } else {
      TrainEndBack(j, i);
      RestsAt(X, y, init, step, every, i - 1);
      RestsOnward(X, y, init, step, every, j.TrainEnd(i), i);
    }
  }

  /** WHAT A PREDICTION RESTS ON. When sample i comes up, the model was last trained on all rows and labels
      before row t, and has since been asked for rows t up to i, once each and in order; t is the last row at
      most i that lies a whole number of periods after the initial window; before that training it had been
      asked for every row up to it, or, for the first, for none. */
  lemma RestsOn<F, L>(X: seq<F>, y: seq<L>, init: nat, step: nat, every: nat, i: nat) returns (t: nat, q: nat)
    requires var j := Recorder(X, y, init, step, every); j.Valid() && init <= i < |X|
    ensures var j := Recorder(X, y, init, step, every);
            && t == init + q * j.Period() && init <= t <= i < t + j.Period()
            && Rests(j, t, i) && j.Outcome(i) == Some(j.ModelAt(i))
  {
    var j := Recorder(X, y, init, step, every);
    RestsAt(X, y, init, step, every, i);
    q := LastTraining(j, i);
    t := j.TrainEnd(i);
    hide j.Period, j.TrainEnd, Rests;
  }

  // ---- the whole call ------------------------------------------------------------------------

  /** int(n * pct), and the least worth training on. */
  function InitialSize(n: nat, pct: real): (size: nat)
    requires 0.1 <= pct <= 0.9
    ensures size as real <= n as real * pct < size as real + 1.0
    ensures n > 0 ==> size < n
  {
    var size := (n as real * pct).Floor;
    assert 0.0 <= n as real * pct <= n as real * 0.9;
    size
  }

  /** run_walk_forward, which never raises. Too little data is a report with no steps and nothing measured. */
  method RunWalkForward<M, F, L, P>(train: (M, seq<F>, seq<L>) -> M, predict: (M, F) -> (M, Option<P>), model: M,
                                    features: seq<F>, labels: seq<L>, pct: real, step: nat, every: nat)
    returns (r: Ended<L, P>)
    requires |labels| == |features| && 0.1 <= pct <= 0.9 && step >= 1 && every >= 1
    ensures r.Ended?
    ensures var init := InitialSize(|features|, pct);
            var job := Job(train, predict, model, features, labels, init, step, every);
            if init < 30 then r.result == ValidationResult(0, 0, false, [])
            else Reports(job, r.result) && r.result.steps != []
  {
    var init := InitialSize(|features|, pct);
    if init < 30 { return Ended(ValidationResult(0, 0, false, [])); }
    var j := Job(train, predict, model, features, labels, init, step, every);
    r := Walk(j);
    assert StepStart(j, 0) == init;
  }

  /** The guard of lab/store.py: the flag claimed by the metrics against one recomputed from the counts. */
  method Record<L, P>(r: ValidationResult<L, P>) returns (inconsistent: bool)
    ensures inconsistent <==> r.measured != (r.totalPredictions > 0)
  {
    var measured := r.totalPredictions > 0;
    return r.measured != measured;
  }

  /** The Lab's use of the two: whatever the model, the data and the failures, a run neither raises nor
      meets the guard. The flag comes from the collected arrays, the count from their lengths. */
  method RunAndRecord<M, F, L, P>(train: (M, seq<F>, seq<L>) -> M, predict: (M, F) -> (M, Option<P>), model: M,
                                  features: seq<F>, labels: seq<L>, pct: real, step: nat, every: nat)
    returns (raised: bool, inconsistent: bool)
    requires |labels| == |features| && 0.1 <= pct <= 0.9 && step >= 1 && every >= 1
    ensures !raised && !inconsistent
  {
    var r := RunWalkForward(train, predict, model, features, labels, pct, step, every);
    raised, inconsistent := r.Raised?, false;
    if r.Ended? { inconsistent := Record(r.result); }
  }
}
