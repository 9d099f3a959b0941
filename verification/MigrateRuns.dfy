/** Whole histories of `up` and `down` (db/migrate.py), with a failure possible at any migration: the
    applied versions stay a prefix, and the schema is a function of how long that prefix is. */
module MigrateRuns {
  import opened Wrappers
  import opened Migrate

  ghost predicate PrefixApplied<S>(migs: seq<Migration<S>>, applied: map<nat, int>, k: nat) {
    k <= |migs| && forall i :: 0 <= i < |migs| ==> (migs[i].version in applied <==> i < k)
  }

  /** The schema the first k migrations build from `base`, if they all succeed. */
  ghost function SchemaAt<S>(migs: seq<Migration<S>>, base: S, k: nat): Option<S>
    requires k <= |migs|
  {
    if k == 0 then Some(base)
    else
      match SchemaAt(migs, base, k - 1)
      case None => None
      case Some(s) => migs[k - 1].up(s)
  }

  /** The database stands at version k. */
  ghost predicate At<S>(migs: seq<Migration<S>>, base: S, db: Db<S>, k: nat) {
    PrefixApplied(migs, db.applied, k) && SchemaAt(migs, base, k) == Some(db.schema)
  }

  /** Each down body undoes its up body. */
  ghost predicate DownUndoesUp<S(!new)>(migs: seq<Migration<S>>) {
    forall i, s :: 0 <= i < |migs| && migs[i].up(s).Some? ==> migs[i].down(migs[i].up(s).value) == Some(s)
  }

  /** p is how many versions are at or below the target (all of them without one). */
  ghost predicate TargetIs<S>(migs: seq<Migration<S>>, target: Option<nat>, p: nat) {
    p <= |migs| && forall i :: 0 <= i < |migs| ==> ((target.Some? ==> migs[i].version <= target.value) <==> i < p)
  }

  lemma {:induction false} TargetExists<S>(migs: seq<Migration<S>>, target: Option<nat>) returns (p: nat)
    requires Sorted(migs)
    ensures TargetIs(migs, target, p)
    decreases |migs|
  {
    if migs == [] {
      p := 0;
    } else {
      var n := |migs| - 1;
      if target.Some? ==> migs[n].version <= target.value {
        p := n + 1;
      } else {
        p := TargetExists(migs[..n], target);
        forall i | 0 <= i < |migs| ensures (target.Some? ==> migs[i].version <= target.value) <==> i < p {
          if i < n { assert migs[..n][i] == migs[i]; }
        }
      }
    }
  }

  // ---- plans from a prefix state -------------------------------------------------------------

  /** migs[k], ..., migs[m-1]. */
  ghost function Onwards<S>(migs: seq<Migration<S>>, k: nat, m: nat): seq<Migration<S>>
    requires m <= |migs|
  {
    if m <= k then [] else migs[k..m]
  }

  lemma OnwardsStep<S>(migs: seq<Migration<S>>, k: nat, m: nat)
    requires m < |migs|
    ensures Onwards(migs, k, m + 1) == if k <= m then Onwards(migs, k, m) + [migs[m]] else []
  {
  }

  lemma {:induction false} PendingOfPrefix<S>(migs: seq<Migration<S>>, applied: map<nat, int>, target: Option<nat>,
                                              k: nat, p: nat, n: nat)
    requires PrefixApplied(migs, applied, k) && TargetIs(migs, target, p) && n <= |migs|
    ensures Pending(migs[..n], applied, target) == Onwards(migs, k, if n < p then n else p)
    decreases n
  {
    if n > 0 {
      hide PrefixApplied, TargetIs, Pending, Onwards;
      PendingOfPrefix(migs, applied, target, k, p, n - 1);
      PendingStep(migs, applied, target, n);
      Thresholds(migs, applied, target, k, p, n - 1);
      OnwardsStep(migs, k, n - 1);
      if n - 1 < k { BeforeOnwards(migs, k, n - 1); }
    } else {
      assert migs[..0] == [];
    }
  }

  lemma Thresholds<S>(migs: seq<Migration<S>>, applied: map<nat, int>, target: Option<nat>, k: nat, p: nat, i: nat)
    requires PrefixApplied(migs, applied, k) && TargetIs(migs, target, p) && i < |migs|
    ensures migs[i].version in applied <==> i < k
    ensures (target.Some? ==> migs[i].version <= target.value) <==> i < p
    ensures p <= |migs|
  {
  }

  lemma BeforeOnwards<S>(migs: seq<Migration<S>>, k: nat, m: nat)
    requires m <= |migs| && m <= k
    ensures Onwards(migs, k, m) == []
  {
  }

  lemma PendingStep<S>(migs: seq<Migration<S>>, applied: map<nat, int>, target: Option<nat>, n: nat)
    requires 0 < n <= |migs|
    ensures var m := migs[n - 1];
            Pending(migs[..n], applied, target)
            == if m.version !in applied && (target.Some? ==> m.version <= target.value)
               then Pending(migs[..n - 1], applied, target) + [m] else Pending(migs[..n - 1], applied, target)
  {
    assert migs[..n][..n - 1] == migs[..n - 1] && migs[..n][n - 1] == migs[n - 1];
  }

  /** migs[k-1], ..., migs[t]. */
  ghost function Backwards<S>(migs: seq<Migration<S>>, t: nat, k: nat): seq<Migration<S>>
    requires k <= |migs|
  {
    if k <= t then [] else [migs[k - 1]] + Backwards(migs, t, k - 1)
  }

  lemma {:induction false} RevertibleOfPrefix<S>(migs: seq<Migration<S>>, applied: map<nat, int>, target: Option<nat>,
                                                 k: nat, p: nat, n: nat)
    requires PrefixApplied(migs, applied, k) && TargetIs(migs, target, p) && n <= |migs|
    ensures var m := if n < k then n else k;
            Revertible(migs[..n], applied, target)
            == if target.Some? then Backwards(migs, p, m) else if m == 0 then [] else Backwards(migs, m - 1, m)
    decreases n
  {
    if n > 0 {
      hide PrefixApplied, TargetIs, Revertible;
      RevertibleOfPrefix(migs, applied, target, k, p, n - 1);
      RevertibleStep(migs, applied, target, n);
      Thresholds(migs, applied, target, k, p, n - 1);
    }
  }

  lemma RevertibleStep<S>(migs: seq<Migration<S>>, applied: map<nat, int>, target: Option<nat>, n: nat)
    requires 0 < n <= |migs|
    ensures var m, rest := migs[n - 1], Revertible(migs[..n - 1], applied, target);
            Revertible(migs[..n], applied, target)
            == if m.version !in applied then rest
               else if target == None then [m]
               else if m.version > target.value then [m] + rest else rest
  {
    assert migs[..n][..n - 1] == migs[..n - 1] && migs[..n][n - 1] == migs[n - 1];
  }

  // ---- executing them ------------------------------------------------------------------------

  lemma {:induction false} ApplyRange<S>(migs: seq<Migration<S>>, base: S, db: Db<S>, k: nat, m: nat, budget: nat)
    returns (j: nat)
    requires Sorted(migs) && At(migs, base, db, k) && k <= m <= |migs|
    ensures var r := ApplyAll(migs[k..m], db, budget);
            k <= j <= m && At(migs, base, r.db, j) && (r.exit == Ok ==> j == m)
    decreases m - k
  {
    if k == m || budget == 0 || migs[k].up(db.schema) == None {
      j := k;
    } else {
      var next := Db(migs[k].up(db.schema).value, db.applied[migs[k].version := migs[k].checksum]);
      assert At(migs, base, next, k + 1);
      assert migs[k..m][1..] == migs[k + 1..m];
      j := ApplyRange(migs, base, next, k + 1, m, budget - 1);
    }
  }

  lemma {:induction false} RevertRange<S(!new)>(migs: seq<Migration<S>>, base: S, db: Db<S>, t: nat, k: nat,
                                         budget: nat) returns (j: nat)
    requires Sorted(migs) && DownUndoesUp(migs) && At(migs, base, db, k)
    ensures var r := RevertAll(Backwards(migs, t, k), db, budget);
            j <= k && (t <= k ==> t <= j) && At(migs, base, r.db, j)
            && (r.exit == Ok ==> j == if t < k then t else k) && (k <= budget ==> r.exit == Ok)
    decreases k
  {
    if k <= t || budget == 0 {
      j := k;
    } else {
      hide At, DownUndoesUp, Sorted, SchemaAt, PrefixApplied;
      var next := OneBack(migs, base, db, k);
      var plan := Backwards(migs, t, k);
      assert plan[0] == migs[k - 1] && plan[1..] == Backwards(migs, t, k - 1);
      hide Backwards;
      j := RevertRange(migs, base, next, t, k - 1, budget - 1);
    }
  }

  lemma OneBack<S(!new)>(migs: seq<Migration<S>>, base: S, db: Db<S>, k: nat) returns (next: Db<S>)
    requires Sorted(migs) && DownUndoesUp(migs) && At(migs, base, db, k) && k > 0
    ensures k <= |migs| && migs[k - 1].down(db.schema) == Some(next.schema)
    ensures next.applied == db.applied - {migs[k - 1].version} && At(migs, base, next, k - 1)
  {
    var s := SchemaAt(migs, base, k - 1).value;
    assert migs[k - 1].up(s) == Some(db.schema);
    next := Db(s, db.applied - {migs[k - 1].version});
  }

  /** One command from version k leaves the database at some version k' on the way to where it was
      asked to go: there on success, and never past it. */
  lemma ExecuteKeepsPrefix<S(!new)>(migs: seq<Migration<S>>, base: S, db: Db<S>, cmd: Command, budget: nat, k: nat,
                             p: nat)
    returns (k': nat)
    requires Sorted(migs) && DownUndoesUp(migs) && At(migs, base, db, k) && TargetIs(migs, cmd.target, p)
    ensures var r := Execute(migs, db, cmd, budget);
            && At(migs, base, r.db, k')
            && (cmd.Up? ==> k <= k' <= if k < p then p else k)
            && (cmd.Down? ==>
                  k' <= k && (cmd.target.Some? && p <= k ==> p <= k') && (cmd.target == None ==> k - 1 <= k'))
            && (r.exit == Ok && cmd.Up? && !cmd.dryRun ==> k' == if k < p then p else k)
            && (r.exit == Ok && cmd.Down? && !cmd.dryRun && cmd.target.Some? ==> k' == if p < k then p else k)
            && (r.exit == Ok && cmd.Down? && !cmd.dryRun && cmd.target == None ==> k' == if k > 0 then k - 1 else 0)
            && (cmd.dryRun || r.exit in {InvalidTarget, ChecksumMismatch, DestructiveBlocked} ==> r.db == db)
  {
    hide At, TargetIs, PrefixApplied, ApplyAll, RevertAll, Pending, Revertible, Sorted, DownUndoesUp;
    assert migs[..|migs|] == migs;
    k' := k;
    assert k <= |migs| && p <= |migs| by { Bounds(migs, base, db, cmd, k, p); }
    match cmd
    case Up(dry, allow, target) =>
      PlanUpIs(migs, base, db, target, k, p);
      var m := if k < p then p else k;
      k' := ApplyRange(migs, base, db, k, m, budget);
      if Execute(migs, db, cmd, budget).exit in {InvalidTarget, ChecksumMismatch, DestructiveBlocked} || dry {
        Refusals(migs, db, cmd, budget);
        k' := k;
      }
    case Down(dry, allow, target) =>
      PlanDownIs(migs, base, db, target, k, p);
      var t := if target.Some? then p else if k > 0 then k - 1 else 0;
      k' := RevertRange(migs, base, db, t, k, budget);
      if Execute(migs, db, cmd, budget).exit in {InvalidTarget, ChecksumMismatch, DestructiveBlocked} || dry {
        Refusals(migs, db, cmd, budget);
        k' := k;
      }
  }

  lemma Bounds<S>(migs: seq<Migration<S>>, base: S, db: Db<S>, cmd: Command, k: nat, p: nat)
    requires At(migs, base, db, k) && TargetIs(migs, cmd.target, p)
    ensures k <= |migs| && p <= |migs|
  {
  }

  lemma PlanUpIs<S>(migs: seq<Migration<S>>, base: S, db: Db<S>, target: Option<nat>, k: nat, p: nat)
    requires At(migs, base, db, k) && TargetIs(migs, target, p)
    ensures k <= |migs| && p <= |migs| && Pending(migs, db.applied, target) == migs[k..if k < p then p else k]
  {
    PendingOfPrefix(migs, db.applied, target, k, p, |migs|);
    assert migs[..|migs|] == migs;
  }

  lemma PlanDownIs<S>(migs: seq<Migration<S>>, base: S, db: Db<S>, target: Option<nat>, k: nat, p: nat)
    requires At(migs, base, db, k) && TargetIs(migs, target, p)
    ensures k <= |migs|
    ensures Revertible(migs, db.applied, target)
            == Backwards(migs, if target.Some? then p else if k > 0 then k - 1 else 0, k)
  {
    RevertibleOfPrefix(migs, db.applied, target, k, p, |migs|);
    assert migs[..|migs|] == migs;
  }

  lemma Refusals<S>(migs: seq<Migration<S>>, db: Db<S>, cmd: Command, budget: nat)
    ensures var r := Execute(migs, db, cmd, budget);
            cmd.dryRun || r.exit in {InvalidTarget, ChecksumMismatch, DestructiveBlocked} ==> r.db == db
  {
    match cmd
    case Up(dry, allow, target) => AppliesOrFails(Pending(migs, db.applied, target), db, budget);
    case Down(dry, allow, target) => RevertsOrFails(Revertible(migs, db.applied, target), db, budget);
  }

  lemma {:induction false} AppliesOrFails<S>(plan: seq<Migration<S>>, db: Db<S>, budget: nat)
    ensures ApplyAll(plan, db, budget).exit in {Ok, SqlFailure}
    decreases |plan|
  {
    if plan != [] && budget > 0 && plan[0].up(db.schema).Some? {
      AppliesOrFails(plan[1..], Db(plan[0].up(db.schema).value, db.applied[plan[0].version := plan[0].checksum]),
                     budget - 1);
    }
  }

  lemma {:induction false} RevertsOrFails<S>(plan: seq<Migration<S>>, db: Db<S>, budget: nat)
    ensures RevertAll(plan, db, budget).exit in {Ok, SqlFailure}
    decreases |plan|
  {
    if plan != [] && budget > 0 && plan[0].down(db.schema).Some? {
      RevertsOrFails(plan[1..], Db(plan[0].down(db.schema).value, db.applied - {plan[0].version}), budget - 1);
    }
  }

  // ---- histories -----------------------------------------------------------------------------

  datatype Step = Step(cmd: Command, budget: nat)

  ghost function History<S>(migs: seq<Migration<S>>, db: Db<S>, steps: seq<Step>): Db<S> {
    if steps == [] then db
    else
      var last := steps[|steps| - 1];
      Execute(migs, History(migs, db, steps[..|steps| - 1]), last.cmd, last.budget).db
  }

  /** From a prefix state, every sequence of up and down commands, each possibly failing at any migration,
      ends in a prefix state whose schema is exactly the one that prefix builds. */
  lemma {:induction false} HistoryKeepsPrefix<S(!new)>(migs: seq<Migration<S>>, base: S, db: Db<S>, steps: seq<Step>,
                                                k: nat)
    returns (k': nat)
    requires Sorted(migs) && DownUndoesUp(migs) && At(migs, base, db, k)
    ensures At(migs, base, History(migs, db, steps), k')
    decreases |steps|
  {
    hide At, Sorted, DownUndoesUp, Execute;
    k' := k;
    if steps != [] {
      var last := steps[|steps| - 1];
      k' := HistoryKeepsPrefix(migs, base, db, steps[..|steps| - 1], k);
      var p := TargetExists(migs, last.cmd.target);
      k' := ExecuteKeepsPrefix(migs, base, History(migs, db, steps[..|steps| - 1]), last.cmd, last.budget, k', p);
    }
  }

  // ---- without assuming anything of the bodies -----------------------------------------------

  lemma {:induction false} ApplyStaysPrefix<S>(migs: seq<Migration<S>>, db: Db<S>, k: nat, m: nat, budget: nat)
    returns (j: nat)
    requires Sorted(migs) && PrefixApplied(migs, db.applied, k) && k <= m <= |migs|
    ensures PrefixApplied(migs, ApplyAll(migs[k..m], db, budget).db.applied, j)
    decreases m - k
  {
    if k == m || budget == 0 || migs[k].up(db.schema) == None {
      j := k;
    } else {
      var next := Db(migs[k].up(db.schema).value, db.applied[migs[k].version := migs[k].checksum]);
      assert migs[k..m][1..] == migs[k + 1..m];
      j := ApplyStaysPrefix(migs, next, k + 1, m, budget - 1);
    }
  }

  lemma {:induction false} RevertStaysPrefix<S>(migs: seq<Migration<S>>, db: Db<S>, t: nat, k: nat, budget: nat)
    returns (j: nat)
    requires Sorted(migs) && PrefixApplied(migs, db.applied, k)
    ensures PrefixApplied(migs, RevertAll(Backwards(migs, t, k), db, budget).db.applied, j)
    decreases k
  {
    if k <= t || budget == 0 || migs[k - 1].down(db.schema) == None {
      j := k;
    } else {
      var next := Db(migs[k - 1].down(db.schema).value, db.applied - {migs[k - 1].version});
      var plan := Backwards(migs, t, k);
      assert plan[0] == migs[k - 1] && plan[1..] == Backwards(migs, t, k - 1);
      j := RevertStaysPrefix(migs, next, t, k - 1, budget - 1);
    }
  }

  lemma ExecuteStaysPrefix<S>(migs: seq<Migration<S>>, db: Db<S>, cmd: Command, budget: nat, k: nat) returns (k': nat)
    requires Sorted(migs) && PrefixApplied(migs, db.applied, k)
    ensures PrefixApplied(migs, Execute(migs, db, cmd, budget).db.applied, k')
  {
    var p := TargetExists(migs, cmd.target);
    assert migs[..|migs|] == migs;
    var j := k;
    match cmd
    case Up(_, _, target) =>
      PendingOfPrefix(migs, db.applied, target, k, p, |migs|);
      hide PrefixApplied, TargetIs, Sorted, ApplyAll, Pending;
      j := ApplyStaysPrefix(migs, db, k, if k < p then p else k, budget);
      k' := if Execute(migs, db, cmd, budget).db == db then k else j;
    case Down(_, _, target) =>
      RevertibleOfPrefix(migs, db.applied, target, k, p, |migs|);
      hide PrefixApplied, TargetIs, Sorted, RevertAll, Revertible;
      j := RevertStaysPrefix(migs, db, if target.Some? then p else if k > 0 then k - 1 else 0, k, budget);
      k' := if Execute(migs, db, cmd, budget).db == db then k else j;
  }

  /** THE ORDER OF APPLICATION. From a prefix state every sequence of up and down commands keeps the
      applied versions a prefix, wherever each command fails and whatever the bodies do to the schema. */
  lemma {:induction false} AppliedStaysPrefix<S>(migs: seq<Migration<S>>, db: Db<S>, steps: seq<Step>, k: nat)
    returns (k': nat)
    requires Sorted(migs) && PrefixApplied(migs, db.applied, k)
    ensures PrefixApplied(migs, History(migs, db, steps).applied, k')
    decreases |steps|
  {
    hide PrefixApplied, Sorted, Execute;
    k' := k;
    if steps != [] {
      var last := steps[|steps| - 1];
      k' := AppliedStaysPrefix(migs, db, steps[..|steps| - 1], k);
      k' := ExecuteStaysPrefix(migs, History(migs, db, steps[..|steps| - 1]), last.cmd, last.budget, k');
    }
  }

  /** Whatever happened before, and however far an `up` got, a `down --target` with the destructive flag
      whose connection lasts puts the schema back to the one at the target. */
  lemma DownRestores<S(!new)>(migs: seq<Migration<S>>, base: S, db: Db<S>, steps: seq<Step>, target: nat, budget: nat,
                       p: nat)
    requires Sorted(migs) && DownUndoesUp(migs) && At(migs, base, db, p) && TargetIs(migs, Some(target), p)
    requires ValidTarget(migs, Down(false, true, Some(target))) && |migs| <= budget
    requires forall i :: 0 <= i < |steps| ==> steps[i].cmd.Up?
    ensures var r := Execute(migs, History(migs, db, steps), Down(false, true, Some(target)), budget);
            r.exit == Ok && r.db.schema == db.schema
  {
    var k := OnlyUps(migs, base, db, steps, p);
    var mid := History(migs, db, steps);
    PlanDownIs(migs, base, mid, Some(target), k, p);
    var j := RevertRange(migs, base, mid, p, k, budget);
  }

  lemma {:induction false} OnlyUps<S(!new)>(migs: seq<Migration<S>>, base: S, db: Db<S>, steps: seq<Step>, k: nat)
    returns (k': nat)
    requires Sorted(migs) && DownUndoesUp(migs) && At(migs, base, db, k)
    requires forall i :: 0 <= i < |steps| ==> steps[i].cmd.Up?
    ensures k <= k' && At(migs, base, History(migs, db, steps), k')
    decreases |steps|
  {
    hide At, Sorted, DownUndoesUp, Execute;
    k' := k;
    if steps != [] {
      var last := steps[|steps| - 1];
      k' := OnlyUps(migs, base, db, steps[..|steps| - 1], k);
      var p := TargetExists(migs, last.cmd.target);
      k' := ExecuteKeepsPrefix(migs, base, History(migs, db, steps[..|steps| - 1]), last.cmd, last.budget, k', p);
    }
  }

  // ---- where the start is no prefix ----------------------------------------------------------

  ghost predicate IsPrefix<S>(migs: seq<Migration<S>>, applied: map<nat, int>) {
    exists k: nat :: PrefixApplied(migs, applied, k)
  }

  /** An unapplied version below an applied one. */
  ghost predicate GapAt<S>(migs: seq<Migration<S>>, applied: map<nat, int>, i: nat, j: nat) {
    i < j < |migs| && migs[i].version !in applied && migs[j].version in applied
  }

  /** The plan holds a version below one that is applied already. */
  ghost predicate FillsGap<S>(migs: seq<Migration<S>>, applied: map<nat, int>, plan: seq<Migration<S>>) {
    exists x, j :: 0 <= x < |plan| && 0 <= j < |migs| && migs[j].version in applied && plan[x].version < migs[j].version
  }

  lemma {:induction false} PlanHas<S>(migs: seq<Migration<S>>, applied: map<nat, int>, i: nat) returns (x: nat)
    requires i < |migs| && migs[i].version !in applied
    ensures x < |Pending(migs, applied, None)| && Pending(migs, applied, None)[x] == migs[i]
    decreases |migs|
  {
    var n := |migs| - 1;
    if i == n {
      x := |Pending(migs[..n], applied, None)|;
    } else {
      x := PlanHas(migs[..n], applied, i);
    }
  }

  lemma {:induction false} PlanFrom<S>(migs: seq<Migration<S>>, applied: map<nat, int>, x: nat) returns (i: nat)
    requires x < |Pending(migs, applied, None)|
    ensures i < |migs| && migs[i] == Pending(migs, applied, None)[x] && migs[i].version !in applied
    decreases |migs|
  {
    var n := |migs| - 1;
    if x == |Pending(migs[..n], applied, None)| {
      i := n;
    } else {
      i := PlanFrom(migs[..n], applied, x);
    }
  }

  lemma {:induction false} PrefixOrGap<S>(migs: seq<Migration<S>>, applied: map<nat, int>)
    returns (k: nat, i: nat, j: nat)
    ensures PrefixApplied(migs, applied, k) || GapAt(migs, applied, i, j)
    decreases |migs|
  {
    k, i, j := 0, 0, 0;
    if migs != [] {
      var n := |migs| - 1;
      k, i, j := PrefixOrGap(migs[..n], applied);
      if PrefixApplied(migs[..n], applied, k) {
        assert forall x :: 0 <= x < n ==> (migs[x].version in applied <==> x < k) by {
          assert forall x :: 0 <= x < n ==> migs[..n][x] == migs[x];
        }
        if migs[n].version in applied {
          if k < n { i, j := k, n; } else { k := n + 1; }
        }
      }
    }
  }

  /** GAPS ARE FILLED OUT OF ORDER, and only they are: an untargeted `up` plans a version below an applied
      one if and only if the applied versions are no prefix. */
  lemma GapIsFilledIff<S>(migs: seq<Migration<S>>, applied: map<nat, int>)
    requires Sorted(migs)
    ensures FillsGap(migs, applied, Pending(migs, applied, None)) <==> !IsPrefix(migs, applied)
  {
    var plan := Pending(migs, applied, None);
    var k, i, j := PrefixOrGap(migs, applied);
    if !PrefixApplied(migs, applied, k) {
      var x := PlanHas(migs, applied, i);
      assert plan[x].version < migs[j].version;
    }
    if FillsGap(migs, applied, plan) {
      var x, j :| 0 <= x < |plan| && 0 <= j < |migs| && migs[j].version in applied && plan[x].version < migs[j].version;
      var i := PlanFrom(migs, applied, x);
      InOrderOf(migs, i, j);
    }
  }

  lemma InOrderOf<S>(migs: seq<Migration<S>>, i: nat, j: nat)
    requires Sorted(migs) && i < |migs| && j < |migs| && migs[i].version < migs[j].version
    ensures i < j
  {
  }

  /** A migration that appends its number to the schema. */
  ghost function Tagging(v: nat): Migration<seq<int>> {
    Migration(v, v, false, (s: seq<int>) => Some(s + [v]),
              (s: seq<int>) => if s == [] then None else Some(s[..|s| - 1]))
  }

  ghost function TagAll(vs: seq<nat>): (migs: seq<Migration<seq<int>>>)
    ensures |migs| == |vs| && forall i :: 0 <= i < |vs| ==> migs[i] == Tagging(vs[i])
  {
    if vs == [] then [] else TagAll(vs[..|vs| - 1]) + [Tagging(vs[|vs| - 1])]
  }

  /** The versions that are applied, or those that are not, in order. */
  ghost function Only(vs: seq<nat>, applied: map<nat, int>, yes: bool): (r: seq<nat>)
    ensures |r| <= |vs| && forall i :: 0 <= i < |r| ==> (r[i] in applied <==> yes)
  {
    if vs == [] then []
    else
      var v := vs[|vs| - 1];
      Only(vs[..|vs| - 1], applied, yes) + if (v in applied) == yes then [v] else []
  }

  lemma {:induction false} PendingTags(vs: seq<nat>, applied: map<nat, int>)
    ensures Pending(TagAll(vs), applied, None) == TagAll(Only(vs, applied, false))
    decreases |vs|
  {
    if vs != [] {
      var n := |vs| - 1;
      PendingTags(vs[..n], applied);
      assert TagAll(vs)[..n] == TagAll(vs[..n]);
      assert TagAll(vs)[n] == Tagging(vs[n]);
      var rest := Only(vs[..n], applied, false);
      assert (rest + [vs[n]])[..|rest|] == rest;
    }
  }

  lemma {:induction false} TagsApplied(vs: seq<nat>, db: Db<seq<int>>, budget: nat)
    requires |vs| <= budget
    ensures var r := ApplyAll(TagAll(vs), db, budget); r.exit == Ok && r.db.schema == db.schema + vs
    decreases |vs|
  {
    if vs != [] {
      var next := Db(db.schema + [vs[0]], db.applied[vs[0] := vs[0]]);
      assert TagAll(vs)[0] == Tagging(vs[0]);
      assert TagAll(vs)[1..] == TagAll(vs[1..]);
      TagsApplied(vs[1..], next, budget - 1);
      assert db.schema + vs == db.schema + [vs[0]] + vs[1..];
    } else {
      assert TagAll(vs) == [] && db.schema + vs == db.schema;
    }
  }

  lemma {:induction false} OnlyOfPrefix(vs: seq<nat>, applied: map<nat, int>, k: nat)
    requires k <= |vs| && forall i :: 0 <= i < |vs| ==> (vs[i] in applied <==> i < k)
    ensures Only(vs, applied, true) == vs[..k] && Only(vs, applied, false) == vs[k..]
    decreases |vs|
  {
    if vs != [] {
      var n := |vs| - 1;
      OnlyOfPrefix(vs[..n], applied, if k <= n then k else n);
      if k <= n { assert vs[k..] == vs[..n][k..] + [vs[n]]; }
      else { assert vs[..k] == vs[..n] + [vs[n]] && vs[k..] == []; }
    }
  }

  lemma UpOnTags(vs: seq<nat>, applied: map<nat, int>, budget: nat)
    requires |vs| <= budget && forall v :: v in applied ==> applied[v] == v
    ensures var r := Execute(TagAll(vs), Db(Only(vs, applied, true), applied), Up(false, false, None), budget);
            r.exit == Ok && r.db.schema == Only(vs, applied, true) + Only(vs, applied, false)
  {
    hide Only, Pending, ApplyAll;
    var migs, db := TagAll(vs), Db(Only(vs, applied, true), applied);
    PendingTags(vs, applied);
    assert |Only(vs, applied, false)| <= |vs|;
    TagsApplied(Only(vs, applied, false), db, budget);
    assert ChecksumsMatch(migs, applied);
    assert !NeedsFlag(TagAll(Only(vs, applied, false)));
  }

  lemma InOrderIff(vs: seq<nat>, applied: map<nat, int>)
    ensures Only(vs, applied, true) + Only(vs, applied, false) == vs <==> IsPrefix(TagAll(vs), applied)
  {
    var migs, yes, no := TagAll(vs), Only(vs, applied, true), Only(vs, applied, false);
    assert forall i :: 0 <= i < |vs| ==> migs[i].version == vs[i];
    hide TagAll, Tagging;
    if IsPrefix(migs, applied) {
      var k: nat :| PrefixApplied(migs, applied, k);
      OnlyOfPrefix(vs, applied, k);
    }
    hide Only;
    if yes + no == vs {
      forall i | 0 <= i < |migs| ensures migs[i].version in applied <==> i < |yes| {
        assert migs[i].version == vs[i] == (yes + no)[i];
      }
      assert PrefixApplied(migs, applied, |yes|);
    }
  }

  /** What it does to the schema: the missing bodies run on top of the applied ones. With bodies that record
      their order, `up` leaves the order of the versions if and only if the start was a prefix. */
  lemma GapOrderIff(vs: seq<nat>, applied: map<nat, int>, budget: nat)
    requires |vs| <= budget && forall v :: v in applied ==> applied[v] == v
    ensures var r := Execute(TagAll(vs), Db(Only(vs, applied, true), applied), Up(false, false, None), budget);
            && r.exit == Ok && r.db.schema == Only(vs, applied, true) + Only(vs, applied, false)
            && (r.db.schema == vs <==> IsPrefix(TagAll(vs), applied))
  {
    hide Only, Execute;
    UpOnTags(vs, applied, budget);
    InOrderIff(vs, applied);
  }
}
