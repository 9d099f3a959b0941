/** What one command of db/migrate.py comes to, told from the discovered migrations, the recorded versions and
    the command alone: when it is refused and why, which migrations it takes up, and what it has recorded when
    it ends. */
module MigrateOutcome {
  import opened Wrappers
  import opened Migrate
  import opened MigrateRuns

  /** A discovered version, or 0 for a rollback of everything. */
  ghost predicate TargetStands<S>(migs: seq<Migration<S>>, cmd: Command) {
    cmd.target == None
    || (exists i :: 0 <= i < |migs| && Some(migs[i].version) == cmd.target)
    || (cmd.Down? && cmd.target == Some(0))
  }

  /** `up` may take migration i up. */
  ghost predicate Wanted<S>(migs: seq<Migration<S>>, applied: map<nat, int>, target: Option<nat>, i: int) {
    0 <= i < |migs| && migs[i].version !in applied && (target.None? || migs[i].version <= target.value)
  }

  /** `down` may take migration i up. */
  ghost predicate Above<S>(migs: seq<Migration<S>>, applied: map<nat, int>, target: Option<nat>, i: int) {
    0 <= i < |migs| && migs[i].version in applied && (target.None? || migs[i].version > target.value)
  }

  ghost predicate Edited<S>(migs: seq<Migration<S>>, applied: map<nat, int>, i: int) {
    0 <= i < |migs| && migs[i].version in applied && applied[migs[i].version] != migs[i].checksum
  }

  lemma {:induction false} PendingMeans<S>(migs: seq<Migration<S>>, applied: map<nat, int>, target: Option<nat>)
    ensures forall m :: m in Pending(migs, applied, target)
                        <==> exists i :: Wanted(migs, applied, target, i) && migs[i] == m
    ensures Sorted(migs) ==> Sorted(Pending(migs, applied, target))
    decreases |migs|
  {
    if migs != [] {
      var n := |migs| - 1;
      PendingMeans(migs[..n], applied, target);
      var before := Pending(migs[..n], applied, target);
      assert Pending(migs, applied, target) == if Wanted(migs, applied, target, n) then before + [migs[n]] else before;
      forall m ensures (exists i :: Wanted(migs, applied, target, i) && migs[i] == m)
                       <==> m in before || (Wanted(migs, applied, target, n) && migs[n] == m)
      {
        WantedGrows(migs, applied, target, m);
      }
      if Sorted(migs) {
        assert Sorted(migs[..n]);
        forall x | 0 <= x < |Pending(migs[..n], applied, target)|
          ensures Pending(migs[..n], applied, target)[x].version < migs[n].version
        {
          assert Pending(migs[..n], applied, target)[x] in Pending(migs[..n], applied, target);
        }
      }
    }
  }

  lemma WantedGrows<S>(migs: seq<Migration<S>>, applied: map<nat, int>, target: Option<nat>, m: Migration<S>)
    requires migs != []
    ensures var n := |migs| - 1;
            (exists i :: Wanted(migs, applied, target, i) && migs[i] == m)
            <==> (exists i :: Wanted(migs[..n], applied, target, i) && migs[..n][i] == m)
                 || (Wanted(migs, applied, target, n) && migs[n] == m)
  {
    var n := |migs| - 1;
    if exists i :: Wanted(migs[..n], applied, target, i) && migs[..n][i] == m {
      var i :| Wanted(migs[..n], applied, target, i) && migs[..n][i] == m;
      assert Wanted(migs, applied, target, i);
    }
    if exists i :: Wanted(migs, applied, target, i) && migs[i] == m {
      var i :| Wanted(migs, applied, target, i) && migs[i] == m;
      if i < n { assert Wanted(migs[..n], applied, target, i) && migs[..n][i] == m; }
    }
  }

  ghost predicate Falling<S>(plan: seq<Migration<S>>) {
    forall i, j :: 0 <= i < j < |plan| ==> plan[j].version < plan[i].version
  }

  lemma {:induction false} RevertibleMeans<S>(migs: seq<Migration<S>>, applied: map<nat, int>, target: Option<nat>)
    requires target.Some?
    ensures forall m :: m in Revertible(migs, applied, target)
                        <==> exists i :: Above(migs, applied, target, i) && migs[i] == m
    ensures Sorted(migs) ==> Falling(Revertible(migs, applied, target))
    decreases |migs|
  {
    if migs != [] {
      var n := |migs| - 1;
      RevertibleMeans(migs[..n], applied, target);
      forall m ensures m in Revertible(migs, applied, target)
                       <==> exists i :: Above(migs, applied, target, i) && migs[i] == m
      {
        if m in Revertible(migs[..n], applied, target) {
          var i :| Above(migs[..n], applied, target, i) && migs[..n][i] == m;
          assert Above(migs, applied, target, i);
        }
        if exists i :: Above(migs, applied, target, i) && migs[i] == m {
          var i :| Above(migs, applied, target, i) && migs[i] == m;
          if i < n { assert Above(migs[..n], applied, target, i) && migs[..n][i] == m; }
        }
        if Above(migs, applied, target, n) { assert migs[n] in Revertible(migs, applied, target); }
      }
      if Sorted(migs) {
        assert Sorted(migs[..n]);
        forall x | 0 <= x < |Revertible(migs[..n], applied, target)|
          ensures Revertible(migs[..n], applied, target)[x].version < migs[n].version
        {
          assert Revertible(migs[..n], applied, target)[x] in Revertible(migs[..n], applied, target);
        }
      }
    }
  }

  /** Migration i is the newest applied one. */
  ghost predicate IsNewest<S>(migs: seq<Migration<S>>, applied: map<nat, int>, i: int) {
    0 <= i < |migs| && migs[i].version in applied && forall j :: i < j < |migs| ==> migs[j].version !in applied
  }

  lemma {:induction false} NewestReverts<S>(migs: seq<Migration<S>>, applied: map<nat, int>)
    ensures var plan := Revertible(migs, applied, None);
            && (plan == [] <==> forall i :: 0 <= i < |migs| ==> migs[i].version !in applied)
            && (plan != [] ==> |plan| == 1 && exists i :: IsNewest(migs, applied, i) && migs[i] == plan[0])
    decreases |migs|
  {
    if migs != [] {
      var n := |migs| - 1;
      NewestReverts(migs[..n], applied);
      if migs[n].version in applied {
        assert IsNewest(migs, applied, n);
      } else if Revertible(migs[..n], applied, None) != [] {
        var i :| IsNewest(migs[..n], applied, i) && migs[..n][i] == Revertible(migs[..n], applied, None)[0];
        assert migs[i] == migs[..n][i];
        assert forall j :: i < j < n ==> migs[..n][j] == migs[j];
        assert IsNewest(migs, applied, i);
      }
    }
  }

  // ---- refusals --------------------------------------------------------------------------------

  /** WHEN A COMMAND IS REFUSED, and that nothing is changed then, nor by a dry run. */
  lemma RefusedIff<S>(migs: seq<Migration<S>>, db: Db<S>, cmd: Command, budget: nat)
    ensures var r := Execute(migs, db, cmd, budget);
            && (r.exit == InvalidTarget <==> !TargetStands(migs, cmd))
            && (r.exit == ChecksumMismatch <==>
                  TargetStands(migs, cmd) && cmd.Up? && exists i :: Edited(migs, db.applied, i))
            && (r.exit == DestructiveBlocked <==>
                  && TargetStands(migs, cmd) && !cmd.allowDestructive
                  && if cmd.Up? then (forall i :: !Edited(migs, db.applied, i))
                                     && exists i :: Wanted(migs, db.applied, cmd.target, i) && migs[i].upDestructive
                     else exists i :: Above(migs, db.applied, cmd.target, i))
            && (r.exit in {InvalidTarget, ChecksumMismatch, DestructiveBlocked} || cmd.dryRun ==> r.db == db)
            && (r.exit == SqlFailure ==> !cmd.dryRun)
  {
    var r := Execute(migs, db, cmd, budget);
    assert ValidTarget(migs, cmd) <==> TargetStands(migs, cmd);
    if !ChecksumsMatch(migs, db.applied) {
      var i :| 0 <= i < |migs| && migs[i].version in db.applied && db.applied[migs[i].version] != migs[i].checksum;
      assert Edited(migs, db.applied, i);
    }
    hide TargetStands, ValidTarget, ChecksumsMatch;
    match cmd
    case Up(dry, allow, target) =>
      DestructiveMeans(migs, db.applied, target);
      var plan := Pending(migs, db.applied, target);
      AppliesOrFails(plan, db, budget);
      hide Pending, NeedsFlag, ApplyAll;
    case Down(dry, allow, target) =>
      SomethingAbove(migs, db.applied, target);
      RevertsOrFails(Revertible(migs, db.applied, target), db, budget);
      hide Revertible, RevertAll;
  }

  lemma DestructiveMeans<S>(migs: seq<Migration<S>>, applied: map<nat, int>, target: Option<nat>)
    ensures NeedsFlag(Pending(migs, applied, target))
            <==> exists i :: Wanted(migs, applied, target, i) && migs[i].upDestructive
  {
    PendingMeans(migs, applied, target);
    hide Pending;
    var plan := Pending(migs, applied, target);
    if NeedsFlag(plan) {
      var x :| 0 <= x < |plan| && plan[x].upDestructive;
      assert plan[x] in plan;
    }
    if exists i :: Wanted(migs, applied, target, i) && migs[i].upDestructive {
      var i :| Wanted(migs, applied, target, i) && migs[i].upDestructive;
      assert migs[i] in plan;
    }
  }

  lemma SomethingAbove<S>(migs: seq<Migration<S>>, applied: map<nat, int>, target: Option<nat>)
    ensures Revertible(migs, applied, target) != [] <==> exists i :: Above(migs, applied, target, i)
  {
    if target.None? {
      NewestReverts(migs, applied);
      hide Revertible;
      var plan := Revertible(migs, applied, target);
      if plan != [] {
        var i :| IsNewest(migs, applied, i) && migs[i] == plan[0];
        assert Above(migs, applied, target, i);
      }
    } else {
      RevertibleMeans(migs, applied, target);
      var plan := Revertible(migs, applied, target);
      if plan != [] {
        assert plan[0] in Revertible(migs, applied, target);
        assert exists i :: Above(migs, applied, target, i) && migs[i] == plan[0];
      }
      if exists i :: Above(migs, applied, target, i) {
        var i :| Above(migs, applied, target, i);
        assert migs[i] in plan;
      }
    }
  }

  // ---- what is done --------------------------------------------------------------------------

  /** From state to state one planned migration after the other; the first one without success, or the lost
      connection, ends it. */
  ghost predicate Upwards<S(!new)>(plan: seq<Migration<S>>, states: seq<Db<S>>, budget: nat, exit: Exit) {
    && 0 < |states| <= |plan| + 1 && |states| - 1 <= budget
    && (forall x :: 0 <= x < |states| - 1 ==>
          && plan[x].up(states[x].schema) == Some(states[x + 1].schema)
          && states[x + 1].applied == states[x].applied[plan[x].version := plan[x].checksum])
    && (if |states| == |plan| + 1 then exit == Ok
        else exit == SqlFailure
             && (|states| - 1 == budget || plan[|states| - 1].up(states[|states| - 1].schema) == None))
  }

  ghost predicate Downwards<S(!new)>(plan: seq<Migration<S>>, states: seq<Db<S>>, budget: nat, exit: Exit) {
    && 0 < |states| <= |plan| + 1 && |states| - 1 <= budget
    && (forall x :: 0 <= x < |states| - 1 ==>
          && plan[x].down(states[x].schema) == Some(states[x + 1].schema)
          && states[x + 1].applied == states[x].applied - {plan[x].version})
    && (if |states| == |plan| + 1 then exit == Ok
        else exit == SqlFailure
             && (|states| - 1 == budget || plan[|states| - 1].down(states[|states| - 1].schema) == None))
  }

  lemma {:induction false} AppliesUpwards<S(!new)>(plan: seq<Migration<S>>, db: Db<S>, budget: nat)
    returns (states: seq<Db<S>>)
    ensures var r := ApplyAll(plan, db, budget);
            Upwards(plan, states, budget, r.exit) && states[0] == db && states[|states| - 1] == r.db
    decreases |plan|
  {
    states := [db];
    if plan != [] && budget > 0 && plan[0].up(db.schema).Some? {
      var next := Db(plan[0].up(db.schema).value, db.applied[plan[0].version := plan[0].checksum]);
      var rest := AppliesUpwards(plan[1..], next, budget - 1);
      states := [db] + rest;
      forall x | 0 <= x < |states| - 1
        ensures plan[x].up(states[x].schema) == Some(states[x + 1].schema)
        ensures states[x + 1].applied == states[x].applied[plan[x].version := plan[x].checksum]
      {
        if x > 0 { assert plan[x] == plan[1..][x - 1] && states[x] == rest[x - 1]; }
      }
    }
  }

  lemma {:induction false} RevertsDownwards<S(!new)>(plan: seq<Migration<S>>, db: Db<S>, budget: nat)
    returns (states: seq<Db<S>>)
    ensures var r := RevertAll(plan, db, budget);
            Downwards(plan, states, budget, r.exit) && states[0] == db && states[|states| - 1] == r.db
    decreases |plan|
  {
    states := [db];
    if plan != [] && budget > 0 && plan[0].down(db.schema).Some? {
      var next := Db(plan[0].down(db.schema).value, db.applied - {plan[0].version});
      var rest := RevertsDownwards(plan[1..], next, budget - 1);
      states := [db] + rest;
      forall x | 0 <= x < |states| - 1
        ensures plan[x].down(states[x].schema) == Some(states[x + 1].schema)
        ensures states[x + 1].applied == states[x].applied - {plan[x].version}
      {
        if x > 0 { assert plan[x] == plan[1..][x - 1] && states[x] == rest[x - 1]; }
      }
    }
  }

  /** WHAT IS DONE by a command that is neither refused nor dry. `up` takes up the unapplied migrations at or
      below the target, oldest first; `down` the applied ones above it, newest first, or the newest alone. */
  lemma DoneMeans<S(!new)>(migs: seq<Migration<S>>, db: Db<S>, cmd: Command, budget: nat)
    returns (plan: seq<Migration<S>>, states: seq<Db<S>>)
    requires Sorted(migs) && !cmd.dryRun
    requires Execute(migs, db, cmd, budget).exit in {Ok, SqlFailure}
    ensures var r := Execute(migs, db, cmd, budget);
            |states| > 0 && states[0] == db && states[|states| - 1] == r.db
            && if cmd.Up? then Upwards(plan, states, budget, r.exit) else Downwards(plan, states, budget, r.exit)
    ensures cmd.Up? ==>
              && Sorted(plan)
              && forall m :: m in plan <==> exists i :: Wanted(migs, db.applied, cmd.target, i) && migs[i] == m
    ensures cmd.Down? && cmd.target.Some? ==>
              && Falling(plan)
              && forall m :: m in plan <==> exists i :: Above(migs, db.applied, cmd.target, i) && migs[i] == m
    ensures cmd.Down? && cmd.target.None? ==>
              if forall i :: !Above(migs, db.applied, None, i) then plan == []
              else |plan| == 1 && exists i :: IsNewest(migs, db.applied, i) && plan == [migs[i]]
  {
    match cmd
    case Up(dry, allow, target) =>
      plan := Pending(migs, db.applied, target);
      PendingMeans(migs, db.applied, target);
      hide Pending;
      states := AppliesUpwards(plan, db, budget);
    case Down(dry, allow, target) =>
      plan := Revertible(migs, db.applied, target);
      SomethingAbove(migs, db.applied, target);
      if target.Some? { RevertibleMeans(migs, db.applied, target); } else { NewestReverts(migs, db.applied); }
      hide Revertible;
      states := RevertsDownwards(plan, db, budget);
  }
}
