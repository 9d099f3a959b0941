/** `up` and `down` of db/migrate.py. A version is its number, which VersionOrder.EqualWidthOrder shows
    to be faithful to the string order the runner uses. One migration's transaction is atomic here; the
    module MigrationTx says why. */
module Migrate {
  import opened Wrappers

  /** A body either transforms the schema or fails. */
  datatype Migration<!S> = Migration(version: nat, checksum: int, upDestructive: bool, up: S -> Option<S>,
                                     down: S -> Option<S>)

  /** The database: its schema and the schema_migrations table, version to recorded checksum. */
  datatype Db<S> = Db(schema: S, applied: map<nat, int>)

  datatype Exit = Ok | InvalidTarget | ChecksumMismatch | DestructiveBlocked | SqlFailure

  datatype Command = Up(dryRun: bool, allowDestructive: bool, target: Option<nat>)
                   | Down(dryRun: bool, allowDestructive: bool, target: Option<nat>)

  datatype Result<S> = Result(db: Db<S>, exit: Exit)

  /** Discovery hands over the versions in strictly increasing order. */
  ghost predicate Sorted<S>(migs: seq<Migration<S>>) {
    forall i, j :: 0 <= i < j < |migs| ==> migs[i].version < migs[j].version
  }

  // ---- plans and their execution -------------------------------------------------------------

  predicate Known<S>(migs: seq<Migration<S>>, version: nat) {
    exists i :: 0 <= i < |migs| && migs[i].version == version
  }

  /** validate_target: a discovered version, or the all-zeros sentinel for down. */
  predicate ValidTarget<S>(migs: seq<Migration<S>>, cmd: Command) {
    cmd.target.Some? ==> Known(migs, cmd.target.value) || (cmd.Down? && cmd.target.value == 0)
  }

  predicate ChecksumsMatch<S>(migs: seq<Migration<S>>, applied: map<nat, int>) {
    forall i :: 0 <= i < |migs| && migs[i].version in applied ==> applied[migs[i].version] == migs[i].checksum
  }

  /** The migrations `up` will apply, in order. */
  function Pending<S>(migs: seq<Migration<S>>, applied: map<nat, int>, target: Option<nat>): seq<Migration<S>> {
    if migs == [] then []
    else
      var m := migs[|migs| - 1];
      Pending(migs[..|migs| - 1], applied, target)
      + (if m.version !in applied && (target.Some? ==> m.version <= target.value) then [m] else [])
  }

  /** The migrations `down` will revert, newest first: all above the target, or just one. */
  function Revertible<S>(migs: seq<Migration<S>>, applied: map<nat, int>, target: Option<nat>): seq<Migration<S>> {
    if migs == [] then []
    else
      var m, rest := migs[|migs| - 1], migs[..|migs| - 1];
      if m.version !in applied then Revertible(rest, applied, target)
      else if target == None then [m]
      else (if m.version > target.value then [m] else []) + Revertible(rest, applied, target)
  }

  /** apply_one for each planned migration, until one fails or the connection is lost after `budget`
      committed migrations. */
  function ApplyAll<S>(plan: seq<Migration<S>>, db: Db<S>, budget: nat): Result<S> {
    if plan == [] then Result(db, Ok)
    else if budget == 0 then Result(db, SqlFailure)
    else
      match plan[0].up(db.schema)
      case None => Result(db, SqlFailure)
      case Some(s) => ApplyAll(plan[1..], Db(s, db.applied[plan[0].version := plan[0].checksum]), budget - 1)
  }

  function RevertAll<S>(plan: seq<Migration<S>>, db: Db<S>, budget: nat): Result<S> {
    if plan == [] then Result(db, Ok)
    else if budget == 0 then Result(db, SqlFailure)
    else
      match plan[0].down(db.schema)
      case None => Result(db, SqlFailure)
      case Some(s) => RevertAll(plan[1..], Db(s, db.applied - {plan[0].version}), budget - 1)
  }

  predicate NeedsFlag<S>(plan: seq<Migration<S>>) {
    exists i :: 0 <= i < |plan| && plan[i].upDestructive
  }

  function Execute<S>(migs: seq<Migration<S>>, db: Db<S>, cmd: Command, budget: nat): Result<S> {
    if !ValidTarget(migs, cmd) then Result(db, InvalidTarget)
    else
      match cmd
      case Up(dry, allow, target) =>
        var plan := Pending(migs, db.applied, target);
        if !ChecksumsMatch(migs, db.applied) then Result(db, ChecksumMismatch)
        else if NeedsFlag(plan) && !allow then Result(db, DestructiveBlocked)
        else if dry then Result(db, Ok)
        else ApplyAll(plan, db, budget)
      case Down(dry, allow, target) =>
        var plan := Revertible(migs, db.applied, target);
        if plan != [] && !allow then Result(db, DestructiveBlocked)
        else if dry then Result(db, Ok)
        else RevertAll(plan, db, budget)
  }

  class Runner<S(!new)> {
    var db: Db<S>

    constructor (db: Db<S>)
      ensures this.db == db
    {
      this.db := db;
    }

    /** One command; `budget` is how many migration transactions commit before the connection drops. */
    method Run(migs: seq<Migration<S>>, cmd: Command, budget: nat) returns (exit: Exit)
      modifies this
      ensures Result(db, exit) == Execute(migs, old(db), cmd, budget)
    {
      hide ApplyAll, RevertAll, Pending, Revertible;
      if !ValidTarget(migs, cmd) { return InvalidTarget; }
      match cmd
      case Up(dry, allow, target) =>
        if !ChecksumsMatch(migs, db.applied) { return ChecksumMismatch; }
        var plan := PlanUp(migs, target);
        if NeedsFlag(plan) && !allow { return DestructiveBlocked; }
        if dry { return Ok; }
        exit := Apply(plan, budget);
      case Down(dry, allow, target) =>
        var plan := PlanDown(migs, target);
        if plan != [] && !allow { return DestructiveBlocked; }
        if dry { return Ok; }
        exit := Revert(plan, budget);
    }

    method PlanUp(migs: seq<Migration<S>>, target: Option<nat>) returns (plan: seq<Migration<S>>)
      ensures plan == Pending(migs, db.applied, target)
    {
      plan := [];
      for i := 0 to |migs|
        invariant plan == Pending(migs[..i], db.applied, target)
      {
        assert migs[..i + 1][..i] == migs[..i];
        var m := migs[i];
        if m.version !in db.applied && (target.Some? ==> m.version <= target.value) { plan := plan + [m]; }
      }
      assert migs[..|migs|] == migs;
    }

    method PlanDown(migs: seq<Migration<S>>, target: Option<nat>) returns (plan: seq<Migration<S>>)
      ensures plan == Revertible(migs, db.applied, target)
    {
      plan := [];
      var i := |migs|;
      assert migs[..|migs|] == migs;
      while i > 0
        invariant 0 <= i <= |migs|
        invariant plan + Revertible(migs[..i], db.applied, target) == Revertible(migs, db.applied, target)
      {
        i := i - 1;
        assert migs[..i + 1][..i] == migs[..i];
        var m := migs[i];
        if m.version in db.applied {
          if target == None { return plan + [m]; }
          ghost var rest := Revertible(migs[..i], db.applied, target);
          assert plan + ([m] + rest) == plan + [m] + rest && plan + ([] + rest) == plan + rest;
          if m.version > target.value { plan := plan + [m]; }
        }
      }
    }

    method Apply(plan: seq<Migration<S>>, budget: nat) returns (exit: Exit)
      modifies this
      ensures Result(db, exit) == ApplyAll(plan, old(db), budget)
    {
      var left := budget;
      for i := 0 to |plan|
        invariant ApplyAll(plan[i..], db, left) == ApplyAll(plan, old(db), budget)
      {
        assert plan[i..][1..] == plan[i + 1..];
        if left == 0 { return SqlFailure; }
        var next := plan[i].up(db.schema);
        if next == None { return SqlFailure; }
        db := Db(next.value, db.applied[plan[i].version := plan[i].checksum]);
        left := left - 1;
      }
      return Ok;
    }

    method Revert(plan: seq<Migration<S>>, budget: nat) returns (exit: Exit)
      modifies this
      ensures Result(db, exit) == RevertAll(plan, old(db), budget)
    {
      var left := budget;
      for i := 0 to |plan|
        invariant RevertAll(plan[i..], db, left) == RevertAll(plan, old(db), budget)
      {
        assert plan[i..][1..] == plan[i + 1..];
        if left == 0 { return SqlFailure; }
        var next := plan[i].down(db.schema);
        if next == None { return SqlFailure; }
        db := Db(next.value, db.applied - {plan[i].version});
        left := left - 1;
      }
      return Ok;
    }
  }
}
