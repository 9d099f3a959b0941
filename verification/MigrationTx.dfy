/** Why one migration is all or nothing: the transaction discipline of apply_one, rollback_one and
    _assert_tx_intact in db/migrate.py, against bodies that issue their own transaction control. The
    server part is PostgreSQL's treatment of a multi-statement query. */
module MigrationTx {
  import opened Wrappers

  /** `Work` is any statement with an effect; `Fail` is any statement the server rejects. */
  datatype Stmt = Work(effect: int) | Begin | Commit | Rollback
                | Savepoint(name: int) | RollbackTo(name: int) | Release(name: int) | Fail

  datatype Save = Save(name: int, work: seq<int>)

  /** An open transaction: its id, whether a BEGIN opened it or the query itself implicitly did, its
      pending effects and its savepoints. */
  datatype Tx = Tx(xid: nat, explicit: bool, work: seq<int>, saves: seq<Save>)

  datatype Conn = Conn(durable: seq<int>, tx: Option<Tx>, nextXid: nat)

  function Open(c: Conn, explicit: bool): Conn {
    c.(tx := Some(Tx(c.nextXid, explicit, [], [])), nextXid := c.nextXid + 1)
  }

  function Committed(c: Conn): Conn {
    match c.tx
    case None => c
    case Some(t) => c.(durable := c.durable + t.work, tx := None)
  }

  function RolledBack(c: Conn): Conn {
    c.(tx := None)
  }

  /** The savepoints below and including the latest of that name; none when there is none. */
  function Down(saves: seq<Save>, name: int): seq<Save> {
    if saves == [] || saves[|saves| - 1].name == name then saves else Down(saves[..|saves| - 1], name)
  }

  /** One statement; None when the server rejects it. */
  function Exec(c: Conn, s: Stmt): Option<Conn> {
    match s
    case Work(e) =>
      var d := if c.tx == None then Open(c, false) else c;
      Some(d.(tx := Some(d.tx.value.(work := d.tx.value.work + [e]))))
    case Begin =>
      if c.tx == None then Some(Open(c, true)) else Some(c.(tx := Some(c.tx.value.(explicit := true))))
    case Commit => Some(Committed(c))
    case Rollback => Some(RolledBack(c))
    case Savepoint(n) =>
      if c.tx == None || !c.tx.value.explicit then None
      else Some(c.(tx := Some(c.tx.value.(saves := c.tx.value.saves + [Save(n, c.tx.value.work)]))))
    case RollbackTo(n) =>
      if c.tx == None || !c.tx.value.explicit || Down(c.tx.value.saves, n) == [] then None
      else
        var left := Down(c.tx.value.saves, n);
        Some(c.(tx := Some(c.tx.value.(work := left[|left| - 1].work, saves := left))))
    case Release(n) =>
      if c.tx == None || !c.tx.value.explicit || Down(c.tx.value.saves, n) == [] then None
      else
        var left := Down(c.tx.value.saves, n);
        Some(c.(tx := Some(c.tx.value.(saves := left[..|left| - 1]))))
    case Fail => None
  }

  /** What a body's query leaves: the connection, and whether every statement was accepted. */
  datatype Ran = Ran(conn: Conn, ok: bool)

  /** The statements one after the other, stopping at the first rejected one. */
  function Statements(c: Conn, body: seq<Stmt>): Ran {
    if body == [] then Ran(c, true)
    else
      var before := Statements(c, body[..|body| - 1]);
      if !before.ok then before
      else
        match Exec(before.conn, body[|body| - 1])
        case None => Ran(before.conn, false)
        case Some(d) => Ran(d, true)
  }

  /** The end of the query commits a transaction only the query itself opened, or drops it after an
      error; an explicit one stays open. */
  function Query(c: Conn, body: seq<Stmt>): Ran {
    var r := Statements(c, body);
    if r.conn.tx.Some? && !r.conn.tx.value.explicit then
      Ran(if r.ok then Committed(r.conn) else RolledBack(r.conn), r.ok)
    else r
  }

  /** The server-side check: still in a transaction, and in the same one. */
  predicate Intact(c: Conn, xid: nat) {
    c.tx.Some? && c.tx.value.xid == xid
  }

  datatype Outcome = Recorded | Hijacked | Failed

  datatype Applied = Applied(conn: Conn, recorded: bool, outcome: Outcome)

  /** apply_one and rollback_one alike: open, run, check, write the bookkeeping row, commit. `commits`
      says whether the final commit goes through. */
  function ApplyOne(c: Conn, body: seq<Stmt>, commits: bool): Applied {
    var begun := Open(c, true);
    var r := Query(begun, body);
    if !r.ok then Applied(RolledBack(r.conn), false, Failed)
    else if !Intact(r.conn, c.nextXid) then Applied(RolledBack(r.conn), false, Hijacked)
    else if !commits then Applied(RolledBack(r.conn), false, Failed)
    else Applied(Committed(r.conn), true, Recorded)
  }

  class Session {
    var conn: Conn
    /** Bookkeeping rows that are durable. */
    var rows: set<int>

    method Apply(version: int, body: seq<Stmt>, commits: bool) returns (outcome: Outcome)
      requires conn.tx == None
      modifies this
      ensures conn.tx == None
      ensures Applied(conn, outcome == Recorded, outcome) == ApplyOne(old(conn), body, commits)
      ensures rows == old(rows) + if outcome == Recorded then {version} else {}
    {
      var xidBefore := conn.nextXid;
      conn := Open(conn, true);
      var r := Query(conn, body);
      conn := r.conn;
      if !r.ok {
        conn := RolledBack(conn);
        return Failed;
      }
      if !Intact(conn, xidBefore) {
        conn := RolledBack(conn);
        return Hijacked;
      }
      if !commits {
        conn := RolledBack(conn);
        return Failed;
      }
      conn := Committed(conn);
      rows := rows + {version};
      return Recorded;
    }
  }

  predicate Control(s: Stmt) {
    s.Commit? || s.Rollback?
  }

  /** A body that ends transactions. */
  predicate TakesControl(body: seq<Stmt>) {
    exists i :: 0 <= i < |body| && Control(body[i])
  }

  /** While no COMMIT or ROLLBACK has run, the runner's own transaction is still open and nothing has
      become durable; from the first one on, the runner's transaction id never comes back. */
  lemma {:induction false} RunnersTransaction(c: Conn, body: seq<Stmt>)
    ensures var d := Statements(Open(c, true), body).conn;
            && d.nextXid > c.nextXid && (d.tx.Some? ==> d.tx.value.xid < d.nextXid)
            && (!TakesControl(body) ==> Intact(d, c.nextXid) && d.tx.value.explicit && d.durable == c.durable)
            && (Statements(Open(c, true), body).ok && TakesControl(body) ==> !Intact(d, c.nextXid))
    decreases |body|
  {
    if body != [] {
      var init, last := body[..|body| - 1], body[|body| - 1];
      RunnersTransaction(c, init);
      assert TakesControl(init) ==> TakesControl(body) by {
        if TakesControl(init) {
          var i :| 0 <= i < |init| && Control(init[i]);
          assert Control(body[i]);
        }
      }
      assert Control(last) ==> TakesControl(body) by { assert body[|body| - 1] == last; }
      assert TakesControl(body) ==> TakesControl(init) || Control(last) by {
        if TakesControl(body) {
          var i :| 0 <= i < |body| && Control(body[i]);
          if i < |init| { assert Control(init[i]); }
        }
      }
    }
  }

  /** The check is exact: of the bodies whose statements all succeed, it passes those, and only those,
      with no COMMIT and no ROLLBACK, whatever BEGINs and SAVEPOINTs they hold. */
  lemma CheckIsExact(c: Conn, body: seq<Stmt>)
    requires Statements(Open(c, true), body).ok
    ensures Intact(Query(Open(c, true), body).conn, c.nextXid) <==> !TakesControl(body)
  {
    RunnersTransaction(c, body);
  }

  /** ALL OR NOTHING. A recorded migration has no COMMIT or ROLLBACK in it, and its surviving effects
      become durable in the same commit as its row; without one, nothing becomes durable unless it is
      recorded. */
  lemma TogetherOrNotAtAll(c: Conn, body: seq<Stmt>, commits: bool)
    requires c.tx == None
    ensures var a := ApplyOne(c, body, commits);
            && a.conn.tx == None && (a.recorded <==> a.outcome == Recorded)
            && (a.recorded ==> !TakesControl(body)
                               && Statements(Open(c, true), body).conn.durable == c.durable
                               && a.conn.durable == c.durable + Statements(Open(c, true), body).conn.tx.value.work)
            && (!a.recorded && !TakesControl(body) ==> a.conn.durable == c.durable)
            && (a.outcome == Hijacked <==> Statements(Open(c, true), body).ok && TakesControl(body))
            && (a.outcome == Failed <==> !Statements(Open(c, true), body).ok || (!TakesControl(body) && !commits))
            && (a.recorded <==> Statements(Open(c, true), body).ok && !TakesControl(body) && commits)
  {
    RunnersTransaction(c, body);
  }

  lemma {:induction false} DurableGrows(c: Conn, body: seq<Stmt>, n: nat)
    requires n <= |body|
    ensures Statements(c, body[..n]).ok || !Statements(c, body).ok
    ensures Statements(c, body[..n]).conn.durable <= Statements(c, body).conn.durable
    decreases |body|
  {
    if n < |body| {
      assert body[..|body| - 1][..n] == body[..n];
      DurableGrows(c, body[..|body| - 1], n);
    } else {
      assert body[..n] == body;
    }
  }

  // ---- what survives in a transaction --------------------------------------------------------

  ghost function Works(effects: seq<int>): (body: seq<Stmt>)
    ensures |body| == |effects| && forall i :: 0 <= i < |body| ==> body[i] == Work(effects[i])
  {
    seq(|effects|, i requires 0 <= i < |effects| => Work(effects[i]))
  }

  /** Statements one after the other. */
  lemma {:induction false} Onwards(c: Conn, a: seq<Stmt>, b: seq<Stmt>)
    requires Statements(c, a).ok
    ensures Statements(c, a + b) == Statements(Statements(c, a).conn, b)
    decreases |b|
  {
    if b == [] {
      assert a + b == a;
    } else {
      var n := |b| - 1;
      assert (a + b)[..|a + b| - 1] == a + b[..n];
      Onwards(c, a, b[..n]);
    }
  }

  lemma OneMore(c: Conn, body: seq<Stmt>, s: Stmt)
    requires Statements(c, body).ok
    ensures var e := Exec(Statements(c, body).conn, s);
            Statements(c, body + [s]) == if e == None then Ran(Statements(c, body).conn, false) else Ran(e.value, true)
  {
    assert (body + [s])[..|body|] == body;
  }

  /** Work adds its effects to the open transaction, in order. */
  lemma {:induction false} WorkAdds(c: Conn, effects: seq<int>)
    requires c.tx.Some?
    ensures Statements(c, Works(effects)) == Ran(c.(tx := Some(c.tx.value.(work := c.tx.value.work + effects))), true)
    decreases |effects|
  {
    var work := c.tx.value.work;
    if effects != [] {
      var n := |effects| - 1;
      WorkAdds(c, effects[..n]);
      assert Works(effects) == Works(effects[..n]) + [Work(effects[n])];
      OneMore(c, Works(effects[..n]), Work(effects[n]));
      assert work + effects[..n] + [effects[n]] == work + effects;
    } else {
      assert work + effects == work;
    }
  }

  /** Where none is open it opens one of the query's own. */
  lemma WorkOpens(c: Conn, effects: seq<int>)
    requires c.tx.None? && effects != []
    ensures Statements(c, Works(effects))
            == Ran(Conn(c.durable, Some(Tx(c.nextXid, false, effects, [])), c.nextXid + 1), true)
  {
    hide Statements;
    var first := [Work(effects[0])];
    var begun := Conn(c.durable, Some(Tx(c.nextXid, false, [effects[0]], [])), c.nextXid + 1);
    FirstWork(c, effects[0]);
    assert Works(effects) == first + Works(effects[1..]);
    Onwards(c, first, Works(effects[1..]));
    WorkAdds(begun, effects[1..]);
    assert [effects[0]] + effects[1..] == effects;
  }

  lemma FirstWork(c: Conn, e: int)
    requires c.tx.None?
    ensures Statements(c, [Work(e)]) == Ran(Conn(c.durable, Some(Tx(c.nextXid, false, [e], [])), c.nextXid + 1), true)
  {
    NoStatements(c);
    OneMore(c, [], Work(e));
    hide Statements;
    assert [] + [Work(e)] == [Work(e)] && [] + [e] == [e];
  }

  /** The connection with that work and those savepoints. */
  ghost function With(c: Conn, work: seq<int>, saves: seq<Save>): Conn
    requires c.tx.Some?
  {
    c.(tx := Some(c.tx.value.(work := work, saves := saves)))
  }

  lemma SaveAndWork(c: Conn, name: int, effects: seq<int>)
    requires c.tx.Some? && c.tx.value.explicit
    ensures var t := c.tx.value;
            Statements(c, [Savepoint(name)] + Works(effects))
            == Ran(With(c, t.work + effects, t.saves + [Save(name, t.work)]), true)
  {
    OneMore(c, [], Savepoint(name));
    assert [] + [Savepoint(name)] == [Savepoint(name)];
    Onwards(c, [Savepoint(name)], Works(effects));
    WorkAdds(With(c, c.tx.value.work, c.tx.value.saves + [Save(name, c.tx.value.work)]), effects);
  }

  lemma LatestSave(c: Conn, work: seq<int>, saves: seq<Save>, save: Save)
    requires c.tx.Some? && c.tx.value.explicit
    ensures var d := With(c, work, saves + [save]);
            && Exec(d, RollbackTo(save.name)) == Some(With(c, save.work, saves + [save]))
            && Exec(d, Release(save.name)) == Some(With(c, work, saves))
  {
    var kept := saves + [save];
    assert Down(kept, save.name) == kept && kept[..|kept| - 1] == saves && kept[|kept| - 1] == save;
  }

  /** SAVEPOINTS. Going back undoes exactly the work since, and the savepoint stays; releasing it undoes nothing
      and drops it; outside an explicit transaction, or by an unknown name, both are rejected. */
  lemma SavepointMeans(c: Conn, name: int, effects: seq<int>)
    requires c.tx.Some? && c.tx.value.explicit
    ensures var t := c.tx.value;
            && Statements(c, [Savepoint(name)] + Works(effects) + [RollbackTo(name)])
               == Ran(With(c, t.work, t.saves + [Save(name, t.work)]), true)
            && Statements(c, [Savepoint(name)] + Works(effects) + [Release(name)])
               == Ran(With(c, t.work + effects, t.saves), true)
  {
    hide Statements, Exec;
    var t, body := c.tx.value, [Savepoint(name)] + Works(effects);
    SaveAndWork(c, name, effects);
    OneMore(c, body, RollbackTo(name));
    OneMore(c, body, Release(name));
    LatestSave(c, t.work + effects, t.saves, Save(name, t.work));
  }

  lemma UnknownSavepoint(c: Conn, name: int)
    ensures Exec(c, Savepoint(name)).None? <==> c.tx.None? || !c.tx.value.explicit
    ensures Exec(c, RollbackTo(name)).None? <==>
              c.tx.None? || !c.tx.value.explicit
              || forall i :: 0 <= i < |c.tx.value.saves| ==> c.tx.value.saves[i].name != name
    ensures Exec(c, Release(name)).None? <==> Exec(c, RollbackTo(name)).None?
  {
    if c.tx.Some? { DownFinds(c.tx.value.saves, name); }
  }

  lemma {:induction false} DownFinds(saves: seq<Save>, name: int)
    ensures Down(saves, name) == [] <==> forall i :: 0 <= i < |saves| ==> saves[i].name != name
    ensures Down(saves, name) <= saves
    decreases |saves|
  {
    if saves != [] { DownFinds(saves[..|saves| - 1], name); }
  }

  /** Work after a body's own COMMIT runs in a transaction of the query's, which its end commits; so it is durable
      too, and nothing is recorded. */
  lemma WorkAfterCommit(c: Conn, before: seq<int>, after: seq<int>, commits: bool)
    requires c.tx == None
    ensures var a := ApplyOne(c, Works(before) + [Commit] + Works(after), commits);
            a.outcome == Hijacked && a.conn.tx == None && a.conn.durable == c.durable + before + after
  {
    hide Statements;
    CommittedThenWorked(c, before, after);
  }

  lemma CommittedThenWorked(c: Conn, before: seq<int>, after: seq<int>)
    requires c.tx == None
    ensures var r := Statements(Open(c, true), Works(before) + [Commit] + Works(after));
            && r.ok && r.conn.durable == c.durable + before && r.conn.nextXid > c.nextXid
            && (after == [] ==> r.conn.tx == None)
            && (after != [] ==> r.conn.tx == Some(Tx(c.nextXid + 1, false, after, [])))
  {
    hide Statements;
    var body := Works(before) + [Commit];
    var begun := Open(c, true);
    var committed := Conn(c.durable + before, None, c.nextXid + 1);
    WorkAdds(begun, before);
    assert [] + before == before;
    OneMore(begun, Works(before), Commit);
    assert Statements(begun, body) == Ran(committed, true);
    Onwards(begun, body, Works(after));
    if after != [] {
      WorkOpens(committed, after);
    } else {
      assert Works(after) == [];
      NoStatements(committed);
    }
  }

  lemma NoStatements(c: Conn)
    ensures Statements(c, []) == Ran(c, true)
  {
  }

  /** What the error message warns of: once a body's own COMMIT has run, everything it committed stays
      durable although the migration is never recorded. */
  lemma StrayCommitIsDurable(c: Conn, body: seq<Stmt>, commits: bool, i: nat)
    requires c.tx == None && i < |body| && body[i] == Commit && !TakesControl(body[..i])
    requires Statements(Open(c, true), body[..i]).ok
    ensures var a := ApplyOne(c, body, commits);
            var before := Statements(Open(c, true), body[..i]).conn;
            !a.recorded && before.tx.Some? && c.durable + before.tx.value.work <= a.conn.durable
  {
    RunnersTransaction(c, body[..i]);
    RunnersTransaction(c, body);
    assert Control(body[i]);
    assert body[..i + 1][..i] == body[..i];
    DurableGrows(Open(c, true), body, i + 1);
  }
}
