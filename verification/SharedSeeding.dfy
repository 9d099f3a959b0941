/** The seeding loop of bin/seed_paper_book.py among others: one process of OrderProtocol, taking its steps in
    program order while any other processes, the network and the broker take theirs in between. */
module SharedSeeding {
  import opened OrderEntry
  import opened OrderProtocol
  import opened Seeding

  /** The process whose step it is; the network and the broker have none. */
  predicate Moves(s: Step, me: nat) {
    !s.Handle? && !s.Lose? && s.r == me
  }

  /** What no step takes back: rows stay, settled ones as they are; orders and submissions stay. */
  ghost predicate Later(w: World, x: World) {
    && |x.runs| == |w.runs|
    && (forall id :: id in w.rows ==> id in x.rows && (w.rows[id] != Submitting ==> x.rows[id] == w.rows[id]))
    && w.orders <= x.orders && |w.calls| <= |x.calls|
    && (forall k :: 0 <= k < |w.calls| ==> x.calls[k].id == w.calls[k].id && x.calls[k].audited == w.calls[k].audited)
  }

  lemma StepIsLater(w: World, s: Step)
    requires Enabled(w, s) && forall id :: Inv(w, id)
    ensures Later(w, After(w, s))
  {
    if s.Write? && w.runs[s.r].audited {
      var id := w.runs[s.r].id;
      assert Inv(w, id) && Holds(w, s.r, id);
    }
  }

  /** What a process may say: each id it placed has its order and, if audited, a row that says accepted;
      each one it failed a row that says refused or uncertain. */
  ghost predicate Told(w: World, audit: bool, placed: seq<Id>, failed: seq<Id>) {
    && (forall i :: 0 <= i < |placed| ==>
          placed[i] in w.orders && (audit ==> placed[i] in w.rows && w.rows[placed[i]] == Known(Accepted)))
    && (audit ==> forall i :: 0 <= i < |failed| ==>
          failed[i] in w.rows && (w.rows[failed[i]] == Known(Refused) || w.rows[failed[i]] == Known(Uncertain)))
  }

  lemma RowLater(w: World, x: World, id: Id)
    requires Later(w, x)
    ensures id in w.rows ==> id in x.rows && (w.rows[id] != Submitting ==> x.rows[id] == w.rows[id])
  {
  }

  lemma ToldLater(w: World, x: World, audit: bool, placed: seq<Id>, failed: seq<Id>)
    requires Told(w, audit, placed, failed) && Later(w, x)
    ensures Told(x, audit, placed, failed)
  {
    forall i | 0 <= i < |placed|
      ensures placed[i] in x.orders && (audit ==> placed[i] in x.rows && x.rows[placed[i]] == Known(Accepted))
    {
      RowLater(w, x, placed[i]);
    }
    forall i | audit && 0 <= i < |failed|
      ensures failed[i] in x.rows && (x.rows[failed[i]] == Known(Refused) || x.rows[failed[i]] == Known(Uncertain))
    {
      RowLater(w, x, failed[i]);
    }
  }

  lemma ToldMore(w: World, audit: bool, placed: seq<Id>, failed: seq<Id>, taken: seq<Id>,
                 id: Id, outcome: Outcome)
    requires Told(w, audit, placed, failed) && outcome != Raised
    requires outcome == Accepted ==> id in w.orders
    requires audit ==> id in w.rows && w.rows[id] == Known(outcome)
    requires EachOnce(placed, failed, taken)
    ensures outcome == Accepted ==>
              Told(w, audit, placed + [id], failed) && EachOnce(placed + [id], failed, taken + [id])
    ensures outcome != Accepted ==>
              Told(w, audit, placed, failed + [id]) && EachOnce(placed, failed + [id], taken + [id])
  {
  }

  /** Between them the two lists hold each of these once. */
  ghost predicate EachOnce(placed: seq<Id>, failed: seq<Id>, taken: seq<Id>) {
    multiset(placed) + multiset(failed) == multiset(taken)
  }

  /** Each symbol handled so far has a row. */
  ghost predicate HaveRows(w: World, ids: seq<Id>) {
    forall i :: 0 <= i < |ids| ==> ids[i] in w.rows
  }

  class Process {
    const me: nat
    var w: World
    /** The world before anything happened, and everything that has happened since. */
    ghost var start: World
    ghost var trace: seq<Step>

    constructor (me: nat, w: World)
      requires Start(w) && me < |w.runs|
      ensures Valid() && this.me == me && this.w == w
    {
      this.me, this.w, start, trace := me, w, w, [];
    }

    /** The present world is that of a run of the protocol. */
    ghost predicate Valid()
      reads this
    {
      Start(start) && Legal(start, trace) && w == Execute(start, trace) && me < |w.runs|
    }

    /** So every id is safe in it. */
    ghost method AllSafe()
      requires Valid()
      ensures forall id :: Inv(w, id) && Safe(w, id)
    {
      forall id ensures Inv(w, id) && Safe(w, id) { EveryRunIsSafe(start, trace, id); }
    }

    method Do(s: Step)
      requires Valid() && Enabled(w, s)
      modifies this`w, this`trace
      ensures Valid() && w == After(old(w), s) && Later(old(w), w)
    {
      hide Safe, Inv, After, Enabled, Legal, Execute, Start, Later;
      AllSafe();
      StepIsLater(w, s);
      ThenStep(start, trace, s);
      trace := trace + [s];
      w := After(w, s);
    }

    /** Any number of steps of everybody else. */
    method Others()
      requires Valid()
      modifies this`w, this`trace
      ensures Valid() && Later(old(w), w) && w.runs[me] == old(w).runs[me]
    {
      hide Start, Legal, Execute;
      var rounds: int := *;
      while rounds > 0
        invariant Valid() && Later(old(w), w) && w.runs[me] == old(w).runs[me]
      {
        var s: Step := *;
        if Enabled(w, s) && !Moves(s, me) { Do(s); }
        rounds := rounds - 1;
      }
    }

    /** One submission: refused here, or sent, and then heard of or given up on. */
    method Submit(id: Id, notional: real, audit: bool) returns (outcome: Outcome)
      requires Valid() && w.runs[me] == Ready(id, audit)
      modifies this`w, this`trace
      ensures Valid() && Later(old(w), w) && w.runs[me] == Done(id, audit, outcome)
      ensures outcome == Accepted ==> id in w.orders
      ensures outcome == Raised ==>
                exists k, status: nat, decodable ::
                  && |old(w).calls| <= k < |w.calls| && w.calls[k] == Call(id, audit, Answered(status, decodable))
                  && 400 <= status < 500 && status !in {401, 403, 422}
    {
      hide Start, Legal, Execute, Safe;
      if !Sendable(DollarBuy(notional), {Market}) {
        Do(RefuseLocally(me));
        return Refused;
      }
      ghost var before := w;
      Do(Send(me));
      var k := |w.calls| - 1;
      Others();
      AllSafe();
      assert w.calls[k].id == id && w.calls[k].audited == audit;
      var heard: bool := *;
      if heard && w.calls[k].phase.Answered? {
        ghost var c := w.calls[k];
        assert c == Call(id, audit, Answered(c.phase.status, c.phase.decodable));
        outcome := Meaning(Reply(w.calls[k].phase.status, w.calls[k].phase.decodable));
        assert Inv(w, id);
        Do(Hear(me));
      } else {
        outcome := Meaning(Broken);
        Do(GiveUp(me));
      }
    }

    /** One symbol: insert or skip, submit, update. The process stops at the insert if the table refuses the
        row, and may be stopped before the update. */
    method One(id: Id, notional: real, audit: bool) returns (turn: Turn)
      requires Valid() && w.runs[me] == Idle
      modifies this`w, this`trace
      ensures Valid() && w.runs[me] == Idle && Later(old(w), w)
      ensures turn == Skipped ==> audit && id in w.rows
      ensures audit && Taken(turn) ==> id !in old(w).rows && id in w.rows
      ensures audit && notional < 0.005 ==> turn == Stopped(false)
      ensures turn.Reported? ==> turn.outcome != Raised && (turn.outcome == Accepted ==> id in w.orders)
                                 && (audit ==> w.rows[id] == Known(turn.outcome))
    {
      hide Start, Legal, Execute, Later;
      ghost var w0 := w;
      Others();
      if audit && !RowFits(notional) {
        ghost var w' := w;
        Do(Crash(me));
        Steps(w0, w', w, id);
        return Stopped(false);
      }
      var known := audit && id in w.rows;
      ghost var w1 := w;
      Do(if audit then Insert(me, id) else Bare(me, id));
      Steps(w0, w1, w, id);
      if known { return Skipped; }
      ghost var w2 := w;
      Others();
      ghost var w3 := w;
      var outcome := Submit(id, notional, audit);
      Steps(w2, w3, w, id);
      Steps(w0, w2, w, id);
      ghost var w4 := w;
      Others();
      ghost var w5 := w;
      var killed: bool := *;
      var stop := outcome == Raised || killed;
      Do(if stop then Crash(me) else Write(me));
      Steps(w4, w5, w, id);
      Steps(w0, w4, w, id);
      Steps(w2, w4, w, id);
      turn := if stop then Stopped(true) else Reported(outcome);
    }

    /** The loop. Whatever the others do in between: the world stays that of a run, so every id is safe;
        what is reported is true; unless the process stops, by an exception or otherwise, each symbol has
        its row and each symbol `taken` up is reported once. With auditing those are new and distinct,
        without it they are the whole basket. */
    method Seed(basket: seq<Id>, notional: real, audit: bool)
      returns (placed: seq<Id>, failed: seq<Id>, stopped: bool, ghost taken: seq<Id>)
      requires Valid() && w.runs[me] == Idle
      modifies this`w, this`trace
      ensures Valid() && w.runs[me] == Idle && forall id :: Safe(w, id)
      ensures Told(w, audit, placed, failed)
      ensures audit && !stopped ==> HaveRows(w, basket)
      ensures !stopped ==> EachOnce(placed, failed, taken)
      ensures if audit then NewIds(old(w), taken) else !stopped ==> taken == basket
    {
      hide Start, Legal, Execute, Safe, Inv, Later, Told, HaveRows, NewIds, EachOnce;
      placed, failed, stopped, taken := [], [], false, [];
      NothingTold(w, audit);
      for i := 0 to |basket|
        invariant Valid() && w.runs[me] == Idle && Later(old(w), w)
        invariant Told(w, audit, placed, failed) && EachOnce(placed, failed, taken)
        invariant if audit then HaveRows(w, basket[..i]) && NewIds(old(w), taken) && HaveRows(w, taken)
                  else taken == basket[..i]
      {
        ghost var before := w;
        var turn := One(basket[i], notional, audit);
        Carried(old(w), before, w, audit, placed, failed, basket[..i], taken);
        assert basket[..i + 1] == basket[..i] + [basket[i]];
        if audit && turn != Stopped(false) { OneMoreRow(w, basket[..i], basket[i]); }
        if turn == Skipped { continue; }
        if turn == Stopped(false) {
          AllSafe();
          return placed, failed, true, taken;
        }
        if audit {
          OneMoreTaken(old(w), before, taken, basket[i]);
          OneMoreRow(w, taken, basket[i]);
        }
        if turn.Stopped? {
          AllSafe();
          return placed, failed, true, taken + [basket[i]];
        }
        ToldMore(w, audit, placed, failed, taken, basket[i], turn.outcome);
        taken := taken + [basket[i]];
        if turn.outcome == Accepted { placed := placed + [basket[i]]; } else { failed := failed + [basket[i]]; }
      }
      assert basket[..|basket|] == basket;
      AllSafe();
    }
  }

  /** How one symbol's turn ends. */
  datatype Turn = Skipped | Reported(outcome: Outcome) | Stopped(taken: bool)

  /** The symbol was taken up: the process holds its id, with a row if audited. */
  predicate Taken(turn: Turn) {
    turn.Reported? || turn == Stopped(true)
  }

  /** Distinct ids without a row at the start. */
  ghost predicate NewIds(w: World, ids: seq<Id>) {
    && (forall i :: 0 <= i < |ids| ==> ids[i] !in w.rows)
    && (forall i, j :: 0 <= i < j < |ids| ==> ids[i] != ids[j])
  }

  /** One step after another, and what they keep for an id. */
  lemma Steps(w: World, x: World, y: World, id: Id)
    requires Later(w, x) && Later(x, y)
    ensures Later(w, y) && (id in w.rows ==> id in x.rows) && (id in x.rows ==> id in y.rows)
    ensures id in x.orders ==> id in y.orders
  {
    forall z | z in w.rows ensures z in y.rows && (w.rows[z] != Submitting ==> y.rows[z] == w.rows[z]) {
      RowLater(w, x, z);
      RowLater(x, y, z);
    }
    RowLater(w, x, id);
    RowLater(x, y, id);
  }

  /** An id without a row before this turn had none at the start, and is none of those taken up before. */
  lemma OneMoreTaken(first: World, before: World, taken: seq<Id>, id: Id)
    requires Later(first, before) && NewIds(first, taken) && HaveRows(before, taken) && id !in before.rows
    ensures NewIds(first, taken + [id])
  {
    RowLater(first, before, id);
  }

  lemma NothingTold(w: World, audit: bool)
    ensures Told(w, audit, [], []) && HaveRows(w, []) && Later(w, w) && NewIds(w, []) && EachOnce([], [], [])
  {
  }

  lemma Carried(first: World, w: World, x: World, audit: bool, placed: seq<Id>, failed: seq<Id>, ids: seq<Id>,
                more: seq<Id>)
    requires Later(first, w) && Later(w, x) && Told(w, audit, placed, failed)
    ensures Later(first, x) && Told(x, audit, placed, failed)
    ensures (HaveRows(w, ids) ==> HaveRows(x, ids)) && (HaveRows(w, more) ==> HaveRows(x, more))
  {
    Steps(first, w, x, 0);
    ToldLater(w, x, audit, placed, failed);
    forall id ensures id in w.rows ==> id in x.rows { RowLater(w, x, id); }
  }

  lemma OneMoreRow(w: World, ids: seq<Id>, id: Id)
    requires HaveRows(w, ids) && id in w.rows
    ensures HaveRows(w, ids + [id])
  {
  }
}
