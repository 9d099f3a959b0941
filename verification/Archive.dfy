/** Every way the daily bar table and the recorded splits change, and the guarantee of `adjust` over all
    of them: loaders (db/load_daily_bars.py, db/load_daily_bars_fmp.py), `fetch` and `adjust`
    (db/load_corporate_actions.py), and the splice of db/load_delistings.py. */
module Archive {
  import opened Wrappers
  import opened Splits
  import opened Adjustment

  datatype Archive = Archive(bars: Bars, actions: Actions, asOf: Option<int>)

  // ---- the two cohorts `verify` checks -------------------------------------------------------

  /** Split-bearing securities: every stored factor is the recomputed one. */
  ghost predicate SplitCohortClean(bars: Bars, actions: Actions, asOf: int) {
    forall k :: k in bars && HasSplit(actions, k.security) ==>
      bars[k].factor == Some(Factor(SplitsOf(actions, k.security), k.day, asOf))
  }

  /** Split-free securities: factor 1 and adj_close = close. */
  ghost predicate PlainCohortClean(bars: Bars, actions: Actions) {
    forall k :: k in bars && !HasSplit(actions, k.security) ==>
      bars[k].factor == Some(1.0) && bars[k].adjClose == Some(bars[k].Close())
  }

  /** A factor of 1 goes with adj_close = close. */
  ghost predicate Honest(bars: Bars) {
    forall k :: k in bars && bars[k].factor == Some(1.0) ==> bars[k].adjClose == Some(bars[k].Close())
  }

  /** After `adjust` the split cohort always verifies, and the split-free cohort verifies if and only if
      no split-free bar came in with factor 1 beside a different adj_close: those are never touched. */
  lemma AdjustMeetsVerify(before: Bars, after: Bars, actions: Actions, asOf: int)
    requires AllSettled(before, after, actions, asOf)
    ensures SplitCohortClean(after, actions, asOf)
    ensures forall k :: k in after ==> after[k].factor.Some?
    ensures PlainCohortClean(after, actions) <==>
            forall k :: k in before && !HasSplit(actions, k.security) && before[k].factor == Some(1.0) ==>
                          before[k].adjClose == Some(before[k].Close())
  {
    hide Factor, RoundTo;
    forall k | k in after
      ensures after[k].factor.Some? && after[k].Close() == before[k].Close()
      ensures HasSplit(actions, k.security) ==>
                after[k].factor == Some(Factor(SplitsOf(actions, k.security), k.day, asOf))
    {
      assert k in before && after[k] == SettledAt(before, actions, k, asOf);
    }
    if PlainCohortClean(after, actions) {
      forall k | k in before && !HasSplit(actions, k.security) && before[k].factor == Some(1.0)
        ensures before[k].adjClose == Some(before[k].Close())
      {
        assert after[k] == SettledAt(before, actions, k, asOf);
      }
    }
  }

  lemma AdjustSettlesAgain(before: Bars, after: Bars, again: Bars, actions: Actions, asOf: int)
    requires AllSettled(before, after, actions, asOf)
    ensures !SplitUpdateFails(after, actions, asOf)
    ensures AllSettled(after, again, actions, asOf) ==> again == after
  {
    hide Factor, RoundTo;
    forall k | k in after
      ensures after[k] == SettledAt(before, actions, k, asOf) && after[k].Close() == before[k].Close()
    {
      assert k in before;
    }
    if AllSettled(after, again, actions, asOf) {
      forall k | k in again ensures again[k] == after[k] {
        assert again[k] == SettledAt(after, actions, k, asOf);
      }
    }
  }

  // ---- reachable states ----------------------------------------------------------------------

  /** One committed effect on the tables. `Adjusted` is an `adjust` run that got through `stages`
      statements (0: only the as-of date) and then, in stage 3, the batches covering `filled`. */
  datatype Op =
    | Load(rows: Bars)
    | Fetch(security: nat, day: int, ratio: real)
    | Delete(security: nat, day: int)
    | Splice(holder: nat, successor: nat, resume: int)
    | Adjusted(latest: int, stages: nat, filled: set<Key>)

  function Put(actions: Actions, security: nat, splits: Ratios): Actions {
    actions[security := splits]
  }

  function Moved(bars: Bars, holder: nat, successor: nat, resume: int): Bars {
    (map k | k in bars && !(k.security == holder && k.day >= resume) :: bars[k])
    + (map k | k in bars && k.security == holder && k.day >= resume :: Key(successor, k.day) := bars[k])
  }

  function Apply(a: Archive, op: Op): Archive {
    match op
    case Load(rows) =>
      // ON CONFLICT DO NOTHING; a loader never writes a factor
      a.(bars := (map k | k in rows :: rows[k].(factor := None)) + a.bars)
    case Fetch(security, day, ratio) =>
      if ratio <= 0.0 || ratio == 1.0 || day in SplitsOf(a.actions, security) then a
      else a.(actions := Put(a.actions, security, SplitsOf(a.actions, security)[day := ratio]))
    case Delete(security, day) =>
      a.(actions := Put(a.actions, security, SplitsOf(a.actions, security) - {day}))
    case Splice(holder, successor, resume) =>
      // the successor is a newly generated identity
      if holder == successor || HasSplit(a.actions, successor) || exists k :: k in a.bars && k.security == successor
      then a
      else
        Archive(Moved(a.bars, holder, successor, resume),
                Put(Put(a.actions, successor, SplitsOf(a.actions, holder)), holder, map[]), a.asOf)
    case Adjusted(latest, stages, filled) =>
      if stages == 0 || SplitUpdateFails(a.bars, a.actions, latest) then a.(asOf := Some(latest))
      else
        var one := SplitUpdate(a.bars, a.actions, latest);
        var two := if stages >= 2 then ResetStale(one, a.actions) else one;
        var batches := set k | k in filled && k in two && two[k].factor == None;
        var three := if stages >= 3 then PlainBatch(two, batches) else two;
        Archive(three, a.actions, Some(latest))
  }

  /** A load adds the bars that are missing, without a factor. */
  lemma LoadMeans(a: Archive, rows: Bars, k: Key)
    ensures var b := Apply(a, Load(rows)).bars;
            && (k in b <==> k in a.bars || k in rows)
            && (k in a.bars ==> b[k] == a.bars[k])
            && (k in rows && k !in a.bars ==> b[k] == rows[k].(factor := None))
  {
  }

  /** WHAT MOVES. A splice gives every bar of the holder from the resumption on, and all its splits, to the
      successor, and no other bar changes hands. */
  lemma SpliceMeans(a: Archive, holder: nat, successor: nat, resume: int, k: Key)
    requires holder != successor && !HasSplit(a.actions, successor)
    requires forall j :: j in a.bars ==> j.security != successor
    ensures var b := Apply(a, Splice(holder, successor, resume));
            && b.bars == Moved(a.bars, holder, successor, resume)
            && SplitsOf(b.actions, successor) == SplitsOf(a.actions, holder) && SplitsOf(b.actions, holder) == map[]
    ensures var bars := Apply(a, Splice(holder, successor, resume)).bars;
            if k.security == successor
            then (k in bars <==> Key(holder, k.day) in a.bars && resume <= k.day)
                 && (k in bars ==> bars[k] == a.bars[Key(holder, k.day)])
            else (k in bars <==> k in a.bars && (k.security == holder ==> k.day < resume))
                 && (k in bars ==> bars[k] == a.bars[k])
  {
    MovedMeans(a.bars, holder, successor, resume, k);
    hide Moved, HasSplit;
  }

  lemma MovedMeans(bars: Bars, holder: nat, successor: nat, resume: int, k: Key)
    requires holder != successor && forall j :: j in bars ==> j.security != successor
    ensures var moved := Moved(bars, holder, successor, resume);
            if k.security == successor
            then (k in moved <==> Key(holder, k.day) in bars && resume <= k.day)
                 && (k in moved ==> moved[k] == bars[Key(holder, k.day)])
            else (k in moved <==> k in bars && (k.security == holder ==> k.day < resume))
                 && (k in moved ==> moved[k] == bars[k])
  {
    if k.security == successor { assert Key(successor, k.day) == k; }
  }

  ghost function Reach(ops: seq<Op>): Archive {
    if ops == [] then Archive(map[], map[], None) else Apply(Reach(ops[..|ops| - 1]), ops[|ops| - 1])
  }

  /** A run that got through all its batches is the completed command of PriceStore.Adjust. */
  lemma CompletedRunSettles(a: Archive, latest: int, filled: set<Key>)
    requires !SplitUpdateFails(a.bars, a.actions, latest) && a.bars.Keys <= filled
    ensures AllSettled(a.bars, Apply(a, Adjusted(latest, 3, filled)).bars, a.actions, latest)
  {
    hide Factor, WithFactor, SplitUpdateFails, AllSettled, SplitUpdate;
    var one := SplitUpdate(a.bars, a.actions, latest);
    UpdateKeepsKeys(a.bars, a.actions, latest);
    UpdatesSettle(a.bars, Apply(a, Adjusted(latest, 3, filled)).bars, a.actions, latest);
  }

  lemma UpdateKeepsKeys(bars: Bars, actions: Actions, asOf: int)
    requires !SplitUpdateFails(bars, actions, asOf)
    ensures SplitUpdate(bars, actions, asOf).Keys == bars.Keys
  {
    hide Factor, WithFactor;
  }

  /** A close has six decimals and stays below 10^12, so at factor 1 the rounded level is the close. */
  lemma FactorOneIsHonest(bar: Bar)
    ensures WithFactor(bar, 1.0).adjClose == Some(bar.Close())
  {
    var scaled: int := bar.micros * 10_000;
    var p := Pow10(10);
    assert p == 10_000_000_000.0 by {
      assert Pow10(2) == 100.0; assert Pow10(4) == 10_000.0; assert Pow10(6) == 1_000_000.0;
      assert Pow10(8) == 100_000_000.0;
    }
    assert bar.Close() * p == scaled as real;
    FitsBy(bar.Close(), 10, scaled);
    RoundExactIff(bar.Close(), 10);
    assert bar.Close() / 1.0 == bar.Close();
  }

  lemma SplitUpdateHonest(bars: Bars, actions: Actions, asOf: int)
    requires Honest(bars) && !SplitUpdateFails(bars, actions, asOf)
    ensures Honest(SplitUpdate(bars, actions, asOf))
  {
    hide Factor, WithFactor;
    var one := SplitUpdate(bars, actions, asOf);
    forall k | k in one && one[k].factor == Some(1.0) ensures one[k].adjClose == Some(one[k].Close()) {
      if HasSplit(actions, k.security) {
        FactorStored(bars[k], Factor(SplitsOf(actions, k.security), k.day, asOf));
        FactorOneIsHonest(bars[k]);
      }
    }
  }

  lemma FactorStored(bar: Bar, f: real)
    requires f != 0.0
    ensures WithFactor(bar, f).factor == Some(f) && WithFactor(bar, f).micros == bar.micros
  {
  }

  lemma ApplyKeepsHonest(a: Archive, op: Op)
    requires Honest(a.bars)
    ensures Honest(Apply(a, op).bars)
  {
    hide WithFactor, Factor, SplitUpdateFails, SplitUpdate;
    match op
    case Splice(holder, successor, resume) =>
      MovedHonest(a.bars, holder, successor, resume);
    case Adjusted(latest, stages, filled) =>
      if stages > 0 && !SplitUpdateFails(a.bars, a.actions, latest) {
        SplitUpdateHonest(a.bars, a.actions, latest);
      }
    case _ =>
  }

  lemma MovedHonest(bars: Bars, holder: nat, successor: nat, resume: int)
    requires Honest(bars)
    ensures Honest(Moved(bars, holder, successor, resume))
  {
    var moved := Moved(bars, holder, successor, resume);
    forall k | k in moved ensures exists j :: j in bars && moved[k] == bars[j] {
      if k.security == successor && Key(holder, k.day) in bars && k.day >= resume {
        assert moved[k] == bars[Key(holder, k.day)];
      } else {
        assert moved[k] == bars[k];
      }
    }
  }

  lemma {:induction false} ReachKeepsHonest(ops: seq<Op>)
    ensures Honest(Reach(ops).bars)
    decreases |ops|
  {
    if ops != [] {
      ReachKeepsHonest(ops[..|ops| - 1]);
      ApplyKeepsHonest(Reach(ops[..|ops| - 1]), ops[|ops| - 1]);
    }
  }

  /** THE GUARANTEE. From every state reachable by loads, fetches, deletions, splices and adjusts that
      may have stopped at any statement, a completed `adjust` leaves no bar without a factor and both
      cohorts clean; and running it again changes nothing. */
  lemma ReachableAdjustVerifies(ops: seq<Op>, after: Bars, again: Bars, asOf: int)
    requires AllSettled(Reach(ops).bars, after, Reach(ops).actions, asOf)
    ensures forall k :: k in after ==> after[k].factor.Some?
    ensures SplitCohortClean(after, Reach(ops).actions, asOf)
    ensures PlainCohortClean(after, Reach(ops).actions)
    ensures !SplitUpdateFails(after, Reach(ops).actions, asOf)
    ensures AllSettled(after, again, Reach(ops).actions, asOf) ==> again == after
  {
    hide AllSettled, SplitUpdateFails, SplitCohortClean;
    ReachKeepsHonest(ops);
    AdjustMeetsVerify(Reach(ops).bars, after, Reach(ops).actions, asOf);
    AdjustSettlesAgain(Reach(ops).bars, after, again, Reach(ops).actions, asOf);
  }
}
