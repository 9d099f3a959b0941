/** How even the bill stays when calls overlap: each call goes to the owner who has spent least according to
    the ledger (KeyChoice.Select), but its cost reaches the ledger only after it returns. No benching and no
    database outage in these runs. */
module FairSpend {
  import opened Wrappers
  import opened KeyChoice

  /** The ledger, and the calls chosen but not yet recorded. */
  datatype State = State(ledger: seq<Row>, flight: multiset<Owner>)

  /** A call is chosen; or one ends, with its cost recorded, recorded as unpriced, or not at all. */
  datatype Step = Choose | Finish(owner: Owner, row: bool, cost: Option<real>)

  predicate Enabled(s: State, t: Step, cap: real, limit: nat) {
    match t
    case Choose => |s.flight| < limit
    case Finish(o, _, cost) => o in s.flight && (cost.Some? ==> 0.0 <= cost.value <= cap)
  }

  function After(keys: seq<Owner>, s: State, t: Step): State
    requires keys != [] && (t.Finish? ==> t.owner in s.flight)
  {
    match t
    case Choose => s.(flight := s.flight + multiset{keys[Select(keys, s.ledger)]})
    case Finish(o, row, cost) =>
      State(if row then s.ledger + [Row(o, cost)] else s.ledger, s.flight - multiset{o})
  }

  predicate Legal(keys: seq<Owner>, s: State, steps: seq<Step>, cap: real, limit: nat)
    requires keys != []
    decreases |steps|
  {
    steps == []
    || (Enabled(s, steps[0], cap, limit) && Legal(keys, After(keys, s, steps[0]), steps[1..], cap, limit))
  }

  function Execute(keys: seq<Owner>, s: State, steps: seq<Step>, cap: real, limit: nat): State
    requires keys != [] && Legal(keys, s, steps, cap, limit)
    decreases |steps|
  {
    if steps == [] then s else Execute(keys, After(keys, s, steps[0]), steps[1..], cap, limit)
  }

  /** n calls at full price. */
  function Times(n: nat, cap: real): real {
    if n == 0 then 0.0 else Times(n - 1, cap) + cap
  }

  lemma {:induction false} TimesIs(n: nat, cap: real)
    ensures Times(n, cap) == n as real * cap
  {
    if n > 0 {
      TimesIs(n - 1, cap);
      assert n as real * cap == (n - 1) as real * cap + cap;
    }
  }

  lemma {:induction false} TimesGrows(m: nat, n: nat, cap: real)
    requires m <= n && cap >= 0.0
    ensures 0.0 <= Times(m, cap) <= Times(n, cap)
  {
    if n > m { TimesGrows(m, n - 1, cap); }
    else if m > 0 { TimesGrows(m - 1, m - 1, cap); }
  }

  function Least(keys: seq<Owner>, ledger: seq<Row>): real
    requires keys != []
  {
    Spend(ledger, keys[Select(keys, ledger)])
  }

  function Max(x: real, y: real): real {
    if x >= y then x else y
  }

  /** Even if every call in flight came in at full price, the owner would be within `limit` full-price
      calls of the least spender, or no higher than at the start. */
  predicate Within(keys: seq<Owner>, first: seq<Row>, s: State, o: Owner, cap: real, limit: nat)
    requires keys != []
  {
    Spend(s.ledger, o) + Times(s.flight[o], cap) <= Max(Spend(first, o), Least(keys, s.ledger) + Times(limit, cap))
  }

  ghost predicate Inv(keys: seq<Owner>, first: seq<Row>, s: State, cap: real, limit: nat)
    requires keys != []
  {
    && |s.flight| <= limit
    && (forall o :: Spend(first, o) <= Spend(s.ledger, o))
    && (forall i :: 0 <= i < |keys| ==> Within(keys, first, s, keys[i], cap, limit))
  }

  lemma LeastGrows(keys: seq<Owner>, before: seq<Row>, after: seq<Row>)
    requires keys != [] && forall o :: Spend(before, o) <= Spend(after, o)
    ensures Least(keys, before) <= Least(keys, after)
  {
    assert Spend(before, keys[Select(keys, before)]) <= Spend(before, keys[Select(keys, after)]);
  }

  lemma ChooseKeeps(keys: seq<Owner>, first: seq<Row>, s: State, cap: real, limit: nat)
    requires keys != [] && cap >= 0.0 && Inv(keys, first, s, cap, limit) && Enabled(s, Choose, cap, limit)
    ensures Inv(keys, first, After(keys, s, Choose), cap, limit)
  {
    var x := After(keys, s, Choose);
    forall i | 0 <= i < |keys| ensures Within(keys, first, x, keys[i], cap, limit) {
      assert Within(keys, first, s, keys[i], cap, limit);
      if keys[i] == keys[Select(keys, s.ledger)] {
        assert x.flight[keys[i]] <= |x.flight| by {
          assert x.flight == (x.flight - multiset{}[keys[i] := x.flight[keys[i]]])
              + multiset{}[keys[i] := x.flight[keys[i]]];
        }
        TimesGrows(x.flight[keys[i]], limit, cap);
      }
    }
  }

  lemma FinishedWithin(keys: seq<Owner>, first: seq<Row>, s: State, x: State, payer: Owner, o: Owner, cap: real,
                       limit: nat)
    requires keys != [] && Within(keys, first, s, o, cap, limit)
    requires s.flight[payer] > 0 && x.flight == s.flight - multiset{payer}
    requires Spend(x.ledger, o) <= Spend(s.ledger, o) + if o == payer then cap else 0.0
    requires Least(keys, s.ledger) <= Least(keys, x.ledger)
    ensures Within(keys, first, x, o, cap, limit)
  {
    hide Spend, Least;
    assert x.flight[o] == s.flight[o] - if o == payer then 1 else 0;
  }

  lemma FinishKeeps(keys: seq<Owner>, first: seq<Row>, s: State, t: Step, cap: real, limit: nat)
    requires keys != [] && cap >= 0.0 && Inv(keys, first, s, cap, limit) && t.Finish? && Enabled(s, t, cap, limit)
    ensures Inv(keys, first, After(keys, s, t), cap, limit)
  {
    var x := After(keys, s, t);
    forall o ensures Spend(s.ledger, o) <= Spend(x.ledger, o)
             ensures Spend(x.ledger, o) <= Spend(s.ledger, o) + if o == t.owner then cap else 0.0
    {
      SpendMeans(s.ledger, Row(t.owner, t.cost), o);
    }
    LeastGrows(keys, s.ledger, x.ledger);
    forall i | 0 <= i < |keys| ensures Within(keys, first, x, keys[i], cap, limit) {
      FinishedWithin(keys, first, s, x, t.owner, keys[i], cap, limit);
    }
  }

  lemma {:induction false} RunKeeps(keys: seq<Owner>, first: seq<Row>, s: State, steps: seq<Step>, cap: real,
                                    limit: nat)
    requires keys != [] && cap >= 0.0 && Inv(keys, first, s, cap, limit) && Legal(keys, s, steps, cap, limit)
    ensures Inv(keys, first, Execute(keys, s, steps, cap, limit), cap, limit)
    decreases |steps|
  {
    if steps != [] {
      if steps[0].Choose? { ChooseKeeps(keys, first, s, cap, limit); }
      else { FinishKeeps(keys, first, s, steps[0], cap, limit); }
      RunKeeps(keys, first, After(keys, s, steps[0]), steps[1..], cap, limit);
    }
  }

  // ---- how even it stays ---------------------------------------------------------------------

  lemma Begins(keys: seq<Owner>, first: seq<Row>, cap: real, limit: nat)
    requires keys != [] && cap >= 0.0
    ensures Inv(keys, first, State(first, multiset{}), cap, limit)
  {
    TimesGrows(0, limit, cap);
  }

  /** With at most `limit` calls in flight, none dearer than `cap`: no two owners' recorded spends ever
      differ by more than the initial difference (any bound `d` on it) or `limit` full-price calls. */
  lemma SpreadStaysBounded(keys: seq<Owner>, first: seq<Row>, steps: seq<Step>, cap: real, limit: nat, d: real)
    requires keys != [] && cap >= 0.0 && Legal(keys, State(first, multiset{}), steps, cap, limit)
    requires forall i, j :: 0 <= i < |keys| && 0 <= j < |keys| ==> Spend(first, keys[i]) - Spend(first, keys[j]) <= d
    ensures var l := Execute(keys, State(first, multiset{}), steps, cap, limit).ledger;
            forall i, j :: 0 <= i < |keys| && 0 <= j < |keys| ==>
              Spend(l, keys[i]) - Spend(l, keys[j]) <= Max(d, Times(limit, cap))
  {
    Begins(keys, first, cap, limit);
    RunKeeps(keys, first, State(first, multiset{}), steps, cap, limit);
    var e := Execute(keys, State(first, multiset{}), steps, cap, limit);
    forall i, j | 0 <= i < |keys| && 0 <= j < |keys|
      ensures Spend(e.ledger, keys[i]) - Spend(e.ledger, keys[j]) <= Max(d, Times(limit, cap))
    {
      assert Within(keys, first, e, keys[i], cap, limit);
      TimesGrows(0, e.flight[keys[i]], cap);
      assert Spend(first, keys[i]) - Spend(first, keys[j]) <= d;
    }
  }

  /** What all owners together have spent above `base`. */
  function NewSpend(keys: seq<Owner>, base: seq<Row>, now: seq<Row>): real {
    if keys == [] then 0.0
    else
      var o := keys[|keys| - 1];
      NewSpend(keys[..|keys| - 1], base, now) + Spend(now, o) - Spend(base, o)
  }

  /** What it would take to bring every owner up to `top`. */
  function Shortfall(keys: seq<Owner>, ledger: seq<Row>, top: real): real {
    if keys == [] then 0.0
    else Shortfall(keys[..|keys| - 1], ledger, top) + top - Spend(ledger, keys[|keys| - 1])
  }

  lemma {:induction false} NewSpendFills(keys: seq<Owner>, base: seq<Row>, now: seq<Row>, top: real)
    ensures NewSpend(keys, base, now) == Shortfall(keys, base, top) - Shortfall(keys, now, top)
  {
    if keys != [] { NewSpendFills(keys[..|keys| - 1], base, now, top); }
  }

  lemma {:induction false} SomeoneShort(keys: seq<Owner>, ledger: seq<Row>, top: real, k: int)
    requires forall i :: 0 <= i < |keys| ==> Spend(ledger, keys[i]) <= top
    ensures Shortfall(keys, ledger, top) >= 0.0
    ensures 0 <= k < |keys| && Spend(ledger, keys[k]) < top ==> Shortfall(keys, ledger, top) > 0.0
  {
    if keys != [] {
      var n := |keys| - 1;
      assert forall i :: 0 <= i < n ==> keys[..n][i] == keys[i];
      SomeoneShort(keys[..n], ledger, top, k);
    }
  }

  /** The gap closes: once new spend reaches what was missing to bring every owner up to the highest
      initial spend, any two recorded spends differ by at most `limit` full-price calls. */
  lemma GapCloses(keys: seq<Owner>, first: seq<Row>, steps: seq<Step>, cap: real, limit: nat, top: real)
    requires keys != [] && cap >= 0.0 && Legal(keys, State(first, multiset{}), steps, cap, limit)
    requires forall i :: 0 <= i < |keys| ==> Spend(first, keys[i]) <= top
    requires NewSpend(keys, first, Execute(keys, State(first, multiset{}), steps, cap, limit).ledger)
             >= Shortfall(keys, first, top)
    ensures var l := Execute(keys, State(first, multiset{}), steps, cap, limit).ledger;
            forall i, j :: 0 <= i < |keys| && 0 <= j < |keys| ==>
                Spend(l, keys[i]) - Spend(l, keys[j]) <= Times(limit, cap)
  {
    Begins(keys, first, cap, limit);
    RunKeeps(keys, first, State(first, multiset{}), steps, cap, limit);
    var e := Execute(keys, State(first, multiset{}), steps, cap, limit);
    var least := Select(keys, e.ledger);
    NewSpendFills(keys, first, e.ledger, top);
    TimesGrows(0, limit, cap);
    forall i | 0 <= i < |keys| ensures Spend(e.ledger, keys[i]) <= Max(top, Least(keys, e.ledger) + Times(limit, cap)) {
      assert Within(keys, first, e, keys[i], cap, limit);
      TimesGrows(0, e.flight[keys[i]], cap);
    }
    if Spend(e.ledger, keys[least]) + Times(limit, cap) < top {
      SomeoneShort(keys, e.ledger, top, least);
    }
  }

  /** The two people who share the bill: new spend as large as the initial difference is enough. */
  lemma TwoOwners(a: Owner, b: Owner, first: seq<Row>, steps: seq<Step>, cap: real, limit: nat)
    requires cap >= 0.0 && Legal([a, b], State(first, multiset{}), steps, cap, limit)
    requires var l := Execute([a, b], State(first, multiset{}), steps, cap, limit).ledger;
             Spend(l, a) + Spend(l, b) - Spend(first, a) - Spend(first, b)
             >= Max(Spend(first, a) - Spend(first, b), Spend(first, b) - Spend(first, a))
    ensures var l := Execute([a, b], State(first, multiset{}), steps, cap, limit).ledger;
            -Times(limit, cap) <= Spend(l, a) - Spend(l, b) <= Times(limit, cap)
  {
    var keys := [a, b];
    var l := Execute(keys, State(first, multiset{}), steps, cap, limit).ledger;
    var top := Max(Spend(first, a), Spend(first, b));
    assert keys[..1] == [a] && [a][..0] == [];
    assert Shortfall([a], first, top) == top - Spend(first, a);
    assert NewSpend([a], first, l) == Spend(l, a) - Spend(first, a);
    GapCloses(keys, first, steps, cap, limit, top);
    assert keys[0] == a && keys[1] == b;
  }

  /** The bound cannot be improved: from an empty ledger, `limit` calls chosen before the first is
      recorded all fall to the same owner. */
  lemma BoundIsReached(keys: seq<Owner>, cap: real, limit: nat) returns (steps: seq<Step>)
    requires |keys| >= 2 && cap >= 0.0 && forall i, j :: 0 <= i < j < |keys| ==> keys[i] != keys[j]
    ensures Legal(keys, State([], multiset{}), steps, cap, limit)
    ensures var l := Execute(keys, State([], multiset{}), steps, cap, limit).ledger;
            Spend(l, keys[0]) - Spend(l, keys[1]) == Times(limit, cap)
  {
    assert IsChoice(keys, [], 0);
    steps := Burst(keys, State([], multiset{}), limit, limit, cap, limit);
  }

  /** `n` choices, all of the same owner, and then `m` full-price ends. */
  lemma {:induction false} Burst(keys: seq<Owner>, s: State, n: nat, m: nat, cap: real, limit: nat)
    returns (steps: seq<Step>)
    requires keys != [] && cap >= 0.0 && n <= m && |s.flight| + n <= limit
    requires n > 0 ==> keys[Select(keys, s.ledger)] == keys[0]
    requires s.flight[keys[0]] + n == m
    ensures Legal(keys, s, steps, cap, limit)
    ensures var l := Execute(keys, s, steps, cap, limit).ledger;
            forall o :: Spend(l, o) == Spend(s.ledger, o) + if o == keys[0] then Times(m, cap) else 0.0
    decreases n, m
  {
    if n > 0 {
      var rest := Burst(keys, After(keys, s, Choose), n - 1, m, cap, limit);
      steps := [Choose] + rest;
      assert steps[1..] == rest;
    } else if m > 0 {
      var t := Finish(keys[0], true, Some(cap));
      forall o { SpendMeans(s.ledger, Row(keys[0], Some(cap)), o); }
      var rest := Burst(keys, After(keys, s, t), 0, m - 1, cap, limit);
      steps := [t] + rest;
      assert steps[1..] == rest;
    } else {
      steps := [];
    }
  }
}
