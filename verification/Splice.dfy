/** Recycled-ticker splicing by threshold in db/load_delistings.py: the securities table, the passes, and
    the budget of 19 passes. */
module Splice {
  import opened Wrappers
  import opened Peeling

  type Rows = map<nat, Identity>

  /** At most one row of a symbol is live: the table's partial unique index. */
  ghost predicate OneLive(rows: Rows) {
    forall x, y :: x in rows && y in rows && x != y && rows[x].symbol == rows[y].symbol ==>
      rows[x].delisted.Some? || rows[y].delisted.Some?
  }

  predicate HasGap(x: Identity, g: int) {
    LatestGap(x.bars, g, |x.bars|) > 0
  }

  // ---- lineage -------------------------------------------------------------------------------

  ghost function RowsAt(rows: Rows, chain: seq<nat>): (r: seq<Identity>)
    requires forall j :: 0 <= j < |chain| ==> chain[j] in rows
    ensures |r| == |chain| && forall j :: 0 <= j < |chain| ==> r[j] == rows[chain[j]]
  {
    seq(|chain|, j requires 0 <= j < |chain| => rows[chain[j]])
  }

  /** One original row's descendants, oldest first; the row itself is always the oldest. */
  ghost predicate Descends(whole: Identity, rows: Rows, chain: seq<nat>, o: nat, g: int) {
    && chain != [] && chain[0] == o
    && (forall j :: 0 <= j < |chain| ==> chain[j] in rows)
    && (forall j, k :: 0 <= j < k < |chain| ==> chain[j] != chain[k])
    && Pieces(whole, RowsAt(rows, chain), g)
  }

  ghost predicate Owned(owner: map<nat, nat>, chain: seq<nat>, o: nat) {
    forall j :: 0 <= j < |chain| ==> chain[j] in owner && owner[chain[j]] == o
  }

  /** The descendants of each original row, and the original row each row descends from. */
  datatype Lines = Lines(chains: map<nat, seq<nat>>, owner: map<nat, nat>)

  /** Every row of the table descends from exactly one original row, and each original row's bars,
      symbol, delisting and actions are all accounted for by its descendants. */
  ghost predicate Lineage(was: Rows, rows: Rows, lines: Lines, g: int) {
    && lines.chains.Keys == was.Keys && lines.owner.Keys == rows.Keys
    && (forall o :: o in was ==>
          Descends(was[o], rows, lines.chains[o], o, g) && Owned(lines.owner, lines.chains[o], o))
    && (forall x :: x in rows ==> lines.owner[x] in was && x in lines.chains[lines.owner[x]])
  }

  lemma FreshLineage(was: Rows, g: int) returns (lines: Lines)
    ensures Lineage(was, was, lines, g)
  {
    hide Pieces;
    lines := Lines(map o | o in was :: [o], map o | o in was :: o);
    forall o | o in was ensures Descends(was[o], was, lines.chains[o], o, g) {
      Untouched(was[o], g);
      assert RowsAt(was, [o]) == [was[o]];
    }
  }

  function Spliced(rows: Rows, o: nat, i: nat, successor: nat): Rows
    requires o in rows && 0 < i < |rows[o].bars|
  {
    rows[o := Older(rows[o], i)][successor := Newer(rows[o], i)]
  }

  lemma ChainSpliced(whole: Identity, rows: Rows, chain: seq<nat>, o: nat, g: int, i: nat, successor: nat)
    requires Descends(whole, rows, chain, o, g) && successor !in rows
    requires 0 < i < |rows[o].bars| && i == LatestGap(rows[o].bars, g, |rows[o].bars|)
    ensures Descends(whole, Spliced(rows, o, i, successor), [o, successor] + chain[1..], o, g)
  {
    hide Pieces;
    var pieces := RowsAt(rows, chain);
    var rows' := Spliced(rows, o, i, successor);
    var chain' := [o, successor] + chain[1..];
    PeelKeeps(whole, pieces, g, i);
    forall j | 0 <= j < |chain'|
      ensures chain'[j] in rows' && rows'[chain'[j]] == Peeled(pieces, i)[j]
      ensures j > 1 ==> chain'[j] == chain[j - 1]
    {
      if j >= 2 { assert chain'[j] == chain[j - 1] && Peeled(pieces, i)[j] == pieces[j - 1]; }
    }
    assert RowsAt(rows', chain') == Peeled(pieces, i);
  }

  lemma ChainUntouched(whole: Identity, rows: Rows, chain: seq<nat>, p: nat, g: int, o: nat, i: nat, successor: nat)
    requires Descends(whole, rows, chain, p, g) && successor !in rows && o in rows && 0 < i < |rows[o].bars|
    requires forall j :: 0 <= j < |chain| ==> chain[j] != o
    ensures Descends(whole, Spliced(rows, o, i, successor), chain, p, g)
  {
    hide Pieces;
    assert RowsAt(Spliced(rows, o, i, successor), chain) == RowsAt(rows, chain);
  }

  ghost function LinesAfter(lines: Lines, o: nat, successor: nat): Lines
    requires o in lines.chains && lines.chains[o] != []
  {
    Lines(lines.chains[o := [o, successor] + lines.chains[o][1..]], lines.owner[successor := o])
  }

  lemma ChainKeeps(was: Rows, rows: Rows, lines: Lines, g: int, o: nat, i: nat, successor: nat, p: nat)
    requires Lineage(was, rows, lines, g) && o in was && p in was && successor !in rows && lines.chains[o] != []
    requires o in rows && 0 < i < |rows[o].bars| && i == LatestGap(rows[o].bars, g, |rows[o].bars|)
    ensures var after := LinesAfter(lines, o, successor);
            Descends(was[p], Spliced(rows, o, i, successor), after.chains[p], p, g)
                && Owned(after.owner, after.chains[p], p)
  {
    hide Pieces, Peeling.LatestGap, Spliced;
    var chain := lines.chains[p];
    assert Descends(was[p], rows, chain, p, g) && Owned(lines.owner, chain, p);
    OwnedKeeps(lines.owner, rows, chain, p, o, successor);
    if p == o {
      hide Owned;
      ChainSpliced(was[o], rows, chain, o, g, i, successor);
    } else {
      assert Owned(lines.owner, lines.chains[o], o) && Descends(was[o], rows, lines.chains[o], o, g);
      assert lines.owner[lines.chains[o][0]] == o;
      ChainUntouched(was[p], rows, chain, p, g, o, i, successor);
    }
  }

  lemma OwnedKeeps(owner: map<nat, nat>, rows: Rows, chain: seq<nat>, p: nat, o: nat, successor: nat)
    requires Owned(owner, chain, p) && owner.Keys == rows.Keys && successor !in rows && chain != [] && chain[0] == p
    ensures Owned(owner[successor := o], if p == o then [o, successor] + chain[1..] else chain, p)
  {
    if p == o {
      var longer := [o, successor] + chain[1..];
      forall j | 0 <= j < |longer| ensures longer[j] in owner[successor := o] && owner[successor := o][longer[j]] == o {
        if j > 1 { assert longer[j] == chain[j - 1]; }
      }
    }
  }

  lemma OwnerKeeps(was: Rows, rows: Rows, lines: Lines, g: int, o: nat, successor: nat, x: nat)
    requires Lineage(was, rows, lines, g) && o in was && successor !in rows && (x in rows || x == successor)
    requires lines.chains[o] != []
    ensures var after := LinesAfter(lines, o, successor);
            x in after.owner && after.owner[x] in was && x in after.chains[after.owner[x]]
  {
    hide Descends;
    var chain := lines.chains[o];
    var longer := [o, successor] + chain[1..];
    if x == successor {
      assert longer[1] == x;
    } else if lines.owner[x] == o {
      var j :| 0 <= j < |chain| && chain[j] == x;
      if j == 0 {
        assert Descends(was[o], rows, chain, o, g);
        HeadIs(was[o], rows, chain, o, g);
        assert longer[0] == x;
      }
      if j > 0 { assert longer[j + 1] == x; }
    }
  }

  lemma HeadIs(whole: Identity, rows: Rows, chain: seq<nat>, o: nat, g: int)
    requires Descends(whole, rows, chain, o, g)
    ensures chain != [] && chain[0] == o
  {
  }

  /** One splice at an original row's latest gap keeps the whole lineage. */
  lemma SpliceKeeps(was: Rows, rows: Rows, lines: Lines, g: int, o: nat, i: nat, successor: nat)
    requires Lineage(was, rows, lines, g) && o in was && successor !in rows
    requires o in rows && 0 < i < |rows[o].bars| && i == LatestGap(rows[o].bars, g, |rows[o].bars|)
    ensures o in lines.chains && lines.chains[o] != []
    ensures Lineage(was, Spliced(rows, o, i, successor), LinesAfter(lines, o, successor), g)
  {
    hide Descends, Owned, Peeling.LatestGap;
    HeadIs(was[o], rows, lines.chains[o], o, g);
    forall p | p in was
      ensures var after := LinesAfter(lines, o, successor);
              Descends(was[p], Spliced(rows, o, i, successor), after.chains[p], p, g)
                  && Owned(after.owner, after.chains[p], p)
    {
      ChainKeeps(was, rows, lines, g, o, i, successor, p);
    }
    forall x | x in rows || x == successor
      ensures var after := LinesAfter(lines, o, successor);
              x in after.owner && after.owner[x] in was && x in after.chains[after.owner[x]]
    {
      OwnerKeeps(was, rows, lines, g, o, successor, x);
    }
  }

  /** Only original rows can still have an over-long gap. */
  lemma GapsOnlyAtHeads(was: Rows, rows: Rows, lines: Lines, g: int, x: nat)
    requires Lineage(was, rows, lines, g) && x in rows && HasGap(rows[x], g)
    ensures x in was && rows[x].symbol == was[x].symbol
  {
    var o := lines.owner[x];
    var chain := lines.chains[o];
    assert Descends(was[o], rows, chain, o, g);
    var j :| 0 <= j < |chain| && chain[j] == x;
    GapFreeTail(was[o], RowsAt(rows, chain), g, j);
  }

  lemma GapFreeTail(whole: Identity, pieces: seq<Identity>, g: int, j: nat)
    requires Pieces(whole, pieces, g) && j < |pieces| && HasGap(pieces[j], g)
    ensures j == 0 && pieces[0].symbol == whole.symbol
  {
    var i := LatestGap(pieces[j].bars, g, |pieces[j].bars|);
    assert GapAt(pieces[j].bars, g, i);
  }

  /** THE RESULT for one original row whose oldest piece is gap-free: its descendants hold exactly the
      maximal runs of its bars; the newest one, and it alone, keeps the delisting and every action. */
  lemma SplicedIntoRuns(was: Rows, rows: Rows, lines: Lines, g: int, o: nat)
    requires Lineage(was, rows, lines, g) && o in was && was[o].bars != []
    requires o in rows ==> GapFree(rows[o].bars, g)
    ensures var chain := lines.chains[o];
            && chain != [] && (forall j :: 0 <= j < |chain| ==> chain[j] in rows)
            && MaximalRuns(RunsOf(RowsAt(rows, chain)), was[o].bars, g)
            && rows[chain[|chain| - 1]].delisted == was[o].delisted
            && rows[chain[|chain| - 1]].actions == was[o].actions
            && forall j :: 0 <= j < |chain| - 1 ==> rows[chain[j]].actions == {} && rows[chain[j]].delisted.Some?
  {
    var chain := lines.chains[o];
    assert Descends(was[o], rows, chain, o, g);
    var pieces := RowsAt(rows, chain);
    FullyPeeled(was[o], pieces, g);
    OldPieces(was[o], pieces, g);
    hide Pieces, MaximalRuns, RunsOf;
    forall j | 0 <= j < |chain| - 1 ensures rows[chain[j]].actions == {} && rows[chain[j]].delisted.Some? {
      assert pieces[j] == rows[chain[j]];
    }
  }

  lemma OldPieces(whole: Identity, pieces: seq<Identity>, g: int)
    requires Pieces(whole, pieces, g)
    ensures pieces != []
    ensures pieces[|pieces| - 1].delisted == whole.delisted && pieces[|pieces| - 1].actions == whole.actions
    ensures forall j :: 0 <= j < |pieces| - 1 ==> pieces[j].actions == {} && pieces[j].delisted.Some?
  {
    forall j | 0 <= j < |pieces| - 1 ensures pieces[j].delisted.Some? {
      assert Parted(pieces[j + 1 - 1], pieces[j + 1], g);
    }
  }

  // ---- the passes ----------------------------------------------------------------------------

  const PASSES: nat := 19

  ghost function Left(gaps: nat, passes: nat): nat {
    if gaps <= passes then 0 else gaps - passes
  }

  /** Each row with an over-long gap whose symbol has not been skipped, once. */
  ghost predicate IsFound(rows: Rows, skipped: set<Symbol>, g: int, found: seq<nat>) {
    && (forall x :: x in found <==> x in rows && HasGap(rows[x], g) && rows[x].symbol !in skipped)
    && (forall j, k :: 0 <= j < k < |found| ==> found[j] != found[k])
  }

  /** After n passes each original row of an unskipped symbol has lost n of its over-long gaps. */
  ghost predicate Progress(was: Rows, rows: Rows, skipped: set<Symbol>, g: int, n: nat) {
    forall o :: o in was && was[o].symbol !in skipped ==>
      o in rows && Gaps(rows[o].bars, g) == Left(Gaps(was[o].bars, g), n)
  }

  /** Part-way through pass n + 1, with `todo` still to be spliced. */
  ghost predicate InPass(was: Rows, rows: Rows, skipped: set<Symbol>, g: int, n: nat, todo: seq<nat>) {
    && (forall j :: 0 <= j < |todo| ==> todo[j] in was && todo[j] in rows && HasGap(rows[todo[j]], g))
    && (forall j, k :: 0 <= j < k < |todo| ==> todo[j] != todo[k])
    && (forall o :: o in was && was[o].symbol !in skipped ==>
          o in rows && Gaps(rows[o].bars, g) == Left(Gaps(was[o].bars, g), if o in todo then n else n + 1))
  }

  lemma HasGapMeans(x: Identity, g: int)
    ensures HasGap(x, g) <==> Gaps(x.bars, g) > 0
    ensures HasGap(x, g) <==> !GapFree(x.bars, g)
  {
    NoGapsNone(x.bars, g);
    var i := LatestGap(x.bars, g, |x.bars|);
    if i > 0 { assert GapAt(x.bars, g, i); }
  }

  lemma PassStarts(was: Rows, rows: Rows, lines: Lines, skipped: set<Symbol>, g: int, n: nat, todo: seq<nat>)
    requires Lineage(was, rows, lines, g) && Progress(was, rows, skipped, g, n)
    requires IsFound(rows, skipped, g, todo)
    ensures InPass(was, rows, skipped, g, n, todo)
  {
    hide Lineage, HasGap;
    forall j | 0 <= j < |todo| ensures todo[j] in was && todo[j] in rows && HasGap(rows[todo[j]], g) {
      assert todo[j] in todo;
      GapsOnlyAtHeads(was, rows, lines, g, todo[j]);
    }
    forall o | o in was && was[o].symbol !in skipped && o !in todo
      ensures Gaps(rows[o].bars, g) == Left(Gaps(was[o].bars, g), n + 1)
    {
      HasGapMeans(rows[o], g);
      SameSymbol(was, rows, lines, g, o);
    }
  }

  lemma SameSymbol(was: Rows, rows: Rows, lines: Lines, g: int, o: nat)
    requires Lineage(was, rows, lines, g) && o in was
    ensures o in rows && rows[o].symbol == was[o].symbol
  {
    assert Descends(was[o], rows, lines.chains[o], o, g);
    assert RowsAt(rows, lines.chains[o])[0] == rows[o];
  }

  lemma PassSplices(was: Rows, rows: Rows, skipped: set<Symbol>, g: int, n: nat, todo: seq<nat>, i: nat, successor: nat)
    requires InPass(was, rows, skipped, g, n, todo) && todo != [] && successor !in rows
    requires i == LatestGap(rows[todo[0]].bars, g, |rows[todo[0]].bars|) && 0 < i < |rows[todo[0]].bars|
    ensures InPass(was, Spliced(rows, todo[0], i, successor), skipped, g, n, todo[1..])
  {
    hide Gaps, Peeling.LatestGap;
    var o, rows' := todo[0], Spliced(rows, todo[0], i, successor);
    PeelRemovesOne(rows[o], g, i);
    assert o !in todo[1..];
    forall j | 0 <= j < |todo[1..]|
      ensures todo[1..][j] in was && todo[1..][j] in rows' && HasGap(rows'[todo[1..][j]], g)
    {
      assert todo[1..][j] == todo[j + 1] && HasGap(rows[todo[j + 1]], g);
    }
  }

  lemma PassSkips(was: Rows, rows: Rows, skipped: set<Symbol>, g: int, n: nat, todo: seq<nat>, symbol: Symbol)
    requires InPass(was, rows, skipped, g, n, todo) && todo != [] && was[todo[0]].symbol == symbol
    ensures InPass(was, rows, skipped + {symbol}, g, n, todo[1..])
  {
    hide HasGap;
    forall o | o in was && was[o].symbol !in skipped + {symbol} ensures o in todo <==> o in todo[1..] {
      assert o != todo[0];
    }
  }

  lemma OneLiveKept(rows: Rows, o: nat, i: nat, successor: nat)
    requires OneLive(rows) && o in rows && 0 < i < |rows[o].bars| && successor !in rows
    ensures OneLive(Spliced(rows, o, i, successor))
  {
  }

  // ---- how often a row's turn comes ----------------------------------------------------------

  /** The symbols with a gapped row that may not be spliced: the first pass skips them for all the others. */
  ghost function BlockedSymbols(was: Rows, blocked: set<nat>, g: int): set<Symbol> {
    set o | o in was && o in blocked && HasGap(was[o], g) :: was[o].symbol
  }

  ghost function Turns(was: Rows, blocked: set<nat>, g: int, o: nat): nat
    requires o in was
  {
    if was[o].symbol in BlockedSymbols(was, blocked, g) then 1 else PASSES
  }

  /** Every row can be spliced as often as its turn comes. */
  ghost predicate Completes(was: Rows, blocked: set<nat>, g: int) {
    forall o :: o in was && o !in blocked ==> Peelable(was[o], g, Turns(was, blocked, g, o))
  }

  /** That is a condition on the table the command starts from: at each gap a row's turn will come to, the row
      was first seen by the day after the gap's start and delisted, if at all, no earlier than its end. */
  lemma CompletesIff(was: Rows, blocked: set<nat>, g: int)
    requires forall o :: o in was ==> Increasing(was[o].bars)
    ensures Completes(was, blocked, g) <==>
              forall o :: o in was && o !in blocked ==> Splittable(was[o], g, Turns(was, blocked, g, o))
  {
    hide Peelable, Splittable, Turns;
    forall o | o in was
      ensures Peelable(was[o], g, Turns(was, blocked, g, o)) <==> Splittable(was[o], g, Turns(was, blocked, g, o))
    {
      PeelableIff(was[o], g, Turns(was, blocked, g, o));
    }
  }

  /** Two tables of one legal row that end the command in a database error: bars from before the first
      sighting, and bars from after the delisting. */
  lemma TablesThatFail(symbol: Symbol)
    ensures var early := map[0 := Identity(symbol, Some(500), None, [1, 500], {})];
            OneLive(early) && AllLegal(early) && !Completes(early, {}, 180)
    ensures var late := map[0 := Identity(symbol, Some(1), Some(3), [1, 2, 500], {})];
            OneLive(late) && AllLegal(late) && !Completes(late, {}, 180)
  {
    UnstorableRows(symbol, 1);
    UnstorableRows(symbol, PASSES);
    var early := map[0 := Identity(symbol, Some(500), None, [1, 500], {})];
    var late := map[0 := Identity(symbol, Some(1), Some(3), [1, 2, 500], {})];
    assert early[0].symbol == symbol && late[0].symbol == symbol;
    hide Peelable;
  }

  /** What is still owed of that: after n passes, and within the next one with `todo` still to come. */
  ghost predicate Owes(was: Rows, rows: Rows, blocked: set<nat>, g: int, n: nat, todo: seq<nat>) {
    forall o :: o in was && o !in blocked ==>
      o in rows && (Peelable(was[o], g, Turns(was, blocked, g, o))
                    <==> Peelable(rows[o], g, Left(Turns(was, blocked, g, o), if o in todo then n else n + 1)))
  }

  /** The first pass collects the blocked symbols; later passes have none of them. */
  ghost predicate Skips(was: Rows, rows: Rows, blocked: set<nat>, skipped: set<Symbol>, g: int, n: nat,
                        todo: seq<nat>) {
    && (forall j :: 0 <= j < |todo| ==>
          todo[j] in was && todo[j] in rows && rows[todo[j]].symbol == was[todo[j]].symbol)
    && skipped <= BlockedSymbols(was, blocked, g)
    && (n == 0 ==> (forall j :: 0 <= j < |todo| ==> rows[todo[j]] == was[todo[j]])
                   && forall o :: o in was && o in blocked && HasGap(was[o], g) ==>
                      o in todo || was[o].symbol in skipped)
    && (n > 0 ==> skipped == BlockedSymbols(was, blocked, g)
                  && forall j :: 0 <= j < |todo| ==> was[todo[j]].symbol !in skipped)
  }

  /** Where a pass stands with both. */
  ghost predicate Turned(was: Rows, rows: Rows, blocked: set<nat>, skipped: set<Symbol>, g: int, n: nat,
                         todo: seq<nat>) {
    Owes(was, rows, blocked, g, n, todo) && Skips(was, rows, blocked, skipped, g, n, todo)
  }

  /** Between passes. */
  ghost predicate Paused(was: Rows, rows: Rows, blocked: set<nat>, skipped: set<Symbol>, g: int, n: nat) {
    && (forall o :: o in was && o !in blocked ==>
          o in rows && (Peelable(was[o], g, Turns(was, blocked, g, o))
                        <==> Peelable(rows[o], g, Left(Turns(was, blocked, g, o), n))))
    && (if n == 0 then rows == was && skipped == {} else skipped == BlockedSymbols(was, blocked, g))
  }

  lemma TurnBegins(was: Rows, rows: Rows, blocked: set<nat>, skipped: set<Symbol>, g: int, n: nat, todo: seq<nat>)
    requires Paused(was, rows, blocked, skipped, g, n)
    requires IsFound(rows, skipped, g, todo)
    requires forall j :: 0 <= j < |todo| ==> todo[j] in was
    requires forall o :: o in was && o in rows ==> rows[o].symbol == was[o].symbol
    ensures Turned(was, rows, blocked, skipped, g, n, todo)
  {
    hide HasGap, BlockedSymbols;
    forall j | 0 <= j < |todo| ensures todo[j] in rows && rows[todo[j]].symbol !in skipped { assert todo[j] in todo; }
    forall o | o in was && o !in blocked && o !in todo
      ensures Peelable(rows[o], g, Left(Turns(was, blocked, g, o), n))
              <==> Peelable(rows[o], g, Left(Turns(was, blocked, g, o), n + 1))
    {
      if !HasGap(rows[o], g) { NoGapPeelable(rows[o], g); }
    }
    hide Peelable;
  }

  lemma NoGapPeelable(x: Identity, g: int)
    requires !HasGap(x, g)
    ensures forall n: nat :: Peelable(x, g, n)
  {
  }

  /** A splice that passes uses one turn up. */
  lemma TurnSpliced(was: Rows, rows: Rows, blocked: set<nat>, skipped: set<Symbol>, g: int, n: nat, todo: seq<nat>,
                    i: nat, successor: nat)
    requires Turned(was, rows, blocked, skipped, g, n, todo) && todo != [] && todo[0] !in blocked && successor !in rows
    requires InPass(was, rows, skipped, g, n, todo)
    requires n < PASSES && i == LatestGap(rows[todo[0]].bars, g, |rows[todo[0]].bars|) && 0 < i < |rows[todo[0]].bars|
    requires Storable(rows[todo[0]], i)
    ensures Turned(was, Spliced(rows, todo[0], i, successor), blocked, skipped, g, n, todo[1..])
  {
    hide HasGap, BlockedSymbols, Storable, Peeling.LatestGap;
    var o, x := todo[0], Spliced(rows, todo[0], i, successor);
    OneTurn(was, rows, blocked, skipped, g, n, todo, i);
    hide Peelable, Turns, Older, Newer;
    AllTheRest(todo);
    forall p | p in was && p in rows && p != o ensures x[p] == rows[p] && (p in todo <==> p in todo[1..]) {}
    assert Owes(was, x, blocked, g, n, todo[1..]);
    assert Skips(was, x, blocked, skipped, g, n, todo[1..]);
  }

  lemma AllTheRest(todo: seq<nat>)
    requires todo != [] && forall j, k :: 0 <= j < k < |todo| ==> todo[j] != todo[k]
    ensures todo[0] !in todo[1..] && forall j :: 0 <= j < |todo| - 1 ==> todo[1..][j] == todo[j + 1] != todo[0]
    ensures forall p :: p != todo[0] ==> (p in todo <==> p in todo[1..])
  {
    assert todo == [todo[0]] + todo[1..];
  }

  lemma OneTurn(was: Rows, rows: Rows, blocked: set<nat>, skipped: set<Symbol>, g: int, n: nat, todo: seq<nat>, i: nat)
    requires Turned(was, rows, blocked, skipped, g, n, todo) && todo != [] && todo[0] !in blocked && n < PASSES
    requires todo[0] in rows && i == LatestGap(rows[todo[0]].bars, g, |rows[todo[0]].bars|)
             && 0 < i < |rows[todo[0]].bars|
    ensures todo[0] in was
    ensures Peelable(was[todo[0]], g, Turns(was, blocked, g, todo[0]))
            <==> Storable(rows[todo[0]], i)
                 && Peelable(Older(rows[todo[0]], i), g, Left(Turns(was, blocked, g, todo[0]), n + 1))
  {
    hide HasGap, BlockedSymbols, Storable;
    var o := todo[0];
    assert o in todo;
    var left := Left(Turns(was, blocked, g, o), n);
    assert left > 0;
  }

  lemma TurnSkipped(was: Rows, rows: Rows, blocked: set<nat>, skipped: set<Symbol>, g: int, n: nat, todo: seq<nat>)
    requires Turned(was, rows, blocked, skipped, g, n, todo) && todo != [] && todo[0] in blocked
    requires todo[0] in rows && HasGap(rows[todo[0]], g)
    requires n > 0 ==> todo[0] in was && HasGap(was[todo[0]], g)
    ensures Turned(was, rows, blocked, skipped + {rows[todo[0]].symbol}, g, n, todo[1..])
  {
    hide HasGap, Peelable;
    var o := todo[0];
    forall p | p in was && p != o ensures p in todo <==> p in todo[1..] {}
    assert was[o].symbol in BlockedSymbols(was, blocked, g);
    hide BlockedSymbols;
  }

  lemma TurnEnds(was: Rows, rows: Rows, blocked: set<nat>, skipped: set<Symbol>, g: int, n: nat, todo: seq<nat>)
    requires Turned(was, rows, blocked, skipped, g, n, todo) && todo == []
    ensures Paused(was, rows, blocked, skipped, g, n + 1)
  {
    hide HasGap, Peelable;
    forall s | s in BlockedSymbols(was, blocked, g) ensures s in skipped {
      var o :| o in was && o in blocked && HasGap(was[o], g) && was[o].symbol == s;
    }
  }

  /** A splice that fails the CHECK shows that not every row could be spliced as often as its turn comes. */
  lemma TurnFails(was: Rows, rows: Rows, blocked: set<nat>, skipped: set<Symbol>, g: int, n: nat, todo: seq<nat>,
                  i: nat)
    requires Turned(was, rows, blocked, skipped, g, n, todo) && todo != [] && todo[0] !in blocked && n < PASSES
    requires todo[0] in rows && i == LatestGap(rows[todo[0]].bars, g, |rows[todo[0]].bars|)
             && 0 < i < |rows[todo[0]].bars|
    requires !Storable(rows[todo[0]], i)
    ensures !Completes(was, blocked, g)
  {
    OneTurn(was, rows, blocked, skipped, g, n, todo, i);
    hide Peelable, Turned;
  }

  /** How the command ends. */
  datatype Ending = Complete | Exhausted | SqlError

  datatype Outcome = Outcome(total: nat, skipped: set<Symbol>, ending: Ending)

  /** One splice: done, refused for scored history, or failed on the CHECK. */
  datatype Splicing = Done | Refused | Failed

  class SecurityMaster {
    var rows: Rows
    var nextId: nat
    /** Rows that scored history refers to: splicing one is refused. */
    const blocked: set<nat>

    constructor (rows: Rows, nextId: nat, blocked: set<nat>)
      requires OneLive(rows) && AllLegal(rows) && forall x :: x in rows ==> x < nextId
      ensures Valid() && this.rows == rows && this.blocked == blocked
    {
      this.rows, this.nextId, this.blocked := rows, nextId, blocked;
    }

    /** The table's constraints. */
    ghost predicate Valid()
      reads this
    {
      OneLive(rows) && AllLegal(rows) && forall x :: x in rows ==> x < nextId
    }

    /** One transaction: all of it, or a refusal or a failure that changes nothing. */
    method SpliceOne(o: nat, i: nat) returns (how: Splicing)
      requires Valid() && o in rows && 0 < i < |rows[o].bars|
      modifies this
      ensures Valid()
      ensures how == Refused <==> o in blocked
      ensures how == Failed <==> o !in blocked && !Storable(old(rows)[o], i)
      ensures how == Done ==> rows == Spliced(old(rows), o, i, old(nextId)) && nextId == old(nextId) + 1
      ensures how != Done ==> rows == old(rows) && nextId == old(nextId)
    {
      if o in blocked { return Refused; }
      OneLiveKept(rows, o, i, nextId);
      var whole := rows[o];
      if !Legal(Older(whole, i)) { return Failed; }
      if !Legal(Newer(whole, i)) { return Failed; }
      rows := rows[o := Older(whole, i)];
      rows := rows[nextId := Newer(whole, i)];
      nextId := nextId + 1;
      return Done;
    }

    method FindGaps(g: int, skipped: set<Symbol>) returns (todo: seq<nat>)
      ensures IsFound(rows, skipped, g, todo)
    {
      todo := [];
      var rest := rows.Keys;
      while rest != {}
        invariant rest <= rows.Keys
        invariant forall x :: x in todo <==> x in rows && x !in rest && HasGap(rows[x], g) && rows[x].symbol !in skipped
        invariant forall j, k :: 0 <= j < k < |todo| ==> todo[j] != todo[k]
        decreases |rest|
      {
        var x :| x in rest;
        if HasGap(rows[x], g) && rows[x].symbol !in skipped {
          assert x !in todo;
          todo := todo + [x];
        }
        rest := rest - {x};
      }
    }

    /** One pass over the gaps found at its start, which a failure ends at once. */
    method Pass(g: int, skipped: set<Symbol>, found: seq<nat>, ghost was: Rows, ghost lines: Lines, ghost n: nat)
      returns (total: nat, skipped': set<Symbol>, failed: bool, ghost lines': Lines)
      requires Valid() && Lineage(was, rows, lines, g) && InPass(was, rows, skipped, g, n, found)
      requires n < PASSES && Turned(was, rows, blocked, skipped, g, n, found)
      modifies this
      ensures Valid() && Lineage(was, rows, lines', g) && |rows| == |old(rows)| + total
      ensures skipped' <= BlockedSymbols(was, blocked, g)
      ensures failed ==> !Completes(was, blocked, g)
      ensures !failed ==> Progress(was, rows, skipped', g, n + 1) && Paused(was, rows, blocked, skipped', g, n + 1)
    {
      hide Lineage, InPass, Progress, OneLive, Spliced, Peeling.LatestGap, Turned, Paused, Completes, Storable,
           AllLegal;
      total, skipped', lines' := 0, skipped, lines;
      var k := 0;
      assert found[0..] == found;
      while k < |found|
        invariant 0 <= k <= |found| && Valid() && |rows| == |old(rows)| + total
        invariant Lineage(was, rows, lines', g) && InPass(was, rows, skipped', g, n, found[k..])
        invariant Turned(was, rows, blocked, skipped', g, n, found[k..])
      {
        var o := found[k];
        Pending(was, rows, skipped', g, n, found[k..]);
        SameSymbol(was, rows, lines', g, o);
        var i := LatestGap(rows[o].bars, g, |rows[o].bars|);
        ghost var before, successor := rows, nextId;
        assert found[k..][1..] == found[k + 1..] && found[k..][0] == o;
        var how := SpliceOne(o, i);
        if how == Failed {
          TurnFails(was, rows, blocked, skipped', g, n, found[k..], i);
          SkippedAreBlocked(was, rows, blocked, skipped', g, n, found[k..]);
          return total, skipped', true, lines';
        }
        if how == Done {
          SpliceKeeps(was, before, lines', g, o, i, successor);
          PassSplices(was, before, skipped', g, n, found[k..], i, successor);
          TurnSpliced(was, before, blocked, skipped', g, n, found[k..], i, successor);
          OneRowMore(before, o, i, successor);
          lines' := LinesAfter(lines', o, successor);
          total := total + 1;
        } else {
          GappedBefore(was, rows, blocked, skipped', g, n, found[k..]);
          PassSkips(was, rows, skipped', g, n, found[k..], rows[o].symbol);
          TurnSkipped(was, rows, blocked, skipped', g, n, found[k..]);
          skipped' := skipped' + {rows[o].symbol};
        }
        k := k + 1;
      }
      PassEnds(was, rows, skipped', g, n, found[k..]);
      TurnEnds(was, rows, blocked, skipped', g, n, found[k..]);
      SkippedAreBlocked(was, rows, blocked, skipped', g, n, found[k..]);
      failed := false;
    }

    /** The threshold mode. Every original row keeps its lineage, whatever happens. The command ends in a
        database error exactly when some row cannot be spliced as often as its turn comes. Otherwise the
        skipped symbols are those with a blocked gapped row; all other rows end gap-free unless the pass
        budget runs out, which happens exactly when one of them had more than 19 over-long gaps. */
    method SpliceByThreshold(g: int) returns (outcome: Outcome, ghost lines: Lines)
      requires Valid()
      modifies this
      ensures Valid() && Lineage(old(rows), rows, lines, g) && |rows| == |old(rows)| + outcome.total
      ensures outcome.ending == SqlError <==> !Completes(old(rows), blocked, g)
      ensures outcome.skipped <= BlockedSymbols(old(rows), blocked, g)
      ensures outcome.ending != SqlError ==>
                && outcome.skipped == BlockedSymbols(old(rows), blocked, g)
                && (outcome.ending == Exhausted <==>
                      exists o :: o in old(rows) && old(rows)[o].symbol !in outcome.skipped
                          && Gaps(old(rows)[o].bars, g) > 19)
      ensures outcome.ending == Complete ==>
                forall x :: x in rows && rows[x].symbol !in outcome.skipped ==> GapFree(rows[x].bars, g)
    {
      hide Lineage, InPass, Progress, OneLive, Gaps, Turned, Paused, Completes, BlockedSymbols, AllLegal, IsFound,
           GapFree;
      ghost var was := rows;
      lines := FreshLineage(rows, g);
      var total, skipped: set<Symbol> := 0, {};
      NoPassYet(was, blocked, g);
      var round := 1;
      var found := FindGaps(g, skipped);
      while round < 20 && found != []
        invariant 1 <= round <= 20 && Valid() && |rows| == |was| + total
        invariant Lineage(was, rows, lines, g) && Progress(was, rows, skipped, g, round - 1)
        invariant Paused(was, rows, blocked, skipped, g, round - 1)
        invariant IsFound(rows, skipped, g, found)
      {
        PassStarts(was, rows, lines, skipped, g, round - 1, found);
        OriginalsFound(was, rows, lines, skipped, g, found);
        TurnBegins(was, rows, blocked, skipped, g, round - 1, found);
        var done, skippedNow, failed, linesNow := Pass(g, skipped, found, was, lines, round - 1);
        total, skipped, lines := total + done, skippedNow, linesNow;
        if failed { return Outcome(total, skipped, SqlError), lines; }
        found := FindGaps(g, skipped);
        round := round + 1;
      }
      Finished(was, rows, lines, skipped, g, round - 1, found);
      AllTurnsHad(was, rows, lines, blocked, skipped, g, round - 1, found);
      outcome := Outcome(total, skipped, if found == [] then Complete else Exhausted);
    }
  }

  ghost predicate AllLegal(rows: Rows) {
    forall x :: x in rows ==> Legal(rows[x])
  }

  lemma SkippedAreBlocked(was: Rows, rows: Rows, blocked: set<nat>, skipped: set<Symbol>, g: int, n: nat,
                          todo: seq<nat>)
    requires Turned(was, rows, blocked, skipped, g, n, todo)
    ensures skipped <= BlockedSymbols(was, blocked, g)
  {
    hide BlockedSymbols, Peelable;
  }

  lemma OneRowMore(rows: Rows, o: nat, i: nat, successor: nat)
    requires o in rows && 0 < i < |rows[o].bars| && successor !in rows
    ensures |Spliced(rows, o, i, successor)| == |rows| + 1
  {
    assert Spliced(rows, o, i, successor).Keys == rows.Keys + {successor};
    assert |rows.Keys + {successor}| == |rows.Keys| + 1;
  }

  /** A row about to be skipped after the first pass had a gap from the start. */
  lemma GappedBefore(was: Rows, rows: Rows, blocked: set<nat>, skipped: set<Symbol>, g: int, n: nat, todo: seq<nat>)
    requires InPass(was, rows, skipped, g, n, todo) && Turned(was, rows, blocked, skipped, g, n, todo) && todo != []
    ensures todo[0] in was && todo[0] in rows && was[todo[0]].symbol == rows[todo[0]].symbol
    ensures n > 0 ==> HasGap(was[todo[0]], g)
  {
    hide BlockedSymbols, Peelable;
    var o := todo[0];
    if n > 0 {
      assert was[o].symbol !in skipped && o in todo;
      HasGapMeans(rows[o], g);
      HasGapMeans(was[o], g);
    }
  }

  lemma OriginalsFound(was: Rows, rows: Rows, lines: Lines, skipped: set<Symbol>, g: int, found: seq<nat>)
    requires Lineage(was, rows, lines, g) && IsFound(rows, skipped, g, found)
    ensures forall j :: 0 <= j < |found| ==> found[j] in was
    ensures forall o :: o in was && o in rows ==> rows[o].symbol == was[o].symbol
  {
    hide Lineage, HasGap;
    forall j | 0 <= j < |found| ensures found[j] in was {
      assert found[j] in found;
      GapsOnlyAtHeads(was, rows, lines, g, found[j]);
    }
    forall o | o in was && o in rows ensures rows[o].symbol == was[o].symbol { SameSymbol(was, rows, lines, g, o); }
  }

  /** With no gap left to splice, or no pass left, every row has had all its turns. */
  lemma AllTurnsHad(was: Rows, rows: Rows, lines: Lines, blocked: set<nat>, skipped: set<Symbol>, g: int, n: nat,
                    found: seq<nat>)
    requires Lineage(was, rows, lines, g) && Paused(was, rows, blocked, skipped, g, n)
    requires n == PASSES || (n <= PASSES && found == [])
    requires IsFound(rows, skipped, g, found)
    ensures Completes(was, blocked, g) && skipped == BlockedSymbols(was, blocked, g)
  {
    hide Lineage, HasGap;
    forall o | o in was && o !in blocked ensures Peelable(was[o], g, Turns(was, blocked, g, o)) {
      SameSymbol(was, rows, lines, g, o);
      if !HasGap(rows[o], g) { NoGapPeelable(rows[o], g); }
    }
    hide Peelable;
  }

  lemma NoPassYet(was: Rows, blocked: set<nat>, g: int)
    ensures Progress(was, was, {}, g, 0) && Paused(was, was, blocked, {}, g, 0)
  {
  }

  lemma Pending(was: Rows, rows: Rows, skipped: set<Symbol>, g: int, n: nat, todo: seq<nat>)
    requires InPass(was, rows, skipped, g, n, todo) && todo != []
    ensures todo[0] in was && todo[0] in rows && HasGap(rows[todo[0]], g)
  {
  }

  lemma PassEnds(was: Rows, rows: Rows, skipped: set<Symbol>, g: int, n: nat, todo: seq<nat>)
    requires InPass(was, rows, skipped, g, n, todo) && todo == []
    ensures Progress(was, rows, skipped, g, n + 1)
  {
  }

  lemma Finished(was: Rows, rows: Rows, lines: Lines, skipped: set<Symbol>, g: int, n: nat, found: seq<nat>)
    requires Lineage(was, rows, lines, g) && Progress(was, rows, skipped, g, n)
    requires n == PASSES || (n <= PASSES && found == [])
    requires IsFound(rows, skipped, g, found)
    ensures found != [] <==> exists o :: o in was && was[o].symbol !in skipped && Gaps(was[o].bars, g) > PASSES
    ensures found == [] ==> forall x :: x in rows && rows[x].symbol !in skipped ==> GapFree(rows[x].bars, g)
  {
    hide Lineage, HasGap, Gaps, GapFree;
    forall x | x in rows
      ensures HasGap(rows[x], g) <==> Gaps(rows[x].bars, g) > 0
      ensures HasGap(rows[x], g) <==> !GapFree(rows[x].bars, g)
    {
      HasGapMeans(rows[x], g);
    }
    if found != [] {
      var x := found[0];
      assert x in found;
      GapsOnlyAtHeads(was, rows, lines, g, x);
    }
    forall o | o in was ensures o in rows && rows[o].symbol == was[o].symbol {
      SameSymbol(was, rows, lines, g, o);
    }
    if o :| o in was && was[o].symbol !in skipped && Gaps(was[o].bars, g) > PASSES {
      assert HasGap(rows[o], g);
    }
  }
}
