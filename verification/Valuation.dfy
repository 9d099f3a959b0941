/** What a paper portfolio is worth on a day: the semantics of VALUATION_SQL and the cash reconstruction
    of db/mark_portfolios.py. */
module Valuation {
  import opened Wrappers
  import opened Splits

  datatype Exit = Exit(day: int, price: real)

  /** A row of the lot ledger. */
  datatype Lot = Lot(security: nat, entry: int, shares: real, entryPrice: real, exit: Option<Exit>)

  datatype Book = Book(cash: real, lots: seq<Lot>)

  datatype Bar = Bar(security: nat, day: int)

  /** Raw closes and recorded splits. */
  datatype Market = Market(closes: map<Bar, real>, actions: Actions)

  function FactorOf(m: Market, security: nat, after: int, until: int): real {
    Factor(SplitsOf(m.actions, security), after, until)
  }

  /** The ledger's constraint: no exit before the entry. */
  ghost predicate Ordered(l: Lot) {
    l.exit.Some? ==> l.entry <= l.exit.value.day
  }

  function Cost(l: Lot): real {
    l.shares * l.entryPrice
  }

  function Proceeds(l: Lot, m: Market): real {
    match l.exit
    case None => 0.0
    case Some(e) => l.shares * FactorOf(m, l.security, l.entry, e.day) * e.price
  }

  /** A lot exited on a day is already cash on that day. */
  predicate OpenOn(l: Lot, day: int) {
    l.entry <= day && (l.exit.Some? ==> l.exit.value.day > day)
  }

  predicate ExitedAfter(l: Lot, day: int) {
    l.exit.Some? && l.exit.value.day > day
  }

  /** effective shares times the RAW close; 0 where there is no bar, which Priced tells apart. */
  function OpenValue(l: Lot, m: Market, day: int): real {
    var bar := Bar(l.security, day);
    if bar in m.closes then l.shares * FactorOf(m, l.security, l.entry, day) * m.closes[bar] else 0.0
  }

  function Equity(lots: seq<Lot>, m: Market, day: int): real {
    if lots == [] then 0.0
    else
      var l := lots[|lots| - 1];
      Equity(lots[..|lots| - 1], m, day) + (if OpenOn(l, day) then OpenValue(l, m, day) else 0.0)
  }

  /** Every open lot has a bar. */
  predicate Priced(lots: seq<Lot>, m: Market, day: int) {
    forall i :: 0 <= i < |lots| && OpenOn(lots[i], day) ==> Bar(lots[i].security, day) in m.closes
  }

  function EntriesAfter(lots: seq<Lot>, day: int): real {
    if lots == [] then 0.0
    else EntriesAfter(lots[..|lots| - 1], day) + (if lots[|lots| - 1].entry > day then Cost(lots[|lots| - 1]) else 0.0)
  }

  function ExitsAfter(lots: seq<Lot>, m: Market, day: int): real {
    if lots == [] then 0.0
    else
      var l := lots[|lots| - 1];
      ExitsAfter(lots[..|lots| - 1], m, day) + (if ExitedAfter(l, day) then Proceeds(l, m) else 0.0)
  }

  /** The current balance walked back to the day. */
  function CashAt(b: Book, m: Market, day: int): real {
    b.cash + EntriesAfter(b.lots, day) - ExitsAfter(b.lots, m, day)
  }

  /** WHAT A LOT CONTRIBUTES. From its entry up to the day before its exit, its shares times the factor since the
      entry times the raw close of the day, and no day without that close is priced; before the entry its cost is
      still in the cash; after the exit the shares then held times the exit price are in it. */
  lemma OneMoreLot(b: Book, l: Lot, m: Market, day: int)
    ensures var more := Book(b.cash, b.lots + [l]);
            var held := l.entry <= day && (l.exit == None || l.exit.value.day > day);
            var close := Bar(l.security, day);
            && (held && close in m.closes ==>
                  Equity(more.lots, m, day)
                  == Equity(b.lots, m, day)
                     + l.shares * Factor(SplitsOf(m.actions, l.security), l.entry, day) * m.closes[close])
            && (!held ==> Equity(more.lots, m, day) == Equity(b.lots, m, day))
            && (Priced(more.lots, m, day) <==> Priced(b.lots, m, day) && (held ==> close in m.closes))
            && CashAt(more, m, day)
               == CashAt(b, m, day) + (if day < l.entry then l.shares * l.entryPrice else 0.0)
                  - (if l.exit.Some? && day < l.exit.value.day
                     then l.shares * Factor(SplitsOf(m.actions, l.security), l.entry, l.exit.value.day)
                          * l.exit.value.price
                     else 0.0)
  {
    hide Factor, SplitsOf;
    var lots := b.lots + [l];
    assert lots[..|b.lots|] == b.lots;
    assert lots[|b.lots|] == l;
    assert forall i :: 0 <= i < |b.lots| ==> lots[i] == b.lots[i];
  }

  lemma NoLots(cash: real, m: Market, day: int)
    ensures Equity([], m, day) == 0.0 && Priced([], m, day) && CashAt(Book(cash, []), m, day) == cash
  {
  }

  // ---- cash is the forward replay ------------------------------------------------------------

  ghost function BoughtOn(lots: seq<Lot>, day: int): real {
    if lots == [] then 0.0
    else BoughtOn(lots[..|lots| - 1], day) + (if lots[|lots| - 1].entry == day then Cost(lots[|lots| - 1]) else 0.0)
  }

  ghost function SoldOn(lots: seq<Lot>, m: Market, day: int): real {
    if lots == [] then 0.0
    else
      var l := lots[|lots| - 1];
      SoldOn(lots[..|lots| - 1], m, day) + (if l.exit.Some? && l.exit.value.day == day then Proceeds(l, m) else 0.0)
  }

  /** Running the ledger forward from a known balance at the close of day `origin`. */
  ghost function Replay(lots: seq<Lot>, m: Market, origin: int, opening: real, day: int): real
    requires origin <= day
    decreases day - origin
  {
    if day == origin then opening
    else Replay(lots, m, origin, opening, day - 1) - BoughtOn(lots, day) + SoldOn(lots, m, day)
  }

  lemma {:induction false} CashStep(lots: seq<Lot>, m: Market, day: int)
    ensures EntriesAfter(lots, day - 1) == EntriesAfter(lots, day) + BoughtOn(lots, day)
    ensures ExitsAfter(lots, m, day - 1) == ExitsAfter(lots, m, day) + SoldOn(lots, m, day)
    decreases |lots|
  {
    if lots != [] { CashStep(lots[..|lots| - 1], m, day); }
  }

  /** The backward reconstruction and the forward replay differ by the same amount on every day: so
      they agree on all days as soon as they agree on one. */
  lemma {:induction false} CashIsReplay(b: Book, m: Market, origin: int, opening: real, day: int)
    requires origin <= day
    ensures CashAt(b, m, day) - Replay(b.lots, m, origin, opening, day) == CashAt(b, m, origin) - opening
    decreases day - origin
  {
    if origin < day {
      CashIsReplay(b, m, origin, opening, day - 1);
      CashStep(b.lots, m, day);
    }
  }

  // ---- each lot counts once ------------------------------------------------------------------

  datatype Status = Unspent | Open | Settled

  /** On every day a lot is exactly one of these. */
  ghost function StatusOn(l: Lot, day: int): Status {
    if l.entry > day then Unspent else if OpenOn(l, day) then Open else Settled
  }

  ghost function Worth(l: Lot, m: Market, day: int): real {
    match StatusOn(l, day)
    case Unspent => Cost(l)
    case Open => OpenValue(l, m, day)
    case Settled => Proceeds(l, m)
  }

  ghost function TotalWorth(lots: seq<Lot>, m: Market, day: int): real {
    if lots == [] then 0.0 else TotalWorth(lots[..|lots| - 1], m, day) + Worth(lots[|lots| - 1], m, day)
  }

  ghost function AllProceeds(lots: seq<Lot>, m: Market): real {
    if lots == [] then 0.0 else AllProceeds(lots[..|lots| - 1], m) + Proceeds(lots[|lots| - 1], m)
  }

  lemma {:induction false} LotsCountOnce(lots: seq<Lot>, m: Market, day: int)
    requires forall i :: 0 <= i < |lots| ==> Ordered(lots[i])
    ensures Equity(lots, m, day) + EntriesAfter(lots, day) - ExitsAfter(lots, m, day)
            == TotalWorth(lots, m, day) - AllProceeds(lots, m)
    decreases |lots|
  {
    if lots != [] {
      hide Factor, FactorOf, Proceeds, Cost, OpenValue;
      LotsCountOnce(lots[..|lots| - 1], m, day);
      assert Ordered(lots[|lots| - 1]);
      NoProceeds(lots[|lots| - 1], m);
    }
  }

  lemma NoProceeds(l: Lot, m: Market)
    ensures l.exit == None ==> Proceeds(l, m) == 0.0
  {
  }

  /** The value of the book is a constant of the ledger plus, for each lot, exactly one of its unspent
      cost, its open equity or its proceeds. */
  lemma EachLotCountsOnce(b: Book, m: Market, day: int)
    requires forall i :: 0 <= i < |b.lots| ==> Ordered(b.lots[i])
    ensures Equity(b.lots, m, day) + CashAt(b, m, day) == b.cash - AllProceeds(b.lots, m) + TotalWorth(b.lots, m, day)
  {
    LotsCountOnce(b.lots, m, day);
  }

  // ---- a split changes no mark ---------------------------------------------------------------

  /** The same holdings and prices restated for a further split of ratio r on day e: everything dated
      on or after e is on the new share basis. */
  ghost function RestatedLot(l: Lot, security: nat, e: int, r: real): Lot
    requires r > 0.0
  {
    if l.security != security then l
    else
      var exit :=
        if l.exit.Some? && l.exit.value.day >= e then Some(Exit(l.exit.value.day, l.exit.value.price / r)) else l.exit;
      if l.entry >= e then Lot(l.security, l.entry, l.shares * r, l.entryPrice / r, exit) else l.(exit := exit)
  }

  ghost function RestatedLots(lots: seq<Lot>, security: nat, e: int, r: real): (s: seq<Lot>)
    requires r > 0.0
    ensures |s| == |lots| && forall i :: 0 <= i < |s| ==> s[i] == RestatedLot(lots[i], security, e, r)
  {
    if lots == [] then []
    else RestatedLots(lots[..|lots| - 1], security, e, r) + [RestatedLot(lots[|lots| - 1], security, e, r)]
  }

  ghost function RestatedMarket(m: Market, security: nat, e: int, r: real): Market
    requires r > 0.0
  {
    Market(map k | k in m.closes :: if k.security == security && k.day >= e then m.closes[k] / r else m.closes[k],
           m.actions[security := SplitsOf(m.actions, security)[e := r]])
  }

  /** The stored factor of (a, b] takes the further split without a rounding of its own. */
  ghost predicate Scales(splits: Ratios, e: int, r: real, a: int, b: int) {
    Factor(splits[e := r], a, b) == Factor(splits, a, b) * r
  }

  /** Where the product before has no more than 12 decimals, that is the case if and only if the product
      after has no more either. */
  lemma FittingScales(splits: Ratios, e: int, r: real, a: int, b: int)
    requires e !in splits && a < e <= b && Fits(Product(splits, a, b), FACTOR_PLACES)
    ensures Scales(splits, e, r, a, b) <==> Fits(Product(splits[e := r], a, b), FACTOR_PLACES)
  {
    hide Fits, Factor, Product;
    InsertedSplit(splits, e, r, a, b);
    FactorIsProductIff(splits, a, b);
    FactorIsProductIff(splits[e := r], a, b);
  }

  /** Of a lot only the intervals it is valued over count: from its entry to the day while it is open, and
      to its exit while that is still to come. */
  ghost predicate LotScales(l: Lot, m: Market, security: nat, e: int, r: real, day: int) {
    l.security == security ==>
      && (OpenOn(l, day) && l.entry < e <= day ==> Scales(SplitsOf(m.actions, security), e, r, l.entry, day))
      && (ExitedAfter(l, day) && l.entry < e <= l.exit.value.day ==>
            Scales(SplitsOf(m.actions, security), e, r, l.entry, l.exit.value.day))
  }

  ghost predicate BookScales(lots: seq<Lot>, m: Market, security: nat, e: int, r: real, day: int) {
    forall i :: 0 <= i < |lots| ==> LotScales(lots[i], m, security, e, r, day)
  }

  lemma RatioCancels(shares: real, f: real, price: real, r: real)
    requires r > 0.0
    ensures shares * (f * r) * (price / r) == shares * f * price
    ensures shares * r * f * (price / r) == shares * f * price
    ensures shares * r * (price / r) == shares * price
  {
    var q := price / r;
    assert q * r == price;
    assert shares * (f * r) * q == shares * f * (q * r);
    assert shares * r * f * q == shares * f * (q * r);
    assert shares * r * q == shares * (q * r);
  }

  lemma RestatedFactor(m: Market, security: nat, e: int, r: real, other: nat, after: int, until: int)
    requires r > 0.0 && e !in SplitsOf(m.actions, security)
    requires other == security && after < e <= until ==> Scales(SplitsOf(m.actions, security), e, r, after, until)
    ensures FactorOf(RestatedMarket(m, security, e, r), other, after, until)
            == if other == security && after < e <= until then FactorOf(m, other, after, until) * r
               else FactorOf(m, other, after, until)
  {
    hide RoundTo, Product;
    InsertedSplit(SplitsOf(m.actions, security), e, r, after, until);
  }

  lemma OpenValueUnmoved(l: Lot, m: Market, security: nat, e: int, r: real, day: int)
    requires r > 0.0 && e !in SplitsOf(m.actions, security) && LotScales(l, m, security, e, r, day) && OpenOn(l, day)
    ensures OpenValue(RestatedLot(l, security, e, r), RestatedMarket(m, security, e, r), day) == OpenValue(l, m, day)
  {
    hide FactorOf, Scales, SplitsOf;
    var bar := Bar(l.security, day);
    if bar in m.closes {
      RestatedFactor(m, security, e, r, l.security, l.entry, day);
      RatioCancels(l.shares, FactorOf(m, l.security, l.entry, day), m.closes[bar], r);
    }
  }

  lemma ProceedsUnmoved(l: Lot, m: Market, security: nat, e: int, r: real, day: int)
    requires r > 0.0 && e !in SplitsOf(m.actions, security) && LotScales(l, m, security, e, r, day)
             && ExitedAfter(l, day) && Ordered(l)
    ensures Proceeds(RestatedLot(l, security, e, r), RestatedMarket(m, security, e, r)) == Proceeds(l, m)
  {
    hide FactorOf, Scales, SplitsOf;
    var x := l.exit.value;
    RestatedFactor(m, security, e, r, l.security, l.entry, x.day);
    RatioCancels(l.shares, FactorOf(m, l.security, l.entry, x.day), x.price, r);
  }

  lemma CostUnmoved(l: Lot, security: nat, e: int, r: real)
    requires r > 0.0
    ensures Cost(RestatedLot(l, security, e, r)) == Cost(l)
  {
    RatioCancels(l.shares, 1.0, l.entryPrice, r);
  }

  lemma LotUnmoved(l: Lot, m: Market, security: nat, e: int, r: real, day: int)
    requires r > 0.0 && e !in SplitsOf(m.actions, security) && Ordered(l) && LotScales(l, m, security, e, r, day)
    ensures var l' := RestatedLot(l, security, e, r);
            var m' := RestatedMarket(m, security, e, r);
            && OpenOn(l', day) == OpenOn(l, day) && ExitedAfter(l', day) == ExitedAfter(l, day) && l'.entry == l.entry
            && Cost(l') == Cost(l)
            && (ExitedAfter(l, day) ==> Proceeds(l', m') == Proceeds(l, m))
            && (OpenOn(l, day) ==> OpenValue(l', m', day) == OpenValue(l, m, day))
  {
    CostUnmoved(l, security, e, r);
    if OpenOn(l, day) { OpenValueUnmoved(l, m, security, e, r, day); }
    if ExitedAfter(l, day) { ProceedsUnmoved(l, m, security, e, r, day); }
    hide LotScales, OpenValue, Proceeds, RestatedMarket, FactorOf, SplitsOf;
  }

  lemma {:induction false} SumsUnmoved(lots: seq<Lot>, m: Market, security: nat, e: int, r: real, day: int)
    requires r > 0.0 && e !in SplitsOf(m.actions, security) && forall i :: 0 <= i < |lots| ==> Ordered(lots[i])
    requires BookScales(lots, m, security, e, r, day)
    ensures var s := RestatedLots(lots, security, e, r);
            var m' := RestatedMarket(m, security, e, r);
            && Equity(s, m', day) == Equity(lots, m, day)
            && EntriesAfter(s, day) == EntriesAfter(lots, day)
            && ExitsAfter(s, m', day) == ExitsAfter(lots, m, day)
    decreases |lots|
  {
    hide LotScales, SplitsOf, FactorOf, RestatedLot, RestatedMarket, OpenValue, Proceeds, Cost, OpenOn, ExitedAfter;
    if lots != [] {
      var n := |lots| - 1;
      var s := RestatedLots(lots, security, e, r);
      assert s[..n] == RestatedLots(lots[..n], security, e, r);
      SumsUnmoved(lots[..n], m, security, e, r, day);
      LotUnmoved(lots[n], m, security, e, r, day);
    }
  }

  /** Neither the cash, nor the equity, nor which days can be priced is another one. */
  ghost predicate Unmoved(b: Book, m: Market, security: nat, e: int, r: real, day: int)
    requires r > 0.0
  {
    var b' := b.(lots := RestatedLots(b.lots, security, e, r));
    var m' := RestatedMarket(m, security, e, r);
    && CashAt(b', m', day) == CashAt(b, m, day)
    && Equity(b'.lots, m', day) == Equity(b.lots, m, day)
    && (Priced(b'.lots, m', day) <==> Priced(b.lots, m, day))
  }

  /** SPLIT INVARIANCE. Recording one more split and restating later closes, exits and lots on the new
      share basis moves no mark of a book whose factors take the split. */
  lemma SplitMovesNoMark(b: Book, m: Market, security: nat, e: int, r: real, day: int)
    requires r > 0.0 && e !in SplitsOf(m.actions, security) && forall i :: 0 <= i < |b.lots| ==> Ordered(b.lots[i])
    requires BookScales(b.lots, m, security, e, r, day)
    ensures Unmoved(b, m, security, e, r, day)
  {
    hide BookScales, RestatedLots, RestatedMarket, Priced, Equity, EntriesAfter, ExitsAfter;
    SumsUnmoved(b.lots, m, security, e, r, day);
    PricedUnmoved(b.lots, m, security, e, r, day);
  }

  lemma PricedUnmoved(lots: seq<Lot>, m: Market, security: nat, e: int, r: real, day: int)
    requires r > 0.0 && e !in SplitsOf(m.actions, security) && forall i :: 0 <= i < |lots| ==> Ordered(lots[i])
    requires BookScales(lots, m, security, e, r, day)
    ensures Priced(RestatedLots(lots, security, e, r), RestatedMarket(m, security, e, r), day) <==> Priced(lots, m, day)
  {
    hide LotScales, SplitsOf, FactorOf;
    var s, m' := RestatedLots(lots, security, e, r), RestatedMarket(m, security, e, r);
    assert m'.closes.Keys == m.closes.Keys;
    forall i | 0 <= i < |lots|
      ensures OpenOn(s[i], day) == OpenOn(lots[i], day) && s[i].security == lots[i].security
    {
      LotUnmoved(lots[i], m, security, e, r, day);
    }
    hide OpenOn, RestatedLot, RestatedMarket;
  }

  /** Every book, with any closes, keeps its cash, its equity and its priced days. */
  ghost predicate MovesNothing(actions: Actions, security: nat, e: int, r: real)
    requires r > 0.0
  {
    forall b: Book, closes, day :: (forall i :: 0 <= i < |b.lots| ==> Ordered(b.lots[i])) ==>
      Unmoved(b, Market(closes, actions), security, e, r, day)
  }

  ghost predicate AllScale(splits: Ratios, e: int, r: real) {
    forall a, b :: a < e <= b ==> Scales(splits, e, r, a, b)
  }

  /** Exactly when: every stored factor across the split's day takes it without a rounding of its own. */
  lemma MovesNothingIff(actions: Actions, security: nat, e: int, r: real)
    requires r > 0.0 && e !in SplitsOf(actions, security)
    ensures MovesNothing(actions, security, e, r) <==> AllScale(SplitsOf(actions, security), e, r)
  {
    hide Scales, Unmoved;
    var splits := SplitsOf(actions, security);
    if AllScale(splits, e, r) {
      forall b: Book, closes, day | forall i :: 0 <= i < |b.lots| ==> Ordered(b.lots[i])
        ensures Unmoved(b, Market(closes, actions), security, e, r, day)
      {
        SplitMovesNoMark(b, Market(closes, actions), security, e, r, day);
      }
    }
    if MovesNothing(actions, security, e, r) {
      forall a, c | a < e <= c ensures Scales(splits, e, r, a, c) {
        OneShare(actions, security, e, r, a, c);
      }
    }
  }

  /** One share bought on day a, with a close of 1 on day c. */
  lemma OneShare(actions: Actions, security: nat, e: int, r: real, a: int, c: int)
    requires r > 0.0 && a < e <= c
    ensures var b, m := Book(0.0, [Lot(security, a, 1.0, 1.0, None)]), Market(map[Bar(security, c) := 1.0], actions);
            Unmoved(b, m, security, e, r, c) ==> Scales(SplitsOf(m.actions, security), e, r, a, c)
  {
    hide Factor;
    var l := Lot(security, a, 1.0, 1.0, None);
    var m := Market(map[Bar(security, c) := 1.0], actions);
    var m' := RestatedMarket(m, security, e, r);
    assert RestatedLots([l], security, e, r) == [l];
    EquityOfOne(l, m, c);
    EquityOfOne(l, m', c);
    var f, g := FactorOf(m, security, a, c), FactorOf(m', security, a, c);
    assert OpenValue(l, m, c) == f;
    assert OpenValue(l, m', c) == g * (1.0 / r);
    Unscaled(f, g, r);
  }

  lemma EquityOfOne(l: Lot, m: Market, day: int)
    ensures Equity([l], m, day) == if OpenOn(l, day) then OpenValue(l, m, day) else 0.0
  {
    assert [l][..0] == [];
  }

  lemma Unscaled(f: real, g: real, r: real)
    requires r > 0.0
    ensures g * (1.0 / r) == f ==> g == f * r
  {
    var q := 1.0 / r;
    assert q * r == 1.0;
    assert g * q * r == g * (q * r);
  }
}
