/** The seeding loop of bin/seed_paper_book.py: one process, its rows, and what it reports. Each symbol's
    submission ends in a given exchange; the last section shows the loop to be a run of OrderProtocol. */
module Seeding {
  import opened Wrappers
  import opened OrderEntry
  import opened OrderProtocol

  /** The orders table as one process sees it, and its two lists. */
  datatype Book = Book(rows: map<Id, Status>, placed: seq<Id>, failed: seq<Id>, stopped: bool)

  /** A market buy for that many dollars. */
  function DollarBuy(notional: real): Request {
    Request(Market, Side.Buy, None, Some(notional), None, true)
  }

  /** The orders table takes the row: rounded to its two decimals, the notional is positive. The database
      checks that before it looks for a conflicting row. */
  predicate RowFits(notional: real) {
    notional >= 0.005
  }

  function Verdict(notional: real, x: Exchange): Outcome {
    if notional > 0.0 then Meaning(x) else Refused
  }

  /** One symbol. */
  function Place(b: Book, audit: bool, id: Id, verdict: Outcome): Book {
    if b.stopped || (audit && id in b.rows) then b
    else
      var rows := if !audit then b.rows else b.rows[id := if verdict == Raised then Submitting else Known(verdict)];
      match verdict
      case Accepted => b.(rows := rows, placed := b.placed + [id])
      case Raised => b.(rows := rows, stopped := true)
      case _ => b.(rows := rows, failed := b.failed + [id])
  }

  /** A whole basket; `verdicts[i]` is what symbol i's submission would come to. */
  function Seeded(b: Book, audit: bool, basket: seq<Id>, verdicts: seq<Outcome>): Book
    requires |verdicts| == |basket|
  {
    if basket == [] then b
    else
      var n := |basket| - 1;
      Place(Seeded(b, audit, basket[..n], verdicts[..n]), audit, basket[n], verdicts[n])
  }

  function Verdicts(notional: real, xs: seq<Exchange>): (v: seq<Outcome>)
    ensures |v| == |xs| && forall i :: 0 <= i < |xs| ==> v[i] == if notional > 0.0 then Meaning(xs[i]) else Refused
  {
    seq(|xs|, i requires 0 <= i < |xs| => Verdict(notional, xs[i]))
  }

  class Seeder {
    var rows: map<Id, Status>
    var placed: seq<Id>
    var failed: seq<Id>

    /** `crashed` is an exception the loop does not catch, which a notional the table refuses is from the
        start. */
    method Seed(basket: seq<Id>, notional: real, xs: seq<Exchange>, audit: bool) returns (crashed: bool)
      requires |xs| == |basket|
      modifies this
      ensures Book(rows, placed, failed, crashed)
           == if audit && basket != [] && notional < 0.005 then Book(old(rows), [], [], true)
              else Seeded(Book(old(rows), [], [], false), audit, basket, Verdicts(notional, xs))
    {
      hide Seeded;
      placed, failed := [], [];
      ghost var start := Book(rows, [], [], false);
      ghost var vs := Verdicts(notional, xs);
      NothingYet(start, audit, basket, vs);
      for i := 0 to |basket|
        invariant Book(rows, placed, failed, false) == Seeded(start, audit, basket[..i], vs[..i])
        invariant i > 0 && audit ==> RowFits(notional)
      {
        if audit && !RowFits(notional) { return true; }
        OneMore(start, audit, basket, vs, i);
        var id := basket[i];
        if audit && id in rows { continue; }
        if audit { rows := rows[id := Submitting]; }
        var outcome, sent := SubmitOrder(DollarBuy(notional), {Market}, true, false, xs[i]);
        if outcome == Raised {
          StopsThere(start, audit, basket, vs, i + 1);
          return true;
        }
        if outcome == Refused || outcome == Uncertain {
          failed := failed + [id];
          if audit { rows := rows[id := Known(outcome)]; }
          continue;
        }
        placed := placed + [id];
        if audit { rows := rows[id := Known(Accepted)]; }
      }
      assert basket[..|basket|] == basket && vs[..|basket|] == vs;
      return false;
    }
  }

  lemma NothingYet(b: Book, audit: bool, basket: seq<Id>, verdicts: seq<Outcome>)
    requires |basket| == |verdicts|
    ensures Seeded(b, audit, basket[..0], verdicts[..0]) == b
  {
  }

  lemma OneMore(b: Book, audit: bool, basket: seq<Id>, verdicts: seq<Outcome>, i: nat)
    requires i < |basket| == |verdicts|
    ensures Seeded(b, audit, basket[..i + 1], verdicts[..i + 1])
         == Place(Seeded(b, audit, basket[..i], verdicts[..i]), audit, basket[i], verdicts[i])
  {
    assert basket[..i + 1][..i] == basket[..i] && verdicts[..i + 1][..i] == verdicts[..i];
  }

  lemma {:induction false} StopsThere(b: Book, audit: bool, basket: seq<Id>, verdicts: seq<Outcome>, n: nat)
    requires n <= |basket| == |verdicts| && Seeded(b, audit, basket[..n], verdicts[..n]).stopped
    ensures Seeded(b, audit, basket, verdicts) == Seeded(b, audit, basket[..n], verdicts[..n])
    decreases |basket|
  {
    var m := |basket| - 1;
    if n == |basket| {
      assert basket[..n] == basket && verdicts[..n] == verdicts;
    } else {
      assert basket[..m][..n] == basket[..n] && verdicts[..m][..n] == verdicts[..n];
      StopsThere(b, audit, basket[..m], verdicts[..m], n);
    }
  }

  /** How often `id` occurs. */
  function Count(s: seq<Id>, id: Id): nat {
    multiset(s)[id]
  }

  /** What is promised of one id: an earlier row is untouched; a new one was submitted once and is
      reported once, as placed exactly when the row says accepted; a row is left at submitting, or a symbol
      without a row, only by a crash. */
  predicate Reported(rows: map<Id, Status>, asked: bool, e: Book, id: Id) {
    && (id in rows ==> id in e.rows && e.rows[id] == rows[id] && Count(e.placed, id) == Count(e.failed, id) == 0)
    && (id !in rows && id in e.rows ==>
          && asked
          && (e.rows[id] == Submitting ==> e.stopped)
          && Count(e.placed, id) == (if e.rows[id] == Known(Accepted) then 1 else 0)
          && Count(e.failed, id) == (if e.rows[id] == Known(Refused) || e.rows[id] == Known(Uncertain) then 1 else 0))
    && (id !in e.rows ==> Count(e.placed, id) == Count(e.failed, id) == 0 && (asked ==> e.stopped))
  }

  lemma PlaceReports(rows: map<Id, Status>, asked: bool, e: Book, placing: Id, verdict: Outcome, id: Id)
    requires Reported(rows, asked, e, id)
    ensures Reported(rows, asked || id == placing, Place(e, true, placing, verdict), id)
  {
  }

  lemma {:induction false} SeededMeans(rows: map<Id, Status>, basket: seq<Id>, verdicts: seq<Outcome>, id: Id)
    requires |verdicts| == |basket|
    ensures Reported(rows, id in basket, Seeded(Book(rows, [], [], false), true, basket, verdicts), id)
  {
    if basket != [] {
      var n := |basket| - 1;
      SeededMeans(rows, basket[..n], verdicts[..n], id);
      assert basket == basket[..n] + [basket[n]];
      assert id in basket <==> id in basket[..n] || id == basket[n];
      hide Reported;
      PlaceReports(rows, id in basket[..n], Seeded(Book(rows, [], [], false), true, basket[..n], verdicts[..n]),
                   basket[n], verdicts[n], id);
    }
  }

  /** Symbol i is new to the table and to the basket so far. */
  predicate IsNew(rows: map<Id, Status>, basket: seq<Id>, i: nat) {
    i < |basket| && basket[i] !in rows && basket[i] !in basket[..i]
  }

  /** No new symbol among the first n ends in an exception the loop does not catch. */
  predicate GetsTo(rows: map<Id, Status>, basket: seq<Id>, verdicts: seq<Outcome>, n: nat) {
    n <= |basket| && |verdicts| == |basket|
    && forall i :: 0 <= i < n && IsNew(rows, basket, i) ==> verdicts[i] != Raised
  }

  lemma GetsFurther(rows: map<Id, Status>, basket: seq<Id>, verdicts: seq<Outcome>, n: nat)
    requires |verdicts| == |basket| && n < |basket|
    ensures GetsTo(rows, basket, verdicts, n + 1)
            <==> GetsTo(rows, basket, verdicts, n) && (IsNew(rows, basket, n) ==> verdicts[n] != Raised)
  {
    hide IsNew;
  }

  lemma PlaceNew(b: Book, id: Id, verdict: Outcome)
    requires !b.stopped && id !in b.rows
    ensures var e := Place(b, true, id, verdict);
            id in e.rows && e.rows[id] == if verdict == Raised then Submitting else Known(verdict)
  {
  }

  lemma PlaceRows(b: Book, id: Id, verdict: Outcome)
    ensures var e := Place(b, true, id, verdict);
            && (e.stopped <==> b.stopped || (id !in b.rows && verdict == Raised))
            && (!b.stopped ==> forall x :: x in e.rows <==> x in b.rows || x == id)
  {
  }

  /** While the loop goes on the table has, beside the rows it had, one for each symbol it got to. */
  lemma {:induction false} RowsSoFar(rows: map<Id, Status>, basket: seq<Id>, verdicts: seq<Outcome>, n: nat)
    requires |verdicts| == |basket| && n <= |basket|
    ensures var e := Seeded(Book(rows, [], [], false), true, basket[..n], verdicts[..n]);
            && (e.stopped <==> !GetsTo(rows, basket, verdicts, n))
            && (!e.stopped ==> forall id :: id in e.rows <==> id in rows || id in basket[..n])
    decreases n
  {
    if n > 0 {
      var start := Book(rows, [], [], false);
      RowsSoFar(rows, basket, verdicts, n - 1);
      OneMore(start, true, basket, verdicts, n - 1);
      assert basket[..n] == basket[..n - 1] + [basket[n - 1]];
      GetsFurther(rows, basket, verdicts, n - 1);
      PlaceRows(Seeded(start, true, basket[..n - 1], verdicts[..n - 1]), basket[n - 1], verdicts[n - 1]);
      hide Seeded, Place, GetsTo;
    } else {
      assert basket[..0] == [] && verdicts[..0] == [];
    }
  }

  /** THE ROWS OF A BASKET. A symbol the loop gets to gets the row its own submission calls for, and the next
      one is taken up unless that was an exception. */
  lemma RowOfSymbol(rows: map<Id, Status>, basket: seq<Id>, verdicts: seq<Outcome>, i: nat)
    requires |verdicts| == |basket| && IsNew(rows, basket, i) && GetsTo(rows, basket, verdicts, i)
    ensures var e := Seeded(Book(rows, [], [], false), true, basket, verdicts);
            && basket[i] in e.rows
            && e.rows[basket[i]] == if verdicts[i] == Raised then Submitting else Known(verdicts[i])
    ensures GetsTo(rows, basket, verdicts, i + 1) <==> verdicts[i] != Raised
  {
    var start := Book(rows, [], [], false);
    RowsSoFar(rows, basket, verdicts, i);
    OneMore(start, true, basket, verdicts, i);
    assert basket[..|basket|] == basket && verdicts[..|basket|] == verdicts;
    GetsFurther(rows, basket, verdicts, i);
    PlaceNew(Seeded(start, true, basket[..i], verdicts[..i]), basket[i], verdicts[i]);
    hide Seeded, Place, GetsTo;
    RowStays(start, basket, verdicts, basket[i], i + 1, |basket|);
  }

  lemma {:induction false} RowStays(b: Book, basket: seq<Id>, verdicts: seq<Outcome>, id: Id, m: nat, n: nat)
    requires |verdicts| == |basket| && m <= n <= |basket| && id in Seeded(b, true, basket[..m], verdicts[..m]).rows
    ensures var e, f := Seeded(b, true, basket[..m], verdicts[..m]), Seeded(b, true, basket[..n], verdicts[..n]);
            id in f.rows && f.rows[id] == e.rows[id]
    decreases n
  {
    if m < n {
      RowStays(b, basket, verdicts, id, m, n - 1);
      OneMore(b, true, basket, verdicts, n - 1);
      hide Seeded;
    }
  }

  /** A LOST REPLY: the symbol's row says uncertain, it is reported as failed, and the loop goes on. */
  lemma LostReply(rows: map<Id, Status>, basket: seq<Id>, notional: real, xs: seq<Exchange>, i: nat)
    requires |xs| == |basket| && notional > 0.0 && IsNew(rows, basket, i) && xs[i] == Broken
    requires forall j :: 0 <= j < i && IsNew(rows, basket, j) ==>
               !(xs[j].Reply? && 400 <= xs[j].status < 500 && xs[j].status !in {401, 403, 422})
    ensures var verdicts := Verdicts(notional, xs);
            var e := Seeded(Book(rows, [], [], false), true, basket, verdicts);
            && basket[i] in e.rows && e.rows[basket[i]] == Known(Uncertain) && basket[i] in e.failed
            && GetsTo(rows, basket, verdicts, i + 1)
  {
    var verdicts := Verdicts(notional, xs);
    RowOfSymbol(rows, basket, verdicts, i);
    SeededMeans(rows, basket, verdicts, basket[i]);
    var e := Seeded(Book(rows, [], [], false), true, basket, verdicts);
    hide Seeded;
    assert Reported(rows, true, e, basket[i]);
    assert Count(e.failed, basket[i]) == 1;
  }

  /** A second run under the same tag submits nothing, whatever the broker would have said. */
  lemma {:induction false} RerunPlacesNothing(b: Book, basket: seq<Id>, verdicts: seq<Outcome>)
    requires |verdicts| == |basket| && !b.stopped && forall i :: 0 <= i < |basket| ==> basket[i] in b.rows
    ensures Seeded(b, true, basket, verdicts) == b
  {
    if basket != [] {
      var n := |basket| - 1;
      RerunPlacesNothing(b, basket[..n], verdicts[..n]);
    }
  }

  /** Without auditing there is no such guard: every symbol that is not refused goes out again. */
  lemma {:induction false} BareRerunPlacesAll(b: Book, basket: seq<Id>, verdicts: seq<Outcome>)
    requires |verdicts| == |basket| && !b.stopped && forall i :: 0 <= i < |verdicts| ==> verdicts[i] == Accepted
    ensures Seeded(b, false, basket, verdicts) == b.(placed := b.placed + basket)
  {
    if basket != [] {
      var n := |basket| - 1;
      BareRerunPlacesAll(b, basket[..n], verdicts[..n]);
      assert basket == basket[..n] + [basket[n]];
    }
  }

  // ---- the loop is a run of the protocol -----------------------------------------------------

  predicate Submits(b: Book, audit: bool, id: Id) {
    !b.stopped && !(audit && id in b.rows)
  }

  function Conclusions(fates: seq<Fate>): (v: seq<Outcome>)
    ensures |v| == |fates| && forall i :: 0 <= i < |fates| ==> v[i] == Concluded(fates[i])
  {
    seq(|fates|, i requires 0 <= i < |fates| => Concluded(fates[i]))
  }

  function SeededBy(rows: map<Id, Status>, audit: bool, basket: seq<Id>, fates: seq<Fate>): Book
    requires |fates| == |basket|
  {
    Seeded(Book(rows, [], [], false), audit, basket, Conclusions(fates))
  }

  /** The broker's book afterwards. */
  function OrdersAfter(w: World, audit: bool, basket: seq<Id>, fates: seq<Fate>): set<Id>
    requires |fates| == |basket|
  {
    if basket == [] then w.orders
    else
      var n := |basket| - 1;
      var before := OrdersAfter(w, audit, basket[..n], fates[..n]);
      if Submits(SeededBy(w.rows, audit, basket[..n], fates[..n]), audit, basket[n]) && Creates(fates[n])
      then before + {basket[n]} else before
  }

  /** Each submission that is made is handled honestly, given what the broker holds by then. */
  predicate HonestFates(w: World, audit: bool, basket: seq<Id>, fates: seq<Fate>)
    requires |fates| == |basket|
  {
    forall n :: 0 <= n < |basket| && Submits(SeededBy(w.rows, audit, basket[..n], fates[..n]), audit, basket[n]) ==>
      HonestFate(basket[n] in OrdersAfter(w, audit, basket[..n], fates[..n]), fates[n])
  }

  lemma HonestSoFar(w: World, audit: bool, basket: seq<Id>, fates: seq<Fate>)
    requires |fates| == |basket| && basket != [] && HonestFates(w, audit, basket, fates)
    ensures var n := |basket| - 1; HonestFates(w, audit, basket[..n], fates[..n])
  {
    hide OrdersAfter, SeededBy;
    var n := |basket| - 1;
    forall i | 0 <= i < n ensures basket[..n][..i] == basket[..i] && fates[..n][..i] == fates[..i] {}
  }

  /** One more symbol, as steps of the protocol. */
  lemma PlaceIsSteps(w: World, r: nat, audit: bool, id: Id, f: Fate, b: Book) returns (steps: seq<Step>)
    requires r < |w.runs| && w.runs[r] == Idle && w.rows == b.rows && Submits(b, audit, id)
    requires HonestFate(id in w.orders, f)
    ensures Legal(w, steps)
    ensures var e := Execute(w, steps);
            && |e.runs| == |w.runs| && e.runs[r] == Idle
            && e.rows == Place(b, audit, id, Concluded(f)).rows
            && e.orders == (if Creates(f) then w.orders + {id} else w.orders)
  {
    var s := Submission(w, r, id, audit, f);
    ThenStep(w, s, Write(r));
    steps := s + [Write(r)];
  }

  /** THE LINK. What the loop does to the table and the broker's book, some run of the protocol does; so
      OrderProtocol.EveryRunIsSafe holds of any number of such loops one after another. SharedSeeding has
      them at once. */
  lemma {:induction false} SeedIsARun(w: World, r: nat, audit: bool, basket: seq<Id>, fates: seq<Fate>)
    returns (steps: seq<Step>)
    requires r < |w.runs| && w.runs[r] == Idle && |fates| == |basket| && HonestFates(w, audit, basket, fates)
    ensures Legal(w, steps)
    ensures var e := Execute(w, steps);
            && |e.runs| == |w.runs| && e.runs[r] == Idle
            && e.rows == Seeded(Book(w.rows, [], [], false), audit, basket, Conclusions(fates)).rows
            && e.orders == OrdersAfter(w, audit, basket, fates)
    decreases |basket|
  {
    if basket == [] {
      return [];
    }
    var n := |basket| - 1;
    HonestSoFar(w, audit, basket, fates);
    steps := SeedIsARun(w, r, audit, basket[..n], fates[..n]);
    var b := SeededBy(w.rows, audit, basket[..n], fates[..n]);
    assert Conclusions(fates)[..n] == Conclusions(fates[..n]);
    assert SeededBy(w.rows, audit, basket, fates) == Place(b, audit, basket[n], Concluded(fates[n]));
    if Submits(b, audit, basket[n]) {
      var more := PlaceIsSteps(Execute(w, steps), r, audit, basket[n], fates[n], b);
      Chain(w, steps, more);
      steps := steps + more;
    }
  }
}
