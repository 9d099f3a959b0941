/** The order protocol as a whole: any number of seeding processes (bin/seed_paper_book.py), each inserting
    a row, submitting and updating the row, over a network that delays and loses, against one broker. An id
    is a client_order_id. Processes under --no-audit submit without a row. */
module OrderProtocol {
  import opened OrderEntry

  type Id = int

  datatype Status = Submitting | Known(outcome: Outcome)

  /** The fate of a submission: on its way, handled with an answer not yet lost, or gone for good. */
  datatype Phase = Travelling | Answered(status: nat, decodable: bool) | Gone

  datatype Call = Call(id: Id, audited: bool, phase: Phase)

  /** Where a process stands with its present symbol. A process that stops is Idle: what starts
      afterwards knows nothing. */
  datatype Pc = Idle | Ready(id: Id, audited: bool) | Waiting(call: nat) | Done(id: Id, audited: bool, outcome: Outcome)

  datatype World = World(rows: map<Id, Status>, calls: seq<Call>, orders: set<Id>, runs: seq<Pc>)

  datatype Step = Insert(r: nat, id: Id)
                | Bare(r: nat, id: Id)
                | RefuseLocally(r: nat)
                | Send(r: nat)
                | Handle(k: nat, creates: bool, status: nat, decodable: bool)
                | Lose(k: nat)
                | Hear(r: nat)
                | GiveUp(r: nat)
                | Write(r: nat)
                | Crash(r: nat)

  predicate WellFormed(w: World) {
    forall r :: 0 <= r < |w.runs| && w.runs[r].Waiting? ==> w.runs[r].call < |w.calls|
  }

  predicate Enabled(w: World, s: Step) {
    match s
    case Insert(r, _) => r < |w.runs| && w.runs[r] == Idle
    case Bare(r, _) => r < |w.runs| && w.runs[r] == Idle
    case RefuseLocally(r) => r < |w.runs| && w.runs[r].Ready?
    case Send(r) => r < |w.runs| && w.runs[r].Ready?
    case Handle(k, creates, status, _) =>
      k < |w.calls| && w.calls[k].phase == Travelling && Honest(w.calls[k].id in w.orders, creates, status)
    case Lose(k) => k < |w.calls|
    case Hear(r) => r < |w.runs| && w.runs[r].Waiting? && w.runs[r].call < |w.calls|
        && w.calls[w.runs[r].call].phase.Answered?
    case GiveUp(r) => r < |w.runs| && w.runs[r].Waiting? && w.runs[r].call < |w.calls|
    case Write(r) => r < |w.runs| && w.runs[r].Done?
    case Crash(r) => r < |w.runs|
  }

  function After(w: World, s: Step): World
    requires Enabled(w, s)
  {
    match s
    case Insert(r, id) =>
      if id in w.rows then w
      else w.(rows := w.rows[id := Submitting], runs := w.runs[r := Ready(id, true)])
    case Bare(r, id) => w.(runs := w.runs[r := Ready(id, false)])
    case RefuseLocally(r) => w.(runs := w.runs[r := Done(w.runs[r].id, w.runs[r].audited, Refused)])
    case Send(r) =>
      w.(calls := w.calls + [Call(w.runs[r].id, w.runs[r].audited, Travelling)],
         runs := w.runs[r := Waiting(|w.calls|)])
    case Handle(k, creates, status, decodable) =>
      w.(calls := w.calls[k := w.calls[k].(phase := Answered(status, decodable))],
         orders := if creates then w.orders + {w.calls[k].id} else w.orders)
    case Lose(k) => w.(calls := w.calls[k := w.calls[k].(phase := Gone)])
    case Hear(r) =>
      var c := w.calls[w.runs[r].call];
      w.(runs := w.runs[r := Done(c.id, c.audited, Meaning(Reply(c.phase.status, c.phase.decodable)))])
    case GiveUp(r) =>
      var c := w.calls[w.runs[r].call];
      w.(runs := w.runs[r := Done(c.id, c.audited, Meaning(Broken))])
    case Write(r) =>
      var p := w.runs[r];
      w.(rows := if p.audited && p.outcome != Raised then w.rows[p.id := Known(p.outcome)] else w.rows,
         runs := w.runs[r := Idle])
    case Crash(r) => w.(runs := w.runs[r := Idle])
  }

  predicate Legal(w: World, steps: seq<Step>)
    decreases |steps|
  {
    steps == [] || (Enabled(w, steps[0]) && Legal(After(w, steps[0]), steps[1..]))
  }

  function Execute(w: World, steps: seq<Step>): World
    requires Legal(w, steps)
    decreases |steps|
  {
    if steps == [] then w else Execute(After(w, steps[0]), steps[1..])
  }

  predicate Start(w: World) {
    w.rows == map[] && w.calls == [] && w.orders == {} && forall r :: 0 <= r < |w.runs| ==> w.runs[r] == Idle
  }

  // ---- what holds of one id throughout -------------------------------------------------------

  /** Some process submitted this id without a row. */
  predicate EverBare(w: World, id: Id) {
    exists i :: 0 <= i < |w.calls| && w.calls[i].id == id && !w.calls[i].audited
  }

  predicate Holds(w: World, r: nat, id: Id)
    requires r < |w.runs| && WellFormed(w)
  {
    match w.runs[r]
    case Idle => false
    case Ready(i, audited) => audited && i == id
    case Waiting(k) => w.calls[k].audited && w.calls[k].id == id
    case Done(i, audited, _) => audited && i == id
  }

  predicate Mine(w: World, i: nat, id: Id)
    requires i < |w.calls|
  {
    w.calls[i].id == id && w.calls[i].audited
  }

  predicate NoneTravels(w: World, id: Id) {
    forall i :: 0 <= i < |w.calls| && w.calls[i].id == id ==> w.calls[i].phase != Travelling
  }

  /** At most one audited submission, and none before the row exists. */
  ghost predicate SentOnce(w: World, id: Id) {
    && (forall i, j :: 0 <= i < j < |w.calls| && Mine(w, i, id) ==> !Mine(w, j, id))
    && (forall i :: 0 <= i < |w.calls| && Mine(w, i, id) ==> id in w.rows)
  }

  /** The row belongs to one process until it is settled. */
  ghost predicate OneHolder(w: World, id: Id)
    requires WellFormed(w)
  {
    && (forall r, q :: 0 <= r < q < |w.runs| && Holds(w, r, id) ==> !Holds(w, q, id))
    && (forall r :: 0 <= r < |w.runs| && Holds(w, r, id) ==> id in w.rows && w.rows[id] == Submitting)
    && (forall r, i :: 0 <= r < |w.runs| && 0 <= i < |w.calls| && w.runs[r] == Ready(id, true) ==> !Mine(w, i, id))
  }

  ghost predicate Inv(w: World, id: Id) {
    WellFormed(w) && SentOnce(w, id) && OneHolder(w, id) && Truthful(w, id)
  }

  lemma BareGrows(w: World, s: Step, id: Id)
    requires Enabled(w, s) && EverBare(w, id)
    ensures EverBare(After(w, s), id)
  {
    var i :| 0 <= i < |w.calls| && w.calls[i].id == id && !w.calls[i].audited;
    var x := After(w, s);
    assert x.calls[i].id == id && !x.calls[i].audited;
  }

  lemma SentOnceKept(w: World, s: Step, id: Id)
    requires Enabled(w, s) && WellFormed(w) && SentOnce(w, id) && OneHolder(w, id)
    ensures WellFormed(After(w, s)) && SentOnce(After(w, s), id)
  {
    var x := After(w, s);
    assert forall i :: 0 <= i < |w.calls| ==> Mine(x, i, id) == Mine(w, i, id);
    if s.Send? && w.runs[s.r] == Ready(id, true) { assert Holds(w, s.r, id); }
  }

  /** A process takes hold of an id only by inserting its row. */
  lemma HoldersFrom(w: World, s: Step, id: Id)
    requires Enabled(w, s) && WellFormed(w) && WellFormed(After(w, s))
    ensures var x := After(w, s);
            && |x.runs| == |w.runs|
            && forall q :: 0 <= q < |w.runs| && Holds(x, q, id) ==>
                 Holds(w, q, id) || (s == Insert(q, id) && id !in w.rows)
  {
    var x := After(w, s);
    forall q | 0 <= q < |w.runs| && Holds(x, q, id)
      ensures Holds(w, q, id) || (s == Insert(q, id) && id !in w.rows)
    {
      match s
      case Insert(r, j) =>
      case Bare(r, j) =>
      case RefuseLocally(r) =>
      case Send(r) =>
      case Handle(k, creates, status, decodable) =>
      case Lose(k) =>
      case Hear(r) =>
      case GiveUp(r) =>
      case Write(r) =>
      case Crash(r) =>
    }
  }

  lemma OneHolderKept(w: World, s: Step, id: Id)
    requires Enabled(w, s) && WellFormed(w) && SentOnce(w, id) && OneHolder(w, id)
    requires WellFormed(After(w, s))
    ensures OneHolder(After(w, s), id)
  {
    hide Holds;
    var x := After(w, s);
    HoldersFrom(w, s, id);
    assert forall r, q :: 0 <= r < q < |x.runs| && Holds(x, r, id) ==> !Holds(x, q, id);
    RowOfHolder(w, s, id);
    ReadyUnsent(w, s, id);
  }

  lemma RowOfHolder(w: World, s: Step, id: Id)
    requires Enabled(w, s) && WellFormed(w) && OneHolder(w, id) && WellFormed(After(w, s))
    ensures var x := After(w, s);
            forall q :: 0 <= q < |x.runs| && Holds(x, q, id) ==> id in x.rows && x.rows[id] == Submitting
  {
    var x := After(w, s);
    HoldersFrom(w, s, id);
    forall q | 0 <= q < |x.runs| && Holds(x, q, id) ensures id in x.rows && x.rows[id] == Submitting {
      if s.Write? && w.runs[s.r].audited && w.runs[s.r].id == id { assert Holds(w, s.r, id); }
    }
  }

  lemma ReadyUnsent(w: World, s: Step, id: Id)
    requires Enabled(w, s) && WellFormed(w) && SentOnce(w, id) && OneHolder(w, id)
    ensures var x := After(w, s);
            forall q, i :: 0 <= q < |x.runs| && 0 <= i < |x.calls| && x.runs[q] == Ready(id, true) ==> !Mine(x, i, id)
  {
    var x := After(w, s);
    forall q, i | 0 <= q < |x.runs| && 0 <= i < |x.calls| && x.runs[q] == Ready(id, true) ensures !Mine(x, i, id) {
      if i < |w.calls| {
        assert Mine(x, i, id) == Mine(w, i, id);
      } else if Mine(x, i, id) {
        assert Holds(w, s.r, id);
        assert Holds(w, q, id);
      }
    }
  }

  lemma HolderKept(w: World, s: Step, id: Id)
    requires Enabled(w, s) && WellFormed(w) && SentOnce(w, id) && OneHolder(w, id)
    ensures WellFormed(After(w, s)) && SentOnce(After(w, s), id) && OneHolder(After(w, s), id)
  {
    SentOnceKept(w, s, id);
    OneHolderKept(w, s, id);
  }

  lemma NotYetSent(w: World, r: nat, id: Id)
    requires Inv(w, id) && r < |w.runs| && w.runs[r] == Ready(id, true) && !EverBare(w, id)
    ensures id !in w.orders && NoneTravels(w, id) && forall i :: 0 <= i < |w.calls| ==> w.calls[i].id != id
  {
    forall i | 0 <= i < |w.calls| ensures w.calls[i].id != id {
      if w.calls[i].id == id { assert Mine(w, i, id); }
    }
  }

  /** A process that holds the id, with its call answered or not made, has the only say. */
  lemma OnlyCall(w: World, k: nat, id: Id)
    requires SentOnce(w, id) && k < |w.calls| && Mine(w, k, id) && w.calls[k].phase != Travelling && !EverBare(w, id)
    ensures NoneTravels(w, id)
  {
    forall i | 0 <= i < |w.calls| && w.calls[i].id == id ensures w.calls[i].phase != Travelling {
      assert Mine(w, i, id);
    }
  }

  /** The broker's book and the recorded answers, after any step. */
  ghost predicate BookTruthful(w: World, id: Id) {
    && (id in w.orders ==> exists i :: 0 <= i < |w.calls| && w.calls[i].id == id && w.calls[i].phase != Travelling)
    && (forall i :: 0 <= i < |w.calls| && w.calls[i].id == id && w.calls[i].phase.Answered? ==>
          && (w.calls[i].phase.status < 400 ==> id in w.orders)
          && (400 <= w.calls[i].phase.status < 500 && !EverBare(w, id) ==> id !in w.orders))
  }

  /** What a process has concluded, and what the row says. */
  ghost predicate RefusalTruthful(w: World, id: Id) {
    && (forall r :: 0 <= r < |w.runs| && w.runs[r] == Done(id, true, Refused) && !EverBare(w, id) ==>
          id !in w.orders && NoneTravels(w, id))
    && (id in w.rows && w.rows[id] == Known(Refused) && !EverBare(w, id) ==> id !in w.orders && NoneTravels(w, id))
  }

  ghost predicate AcceptanceTruthful(w: World, id: Id) {
    && (forall r :: 0 <= r < |w.runs| && w.runs[r] == Done(id, true, Accepted) ==> id in w.orders)
    && (id in w.rows && w.rows[id] == Known(Accepted) ==> id in w.orders)
    && (id in w.rows ==> w.rows[id] != Known(Raised))
  }

  ghost predicate Truthful(w: World, id: Id) {
    BookTruthful(w, id) && RefusalTruthful(w, id) && AcceptanceTruthful(w, id)
  }

  lemma BookKept(w: World, s: Step, id: Id)
    requires Enabled(w, s) && Inv(w, id)
    ensures BookTruthful(After(w, s), id)
  {
    var x := After(w, s);
    if EverBare(w, id) { BareGrows(w, s, id); }
    assert forall i :: 0 <= i < |w.calls| ==> x.calls[i].id == w.calls[i].id;
    if s.Handle? && w.calls[s.k].id == id && !EverBare(w, id) {
      assert Mine(w, s.k, id);
      forall i | 0 <= i < |w.calls| && w.calls[i].id == id ensures i == s.k { assert Mine(w, i, id); }
    }
    if id in x.orders {
      if id !in w.orders {
        assert x.calls[s.k].id == id;
      } else {
        var i :| 0 <= i < |w.calls| && w.calls[i].id == id && w.calls[i].phase != Travelling;
        assert x.calls[i].id == id;
      }
    }
  }

  lemma AcceptanceKept(w: World, s: Step, id: Id)
    requires Enabled(w, s) && Inv(w, id)
    ensures AcceptanceTruthful(After(w, s), id)
  {
  }

  /** No submission of the id is on its way or about to be sent: it will never have an order. */
  predicate Quiet(w: World, id: Id) {
    id in w.rows && id !in w.orders && NoneTravels(w, id)
    && forall r :: 0 <= r < |w.runs| ==> !(w.runs[r].Ready? && w.runs[r].id == id)
  }

  lemma NothingNew(w: World, s: Step, id: Id)
    requires Enabled(w, s) && id !in w.orders && NoneTravels(w, id)
    requires s.Send? ==> w.runs[s.r].id != id
    ensures id !in After(w, s).orders && NoneTravels(After(w, s), id)
  {
    var x := After(w, s);
    assert forall i :: 0 <= i < |w.calls| ==> x.calls[i].id == w.calls[i].id;
  }

  lemma QuietKept(w: World, s: Step, id: Id)
    requires Enabled(w, s) && Quiet(w, id) && !(s.Bare? && s.id == id)
    ensures Quiet(After(w, s), id)
  {
    NothingNew(w, s, id);
  }

  /** Who refused an id, or reads a refusal, is not about to send it. */
  lemma SenderIsOther(w: World, s: Step, id: Id)
    requires Enabled(w, s) && Inv(w, id) && s.Send? && !EverBare(After(w, s), id)
    requires (id in w.rows && w.rows[id] == Known(Refused))
             || exists r :: 0 <= r < |w.runs| && w.runs[r] == Done(id, true, Refused)
    ensures w.runs[s.r].id != id
  {
    var x := After(w, s);
    assert x.calls[|w.calls|] == Call(w.runs[s.r].id, w.runs[s.r].audited, Travelling);
    if w.runs[s.r] == Ready(id, true) {
      assert Holds(w, s.r, id);
      if r: nat :| r < |w.runs| && w.runs[r] == Done(id, true, Refused) {
        assert Holds(w, r, id);
      }
    }
  }

  /** An id refused for good stays so: nothing is on its way that could make the order. */
  lemma RefusalKept(w: World, s: Step, id: Id)
    requires Enabled(w, s) && Inv(w, id)
    ensures RefusalTruthful(After(w, s), id)
  {
    var x := After(w, s);
    if !EverBare(x, id) {
      if EverBare(w, id) { BareGrows(w, s, id); }
      forall r | 0 <= r < |x.runs| && x.runs[r] == Done(id, true, Refused)
        ensures id !in x.orders && NoneTravels(x, id)
      {
        if w.runs[r] == x.runs[r] {
          if s.Send? { SenderIsOther(w, s, id); }
          NothingNew(w, s, id);
        } else if s.Hear? {
          OnlyCall(w, w.runs[r].call, id);
        } else {
          NotYetSent(w, r, id);
        }
      }
      if id in x.rows && x.rows[id] == Known(Refused) {
        if s.Write? && w.runs[s.r].id == id && w.runs[s.r].audited {
          assert Holds(w, s.r, id);
        }
        if id in w.rows && w.rows[id] == Known(Refused) {
          if s.Send? { SenderIsOther(w, s, id); }
          NothingNew(w, s, id);
        }
      }
    }
  }

  lemma StepKeeps(w: World, s: Step, id: Id)
    requires Enabled(w, s) && Inv(w, id)
    ensures Inv(After(w, s), id)
  {
    HolderKept(w, s, id);
    BookKept(w, s, id);
    AcceptanceKept(w, s, id);
    RefusalKept(w, s, id);
  }

  lemma {:induction false} RunKeeps(w: World, steps: seq<Step>, id: Id)
    requires Legal(w, steps) && Inv(w, id)
    ensures Inv(Execute(w, steps), id)
    decreases |steps|
  {
    if steps != [] {
      StepKeeps(w, steps[0], id);
      RunKeeps(After(w, steps[0]), steps[1..], id);
    }
  }

  // ---- the guarantees ------------------------------------------------------------------------

  /** An id is submitted with a row at most once; an accepted row has its order. If nobody ever submitted
      the id without a row, an order has its row, and a rejected row has no order and none can still
      arrive. */
  ghost predicate Safe(w: World, id: Id) {
    && (forall i, j :: 0 <= i < j < |w.calls| && Mine(w, i, id) ==> !Mine(w, j, id))
    && (id in w.rows && w.rows[id] == Known(Accepted) ==> id in w.orders)
    && (!EverBare(w, id) ==>
          && (id in w.orders ==> id in w.rows)
          && (id in w.rows && w.rows[id] == Known(Refused) ==> id !in w.orders && NoneTravels(w, id)))
  }

  /** THE GUARANTEE, over every run of any number of processes, with crashes, losses and late delivery. */
  lemma {:induction false} EveryRunIsSafe(w: World, steps: seq<Step>, id: Id)
    requires Start(w) && Legal(w, steps)
    ensures Inv(Execute(w, steps), id) && Safe(Execute(w, steps), id)
  {
    RunKeeps(w, steps, id);
    var e := Execute(w, steps);
    if id in e.orders && !EverBare(e, id) {
      var i :| 0 <= i < |e.calls| && e.calls[i].id == id && e.calls[i].phase != Travelling;
      assert Mine(e, i, id);
    }
  }

  /** No further submission of the id without a row. */
  predicate WithRow(steps: seq<Step>, id: Id) {
    forall i :: 0 <= i < |steps| ==> !(steps[i].Bare? && steps[i].id == id)
  }

  lemma {:induction false} QuietForGood(w: World, steps: seq<Step>, id: Id)
    requires Legal(w, steps) && Quiet(w, id)
    requires WithRow(steps, id)
    ensures Quiet(Execute(w, steps), id)
    decreases |steps|
  {
    if steps != [] {
      assert !(steps[0].Bare? && steps[0].id == id);
      QuietKept(w, steps[0], id);
      assert WithRow(steps[1..], id) by {
        assert forall i :: 0 <= i < |steps| - 1 ==> steps[1..][i] == steps[i + 1];
      }
      QuietForGood(After(w, steps[0]), steps[1..], id);
    }
  }

  /** The run that makes the order of an id which has a row but is not Quiet. */
  lemma LateOrder(w: World, id: Id) returns (steps: seq<Step>)
    requires WellFormed(w) && id in w.rows && id !in w.orders && !Quiet(w, id)
    ensures Legal(w, steps) && id in Execute(w, steps).orders
    ensures WithRow(steps, id)
  {
    if !NoneTravels(w, id) {
      var k: nat :| k < |w.calls| && w.calls[k].id == id && w.calls[k].phase == Travelling;
      steps := [Handle(k, true, 200, true)];
      assert Legal(After(w, steps[0]), steps[1..]);
    } else {
      var r: nat :| r < |w.runs| && w.runs[r].Ready? && w.runs[r].id == id;
      steps := [Send(r), Handle(|w.calls|, true, 200, true)];
      var x := After(w, steps[0]);
      assert steps[1..][0] == Handle(|w.calls|, true, 200, true);
      assert Legal(After(x, steps[1]), steps[1..][1..]);
      assert Execute(w, steps) == Execute(x, steps[1..]) == After(x, steps[1]);
    }
  }

  ghost predicate NeverOrdered(w: World, id: Id) {
    forall steps :: Legal(w, steps) && WithRow(steps, id) ==> id !in Execute(w, steps).orders
  }

  /** What a lookup settles. It answers Absent only when the broker has no such order; and then, for an
      id with a row, there will be none ever after exactly when nothing is still on its way and no process
      is about to submit. An Absent answer while a lost request may yet arrive is not final. */
  lemma AbsenceIsFinal(w: World, id: Id, x: Exchange)
    requires WellFormed(w) && id in w.rows && x.Reply? && x.status == 404 && HonestLookup(id in w.orders, x)
    ensures id !in w.orders
    ensures NeverOrdered(w, id) <==>
              NoneTravels(w, id) && forall r :: 0 <= r < |w.runs| ==> !(w.runs[r].Ready? && w.runs[r].id == id)
  {
    assert Quiet(w, id) <==>
           NoneTravels(w, id) && forall r :: 0 <= r < |w.runs| ==> !(w.runs[r].Ready? && w.runs[r].id == id);
    if Quiet(w, id) {
      forall steps | Legal(w, steps) && WithRow(steps, id)
        ensures id !in Execute(w, steps).orders
      {
        QuietForGood(w, steps, id);
      }
    } else {
      var steps := LateOrder(w, id);
      assert id in Execute(w, steps).orders;
    }
  }

  lemma {:induction false} Chain(w: World, a: seq<Step>, b: seq<Step>)
    requires Legal(w, a) && Legal(Execute(w, a), b)
    ensures Legal(w, a + b) && Execute(w, a + b) == Execute(Execute(w, a), b)
    decreases |a|
  {
    if a == [] {
      assert a + b == b;
    } else {
      assert (a + b)[1..] == a[1..] + b;
      Chain(After(w, a[0]), a[1..], b);
    }
  }

  lemma Two(w: World, s: Step, t: Step)
    requires Enabled(w, s) && Enabled(After(w, s), t)
    ensures Legal(w, [s, t]) && Execute(w, [s, t]) == After(After(w, s), t)
  {
    var x := After(w, s);
    assert [s, t][1..] == [t] && [t][1..] == [];
    assert Execute(x, [t]) == After(x, t);
  }

  /** What becomes of one submission: refused before sending, never handled, or handled, with or
      without the answer coming back. */
  datatype Fate = NotSent | Undelivered | Handled(creates: bool, status: nat, decodable: bool, heard: bool)

  function Concluded(f: Fate): Outcome {
    match f
    case NotSent => Refused
    case Undelivered => Meaning(Broken)
    case Handled(_, status, decodable, heard) => if heard then Meaning(Reply(status, decodable)) else Meaning(Broken)
  }

  predicate HonestFate(had: bool, f: Fate) {
    f.Handled? ==> Honest(had, f.creates, f.status)
  }

  function Creates(f: Fate): bool {
    f.Handled? && f.creates
  }

  /** The steps of process `r` from taking up an id to what it concludes. */
  lemma Submission(w: World, r: nat, id: Id, audited: bool, f: Fate) returns (steps: seq<Step>)
    requires r < |w.runs| && w.runs[r] == Idle && (audited ==> id !in w.rows)
    requires HonestFate(id in w.orders, f)
    ensures Legal(w, steps)
    ensures var e := Execute(w, steps);
            && |e.runs| == |w.runs| && e.runs[r] == Done(id, audited, Concluded(f))
            && e.orders == (if Creates(f) then w.orders + {id} else w.orders)
            && e.rows == (if audited then w.rows[id := Submitting] else w.rows)
  {
    var first := if audited then Insert(r, id) else Bare(r, id);
    if f == NotSent {
      Two(w, first, RefuseLocally(r));
      return [first, RefuseLocally(r)];
    }
    var n := |w.calls|;
    var fate := if f == Undelivered then Lose(n) else Handle(n, f.creates, f.status, f.decodable);
    var last := if f.Handled? && f.heard then Hear(r) else GiveUp(r);
    Two(w, first, Send(r));
    Two(Execute(w, [first, Send(r)]), fate, last);
    Chain(w, [first, Send(r)], [fate, last]);
    steps := [first, Send(r)] + [fate, last];
  }

  lemma ThenStep(w: World, steps: seq<Step>, s: Step)
    requires Legal(w, steps) && Enabled(Execute(w, steps), s)
    ensures Legal(w, steps + [s]) && Execute(w, steps + [s]) == After(Execute(w, steps), s)
  {
    var x := Execute(w, steps);
    assert [s][1..] == [];
    assert Legal(After(x, s), [s][1..]) && Execute(x, [s]) == After(x, s);
    Chain(w, steps, [s]);
  }

  /** Why the refusal clause needs the id to be unused: after a submission without a row, the broker's
      422 for the duplicate makes the row read rejected although the order stands. */
  lemma BareThenRejected(w: World, id: Id) returns (steps: seq<Step>)
    requires Start(w) && |w.runs| > 0
    ensures Legal(w, steps)
    ensures var e := Execute(w, steps); id in e.orders && id in e.rows && e.rows[id] == Known(Refused)
  {
    var one := Submission(w, 0, id, false, Handled(true, 200, true, true));
    ThenStep(w, one, Write(0));
    var x := Execute(w, one + [Write(0)]);
    var two := Submission(x, 0, id, true, Handled(false, 422, true, true));
    ThenStep(x, two, Write(0));
    Chain(w, one + [Write(0)], two + [Write(0)]);
    steps := one + [Write(0)] + (two + [Write(0)]);
  }
}
