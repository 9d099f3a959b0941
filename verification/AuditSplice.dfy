/** The audit-driven splice of db/load_delistings.py, for one security: the recorded holes are worked off
    in the order of the query, newest first, each only if it still belongs to the security. */
module AuditSplice {
  import opened Wrappers
  import opened GapAudit
  import opened Peeling

  /** A recorded hole: the bar before it and the bar after it. */
  datatype Hole = Hole(start: int, resume: int)

  /** How many bars lie before day d. */
  function Cut(bars: seq<int>, d: int): (n: nat)
    ensures n <= |bars| && (forall i :: 0 <= i < n ==> bars[i] < d) && (n < |bars| ==> bars[n] >= d)
  {
    if bars == [] || bars[0] >= d then 0 else 1 + Cut(bars[1..], d)
  }

  predicate Owns(x: Identity, h: Hole) {
    h.start in x.bars && h.resume in x.bars
  }

  /** The UPDATEs of one splice: bars from the resumption on move, whatever lies inside the hole by now. */
  function Before(x: Identity, h: Hole): Identity {
    Identity(x.symbol, x.firstSeen, Some(h.start + 1), x.bars[..Cut(x.bars, h.resume)], {})
  }

  function After(x: Identity, h: Hole): Identity {
    Identity(x.symbol, Some(h.resume), x.delisted, x.bars[Cut(x.bars, h.resume)..], x.actions)
  }

  // ---- which holes are spliced ---------------------------------------------------------------

  /** The hole is still the security's, after the last splice. */
  predicate Owned(whole: Identity, last: Option<Hole>, h: Hole) {
    Owns(whole, h) && (last.Some? ==> h.resume < last.value.resume)
  }

  /** Both rows pass the securities table's CHECK, after the last splice. */
  predicate Fits(whole: Identity, last: Option<Hole>, h: Hole) {
    && (whole.firstSeen.Some? ==> whole.firstSeen.value <= h.start + 1)
    && match last
       case None => whole.delisted.Some? ==> h.resume <= whole.delisted.value
       case Some(p) => h.resume <= p.start + 1
  }

  /** What becomes of a hole when its turn comes; Failed ends the command. */
  datatype Turn = Splices | Skips | Fails

  function TurnOf(whole: Identity, blocked: bool, last: Option<Hole>, h: Hole): Turn {
    if !Owned(whole, last, h) || blocked then Skips else if Fits(whole, last, h) then Splices else Fails
  }

  /** The last hole spliced among the first n, and whether one of them failed. */
  datatype Reached = Reached(last: Option<Hole>, failed: bool)

  function Reach(whole: Identity, blocked: bool, holes: seq<Hole>, n: nat): Reached
    requires n <= |holes|
  {
    if n == 0 then Reached(None, false)
    else
      var before := Reach(whole, blocked, holes, n - 1);
      if before.failed then before
      else
        match TurnOf(whole, blocked, before.last, holes[n - 1])
        case Splices => Reached(Some(holes[n - 1]), false)
        case Skips => before
        case Fails => Reached(before.last, true)
  }

  predicate IsSpliced(whole: Identity, blocked: bool, holes: seq<Hole>, k: nat)
    requires k < |holes|
  {
    var before := Reach(whole, blocked, holes, k);
    !before.failed && TurnOf(whole, blocked, before.last, holes[k]) == Splices
  }

  ghost predicate Forward(holes: seq<Hole>) {
    forall i :: 0 <= i < |holes| ==> holes[i].start < holes[i].resume
  }

  /** The query's order. No two holes of a security have the same start. */
  ghost predicate StartsFall(holes: seq<Hole>) {
    forall i, j :: 0 <= i < j < |holes| ==> holes[j].start < holes[i].start
  }

  /** The hole alone could be spliced: first seen by the day after its start, delisted, if at all, no
      earlier than its end. */
  predicate Allowed(whole: Identity, h: Hole) {
    Fits(whole, None, h)
  }

  /** Hole k reaches over an owned one that comes before it. */
  ghost predicate Encloses(whole: Identity, holes: seq<Hole>, k: nat)
    requires k < |holes|
  {
    exists i :: 0 <= i < k && Owns(whole, holes[i]) && holes[i].resume <= holes[k].resume
  }

  /** Hole k ends inside one that comes before it and is spliced if all goes well. */
  ghost predicate Crosses(whole: Identity, holes: seq<Hole>, k: nat)
    requires k < |holes|
  {
    exists i :: 0 <= i < k && Owns(whole, holes[i]) && !Encloses(whole, holes, i)
                && holes[i].start + 1 < holes[k].resume < holes[i].resume
  }

  /** Hole k is taken up, and the table's CHECK forbids it. */
  ghost predicate Forbidden(whole: Identity, holes: seq<Hole>, k: nat)
    requires k < |holes|
  {
    && Owns(whole, holes[k]) && !Encloses(whole, holes, k)
    && (!Allowed(whole, holes[k]) || Crosses(whole, holes, k))
  }

  ghost predicate Stopped(whole: Identity, blocked: bool, holes: seq<Hole>, n: nat)
    requires n <= |holes|
  {
    !blocked && exists i :: 0 <= i < n && Forbidden(whole, holes, i)
  }

  /** `last`, the last of the first n holes that was spliced, has the least end of the owned ones and the
      least start of those that enclose none. */
  ghost predicate IsLast(whole: Identity, holes: seq<Hole>, n: nat, last: Option<Hole>)
    requires n <= |holes|
  {
    match last
    case None => forall i :: 0 <= i < n ==> !Owns(whole, holes[i])
    case Some(p) =>
      && (exists i :: 0 <= i < n && holes[i] == p && Owns(whole, p) && !Encloses(whole, holes, i))
      && (whole.delisted.Some? ==> p.resume <= whole.delisted.value)
      && forall i :: 0 <= i < n && Owns(whole, holes[i]) ==>
           p.resume <= holes[i].resume && (Encloses(whole, holes, i) || p.start <= holes[i].start)
  }

  /** In the query's order the turn of a hole depends on the holes alone. */
  lemma TurnInOrder(whole: Identity, holes: seq<Hole>, k: nat, last: Option<Hole>)
    requires Forward(holes) && StartsFall(holes) && k < |holes| && IsLast(whole, holes, k, last)
    ensures TurnOf(whole, false, last, holes[k])
            == if !Owns(whole, holes[k]) || Encloses(whole, holes, k) then Skips
               else if Forbidden(whole, holes, k) then Fails else Splices
  {
    hide Owns;
    if last.Some? && Owns(whole, holes[k]) && !Encloses(whole, holes, k) {
      var p := last.value;
      var i :| 0 <= i < k && holes[i] == p && Owns(whole, p) && !Encloses(whole, holes, i);
      assert holes[k].resume < p.resume;
      if Crosses(whole, holes, k) {
        var j :| 0 <= j < k && Owns(whole, holes[j]) && !Encloses(whole, holes, j)
                 && holes[j].start + 1 < holes[k].resume < holes[j].resume;
        assert p.start <= holes[j].start;
      }
    }
  }

  lemma LastKept(whole: Identity, holes: seq<Hole>, k: nat, last: Option<Hole>)
    requires Forward(holes) && StartsFall(holes) && k < |holes| && IsLast(whole, holes, k, last)
    requires !Forbidden(whole, holes, k)
    ensures IsLast(whole, holes, k + 1,
                   if Owns(whole, holes[k]) && !Encloses(whole, holes, k) then Some(holes[k]) else last)
  {
    hide Owns;
    if Owns(whole, holes[k]) && !Encloses(whole, holes, k) {
      forall i | 0 <= i < k && Owns(whole, holes[i]) ensures holes[k].resume < holes[i].resume {}
    }
  }

  lemma {:induction false} ReachInOrder(whole: Identity, blocked: bool, holes: seq<Hole>, n: nat)
    requires Forward(holes) && StartsFall(holes) && n <= |holes|
    ensures var r := Reach(whole, blocked, holes, n);
            && (r.failed <==> Stopped(whole, blocked, holes, n))
            && (!blocked && !r.failed ==> IsLast(whole, holes, n, r.last))
  {
    if n > 0 {
      ReachInOrder(whole, blocked, holes, n - 1);
      var before := Reach(whole, blocked, holes, n - 1);
      hide Owns, Fits, Encloses, Forbidden, IsLast;
      if !blocked && !before.failed {
        TurnInOrder(whole, holes, n - 1, before.last);
        if Forbidden(whole, holes, n - 1) {
          ForbiddenIsOwned(whole, holes, n - 1);
        } else {
          LastKept(whole, holes, n - 1, before.last);
        }
      }
    }
  }

  lemma ForbiddenIsOwned(whole: Identity, holes: seq<Hole>, k: nat)
    requires k < |holes| && Forbidden(whole, holes, k)
    ensures Owns(whole, holes[k]) && !Encloses(whole, holes, k)
  {
  }

  /** WHICH HOLES ARE SPLICED. In the query's order a recorded hole is spliced exactly when scored history does
      not block the security, it owned both boundary bars at the start, no owned hole before it lies inside
      it, and no hole up to this one was forbidden; and the command fails exactly when some hole is. */
  lemma SplicedIff(whole: Identity, blocked: bool, holes: seq<Hole>, k: nat)
    requires Forward(holes) && StartsFall(holes) && k < |holes|
    ensures IsSpliced(whole, blocked, holes, k)
            <==> !blocked && Owns(whole, holes[k]) && !Encloses(whole, holes, k)
                 && !Stopped(whole, blocked, holes, k + 1)
    ensures Reach(whole, blocked, holes, |holes|).failed <==> Stopped(whole, blocked, holes, |holes|)
  {
    ReachInOrder(whole, blocked, holes, k);
    ReachInOrder(whole, blocked, holes, |holes|);
    var before := Reach(whole, blocked, holes, k);
    if !blocked && !before.failed {
      TurnInOrder(whole, holes, k, before.last);
    }
    hide Owns, Fits, Encloses, Crosses, Allowed, Reach;
    assert Stopped(whole, blocked, holes, k + 1)
      <==> Stopped(whole, blocked, holes, k) || (!blocked && Forbidden(whole, holes, k));
  }

  /** Any two holes lie apart or one in the other. */
  ghost predicate NestedOrApart(holes: seq<Hole>) {
    forall i, j :: 0 <= i < j < |holes| ==>
      holes[j].resume <= holes[i].start || holes[i].resume <= holes[j].resume
  }

  ghost predicate AllApart(holes: seq<Hole>) {
    forall i, j :: 0 <= i < j < |holes| ==> holes[j].resume <= holes[i].start
  }

  /** Then only the row's own dates can forbid a hole; and where all lie apart, no splice takes a later hole's
      boundary bars away. */
  lemma ForbiddenByDates(whole: Identity, holes: seq<Hole>, k: nat)
    requires Forward(holes) && NestedOrApart(holes) && k < |holes|
    ensures Forbidden(whole, holes, k)
            <==> Owns(whole, holes[k]) && !Encloses(whole, holes, k) && !Allowed(whole, holes[k])
    ensures AllApart(holes) ==> !Encloses(whole, holes, k)
  {
    hide Owns, Fits;
  }

  /** WHY NEWEST FIRST. Among holes that lie apart none is lost: each that the security owned at the start is
      spliced, up to the first that its dates forbid. */
  lemma NoneIsLost(whole: Identity, blocked: bool, holes: seq<Hole>, k: nat)
    requires Forward(holes) && AllApart(holes) && k < |holes|
    ensures IsSpliced(whole, blocked, holes, k)
            <==> !blocked && Owns(whole, holes[k])
                 && forall i :: 0 <= i <= k && Owns(whole, holes[i]) ==> Allowed(whole, holes[i])
  {
    hide Owns, Fits, Encloses, Forbidden, IsSpliced, Allowed;
    SplicedIff(whole, blocked, holes, k);
    forall i | 0 <= i <= k
      ensures !Encloses(whole, holes, i)
      ensures Forbidden(whole, holes, i) <==> Owns(whole, holes[i]) && !Allowed(whole, holes[i])
    {
      ForbiddenByDates(whole, holes, i);
    }
  }

  /** A hole reported before a bar came into it, beside what is left of it: the newer one is spliced and takes
      the older one's end away, also where the older one alone would make the command fail. */
  lemma NestedHoles(symbol: Symbol)
    ensures var holes := [Hole(12, 60), Hole(10, 60)];
            && Forward(holes) && StartsFall(holes) && NestedOrApart(holes)
            && forall seen: Option<int> :: seen in {None, Some(12)} ==>
                 var whole := Identity(symbol, seen, None, [1, 10, 12, 60, 70], {});
                 && Owns(whole, holes[1]) && (Allowed(whole, holes[1]) <==> seen == None)
                 && IsSpliced(whole, false, holes, 0) && !IsSpliced(whole, false, holes, 1)
                 && !Reach(whole, false, holes, 2).failed
  {
    var holes := [Hole(12, 60), Hole(10, 60)];
    forall seen: Option<int> | seen in {None, Some(12)}
      ensures var whole := Identity(symbol, seen, None, [1, 10, 12, 60, 70], {});
              && Owns(whole, holes[1]) && (Allowed(whole, holes[1]) <==> seen == None)
              && IsSpliced(whole, false, holes, 0) && !IsSpliced(whole, false, holes, 1)
              && !Reach(whole, false, holes, 2).failed
    {
      var whole := Identity(symbol, seen, None, [1, 10, 12, 60, 70], {});
      assert whole.bars[1] == 10 && whole.bars[2] == 12 && whole.bars[3] == 60;
      assert Reach(whole, false, holes, 0) == Reached(None, false);
      assert Reach(whole, false, holes, 1) == Reached(Some(holes[0]), false);
    }
  }

  // ---- how recorded holes can lie --------------------------------------------------------------

  /** One audit: the security's bars by then, and the holes it finds long enough, by the bar before. */
  datatype Audit = Audit(bars: set<int>, found: map<int, int>)

  /** The table after some audits; a hole found again at its start is overwritten, none is deleted. */
  ghost function Recorded(audits: seq<Audit>): map<int, int> {
    if audits == [] then map[] else Recorded(audits[..|audits| - 1]) + audits[|audits| - 1].found
  }

  ghost predicate IsHole(bars: set<int>, start: int, resume: int) {
    start in bars && resume in bars && start < resume && forall b :: b in bars ==> !(start < b < resume)
  }

  /** Each audit finds holes of its bars, and bars are only ever added. */
  ghost predicate Growing(audits: seq<Audit>) {
    && (forall i, s :: 0 <= i < |audits| && s in audits[i].found ==> IsHole(audits[i].bars, s, audits[i].found[s]))
    && (forall i, j :: 0 <= i < j < |audits| ==> audits[i].bars <= audits[j].bars)
  }

  /** Recorded holes keep their boundary bars and lie apart or one in the other. */
  ghost predicate Nested(table: map<int, int>, bars: set<int>) {
    && (forall s :: s in table ==> s in bars && table[s] in bars && s < table[s])
    && (forall s, t :: s in table && t in table && s < t ==> table[s] <= t || table[t] <= table[s])
  }

  ghost function BarsNow(audits: seq<Audit>): set<int> {
    if audits == [] then {} else audits[|audits| - 1].bars
  }

  /** As long as bars are only added, that is what any number of audits leaves. */
  lemma {:induction false} AuditsNest(audits: seq<Audit>)
    requires Growing(audits)
    ensures Nested(Recorded(audits), BarsNow(audits))
    decreases |audits|
  {
    if audits != [] {
      var n := |audits| - 1;
      AuditsNest(audits[..n]);
      assert BarsNow(audits[..n]) <= audits[n].bars;
      UpsertNests(Recorded(audits[..n]), BarsNow(audits[..n]), audits[n]);
    }
  }

  lemma UpsertNests(table: map<int, int>, bars: set<int>, now: Audit)
    requires Nested(table, bars) && bars <= now.bars
    requires forall s :: s in now.found ==> IsHole(now.bars, s, now.found[s])
    ensures Nested(table + now.found, now.bars)
  {
    var after := table + now.found;
    forall s, t | s in after && t in after && s < t ensures after[s] <= t || after[t] <= after[s] {
      if s in now.found { assert IsHole(now.bars, s, after[s]); }
      if t in now.found { assert IsHole(now.bars, t, after[t]); }
    }
  }

  /** So what the query lists of them meets the condition above. */
  lemma ListedNest(audits: seq<Audit>, holes: seq<Hole>)
    requires Growing(audits) && StartsFall(holes)
    requires forall i :: 0 <= i < |holes| ==>
               holes[i].start in Recorded(audits) && holes[i].resume == Recorded(audits)[holes[i].start]
    ensures Forward(holes) && NestedOrApart(holes)
  {
    AuditsNest(audits);
    hide Growing, Recorded, BarsNow;
    forall i, j | 0 <= i < j < |holes|
      ensures holes[j].resume <= holes[i].start || holes[i].resume <= holes[j].resume
    {
      assert holes[j].start < holes[i].start;
    }
  }

  /** Oldest first would splice only the first hole it can: its bars are gone for all the others. */
  lemma {:induction false} OldestFirstLosesRest(whole: Identity, holes: seq<Hole>, k: nat)
    requires forall i, j :: 0 <= i < j < |holes| ==> holes[i].resume < holes[j].resume
    requires 0 < k < |holes| && Owns(whole, holes[0])
    ensures !IsSpliced(whole, false, holes, k)
    ensures Reach(whole, false, holes, k)
            == if Allowed(whole, holes[0]) then Reached(Some(holes[0]), false) else Reached(None, true)
    decreases k
  {
    hide Owns, Fits;
    if k == 1 {
      assert Reach(whole, false, holes, 0) == Reached(None, false);
    } else {
      OldestFirstLosesRest(whole, holes, k - 1);
    }
  }

  // ---- the loop ------------------------------------------------------------------------------

  /** What splicing has made of the security, oldest first: the bars in order, the newest identity with
      the delisting and all the actions, neighbours parted at a resumption. */
  ghost predicate Segments(whole: Identity, pieces: seq<Identity>) {
    && pieces != []
    && Bars(pieces) == whole.bars
    && (forall j :: 0 <= j < |pieces| ==> pieces[j].symbol == whole.symbol)
    && pieces[0].firstSeen == whole.firstSeen
    && pieces[|pieces| - 1].delisted == whole.delisted
    && pieces[|pieces| - 1].actions == whole.actions
    && (forall j :: 0 <= j < |pieces| - 1 ==> pieces[j].actions == {} && pieces[j].delisted.Some?)
    && (forall j :: 0 < j < |pieces| ==> pieces[j].bars != [] && pieces[j].firstSeen == Some(pieces[j].bars[0]))
  }

  class AuditedSecurity {
    /** The security and the identities split off it, oldest first. */
    var pieces: seq<Identity>
    /** The disposition of each recorded hole. */
    var verdicts: seq<Disposition>
    /** Scored history refers to the security. */
    const blocked: bool

    constructor (whole: Identity, verdicts: seq<Disposition>, blocked: bool)
      ensures pieces == [whole] && this.verdicts == verdicts && this.blocked == blocked
    {
      pieces, this.verdicts, this.blocked := [whole], verdicts, blocked;
    }

    /** Which holes become spliced, how the command ends, and what the security has become: all its bars,
        actions and the delisting are there, in rows the table allows, also when a failure ends it. */
    method SpliceFromAudit(holes: seq<Hole>, ghost whole: Identity) returns (ending: Ending)
      requires pieces == [whole] && Increasing(whole.bars) && Legal(whole) && |verdicts| == |holes| && Forward(holes)
      modifies this
      ensures |verdicts| == |holes|
      ensures forall k :: 0 <= k < |holes| ==>
                verdicts[k] == if IsSpliced(whole, blocked, holes, k) then Spliced else old(verdicts[k])
      ensures ending == SqlError <==> Reach(whole, blocked, holes, |holes|).failed
      ensures ending == AllSpliced <==> forall k :: 0 <= k < |holes| ==> IsSpliced(whole, blocked, holes, k)
      ensures Segments(whole, pieces) && forall j :: 0 <= j < |pieces| ==> Legal(pieces[j])
      ensures pieces[0].bars == Remaining(whole, Reach(whole, blocked, holes, |holes|).last)
    {
      hide Segments, Cut, Owns, Legal, Fits, Remaining, Reach;
      ghost var start := verdicts;
      ending := AllSpliced;
      OneSegment(whole);
      NothingReached(whole, blocked, holes);
      for n := 0 to |holes|
        invariant |verdicts| == |holes| && ending != SqlError && !Reach(whole, blocked, holes, n).failed
        invariant Dispositions(whole, blocked, holes, start, verdicts, n)
        invariant ending == AllSpliced <==> forall k :: 0 <= k < n ==> IsSpliced(whole, blocked, holes, k)
        invariant Segments(whole, pieces) && pieces != [] && forall j :: 0 <= j < |pieces| ==> Legal(pieces[j])
        invariant IsHead(whole, pieces[0], Reach(whole, blocked, holes, n).last)
      {
        var h := holes[n];
        ghost var last := Reach(whole, blocked, holes, n).last;
        StillOwns(whole, last, pieces[0], h);
        ReachStep(whole, blocked, holes, n);
        if !Owns(pieces[0], h) || blocked {
          assert !IsSpliced(whole, blocked, holes, n);
          ending := SomeSkipped;
          continue;
        }
        StillFits(whole, last, pieces[0], h);
        if !Legal(Before(pieces[0], h)) || !Legal(After(pieces[0], h)) {
          assert !IsSpliced(whole, blocked, holes, n);
          FailsForGood(whole, blocked, holes, n);
          return SqlError;
        }
        SegmentsKept(whole, pieces, h);
        NextHead(whole, last, pieces[0], h);
        pieces := [Before(pieces[0], h), After(pieces[0], h)] + pieces[1..];
        verdicts := verdicts[n := Spliced];
      }
    }
  }

  /** The security's holes have had their turns, from the state it was in. */
  ghost predicate WorkedOff(whole: Identity, blocked: bool, holes: seq<Hole>, was: seq<Disposition>,
                            pieces: seq<Identity>, verdicts: seq<Disposition>)
  {
    && |was| == |verdicts| == |holes|
    && Dispositions(whole, blocked, holes, was, verdicts, |holes|)
    && Segments(whole, pieces) && (forall j :: 0 <= j < |pieces| ==> Legal(pieces[j]))
    && pieces[0].bars == Remaining(whole, Reach(whole, blocked, holes, |holes|).last)
  }

  ghost predicate Fresh(x: AuditedSecurity, whole: Identity, holes: seq<Hole>)
    reads x
  {
    x.pieces == [whole] && Increasing(whole.bars) && Legal(whole) && |x.verdicts| == |holes| && Forward(holes)
  }

  predicate HitsForbidden(x: AuditedSecurity, whole: Identity, holes: seq<Hole>) {
    Reach(whole, x.blocked, holes, |holes|).failed
  }

  predicate EverySpliced(x: AuditedSecurity, whole: Identity, holes: seq<Hole>) {
    forall k :: 0 <= k < |holes| ==> IsSpliced(whole, x.blocked, holes, k)
  }

  /** The whole query, one security after the other. The first security with a forbidden hole ends it: those
      before it are done, it has what was spliced until then, and all later ones are as they were. */
  method SpliceQuery(xs: seq<AuditedSecurity>, holes: seq<seq<Hole>>, ghost wholes: seq<Identity>)
    returns (ending: Ending)
    requires |xs| == |holes| == |wholes| && forall i, j :: 0 <= i < j < |xs| ==> xs[i] != xs[j]
    requires forall i :: 0 <= i < |xs| ==> Fresh(xs[i], wholes[i], holes[i])
    modifies xs
    ensures ending == SqlError <==> exists i :: 0 <= i < |xs| && HitsForbidden(xs[i], wholes[i], holes[i])
    ensures ending == AllSpliced <==> forall i :: 0 <= i < |xs| ==> EverySpliced(xs[i], wholes[i], holes[i])
    ensures forall i :: 0 <= i < |xs| ==>
              if exists j :: 0 <= j < i && HitsForbidden(xs[j], wholes[j], holes[j])
              then unchanged(xs[i])
              else WorkedOff(wholes[i], xs[i].blocked, holes[i], old(xs[i].verdicts), xs[i].pieces, xs[i].verdicts)
  {
    hide HitsForbidden, EverySpliced, WorkedOff, Fresh;
    ending := AllSpliced;
    for n := 0 to |xs|
      invariant ending != SqlError && forall i :: 0 <= i < n ==> !HitsForbidden(xs[i], wholes[i], holes[i])
      invariant ending == AllSpliced <==> forall i :: 0 <= i < n ==> EverySpliced(xs[i], wholes[i], holes[i])
      invariant forall i :: 0 <= i < n ==>
                  WorkedOff(wholes[i], xs[i].blocked, holes[i], old(xs[i].verdicts), xs[i].pieces, xs[i].verdicts)
      invariant forall i :: n <= i < |xs| ==> unchanged(xs[i])
    {
      assert Fresh(xs[n], wholes[n], holes[n]);
      var one := OneOf(xs[n], holes[n], wholes[n]);
      if one == SqlError { return SqlError; }
      if one == SomeSkipped { ending := SomeSkipped; }
    }
  }

  method OneOf(x: AuditedSecurity, holes: seq<Hole>, ghost whole: Identity) returns (ending: Ending)
    requires Fresh(x, whole, holes)
    modifies x
    ensures ending == SqlError <==> HitsForbidden(x, whole, holes)
    ensures ending == AllSpliced <==> EverySpliced(x, whole, holes)
    ensures WorkedOff(whole, x.blocked, holes, old(x.verdicts), x.pieces, x.verdicts)
  {
    hide Segments, Cut, Owns, Legal, Fits, Remaining, Reach, IsSpliced;
    ending := x.SpliceFromAudit(holes, whole);
  }

  /** How the command ends; only the first is exit code 0. */
  datatype Ending = AllSpliced | SomeSkipped | SqlError

  ghost predicate Dispositions(whole: Identity, blocked: bool, holes: seq<Hole>, start: seq<Disposition>,
                               now: seq<Disposition>, n: nat)
    requires |start| == |now| == |holes|
  {
    forall k :: 0 <= k < |holes| ==>
      now[k] == if k < n && IsSpliced(whole, blocked, holes, k) then Spliced else start[k]
  }

  /** The row that still carries the security's id. */
  ghost predicate IsHead(whole: Identity, x: Identity, last: Option<Hole>) {
    && x.firstSeen == whole.firstSeen && x.bars == Remaining(whole, last)
    && x.delisted == if last.Some? then Some(last.value.start + 1) else whole.delisted
  }

  lemma NothingReached(whole: Identity, blocked: bool, holes: seq<Hole>)
    ensures Reach(whole, blocked, holes, 0) == Reached(None, false) && IsHead(whole, whole, None)
  {
  }

  lemma ReachStep(whole: Identity, blocked: bool, holes: seq<Hole>, n: nat)
    requires n < |holes| && !Reach(whole, blocked, holes, n).failed
    ensures var last := Reach(whole, blocked, holes, n).last;
            Reach(whole, blocked, holes, n + 1)
            == match TurnOf(whole, blocked, last, holes[n])
               case Splices => Reached(Some(holes[n]), false)
               case Skips => Reached(last, false)
               case Fails => Reached(last, true)
  {
  }

  /** After a failure nothing more happens. */
  lemma {:induction false} FailsForGood(whole: Identity, blocked: bool, holes: seq<Hole>, n: nat)
    requires n < |holes| && Reach(whole, blocked, holes, n + 1).failed
    ensures forall k :: n < k < |holes| ==> !IsSpliced(whole, blocked, holes, k)
    ensures Reach(whole, blocked, holes, |holes|) == Reach(whole, blocked, holes, n + 1)
    decreases |holes| - n
  {
    if n + 1 < |holes| {
      assert Reach(whole, blocked, holes, n + 2) == Reach(whole, blocked, holes, n + 1);
      FailsForGood(whole, blocked, holes, n + 1);
    }
  }

  ghost function Remaining(whole: Identity, last: Option<Hole>): seq<int> {
    if last.Some? then whole.bars[..Cut(whole.bars, last.value.resume)] else whole.bars
  }

  lemma OneSegment(whole: Identity)
    ensures Segments(whole, [whole])
  {
    assert [whole][1..] == [];
    assert Bars([whole]) == whole.bars + Bars([]);
  }

  /** With increasing bars, exactly the bars before d come before the cut. */
  lemma CutMeans(bars: seq<int>, d: int, b: int)
    requires Increasing(bars)
    ensures b in bars[..Cut(bars, d)] <==> b in bars && b < d
  {
    if b in bars && b < d {
      var i :| 0 <= i < |bars| && bars[i] == b;
      var n := Cut(bars, d);
      assert forall j :: 0 <= j <= i ==> bars[j] <= bars[i];
      assert bars[..n][i] == b;
    }
  }

  lemma StillOwns(whole: Identity, last: Option<Hole>, x: Identity, h: Hole)
    requires Increasing(whole.bars) && IsHead(whole, x, last) && h.start < h.resume
    ensures Owns(x, h) <==> Owned(whole, last, h)
    ensures Increasing(x.bars)
  {
    if last.Some? {
      CutMeans(whole.bars, last.value.resume, h.start);
      CutMeans(whole.bars, last.value.resume, h.resume);
    }
  }

  lemma StillFits(whole: Identity, last: Option<Hole>, x: Identity, h: Hole)
    requires IsHead(whole, x, last)
    ensures Legal(Before(x, h)) && Legal(After(x, h)) <==> Fits(whole, last, h)
  {
    hide Cut, Remaining;
  }

  lemma NextHead(whole: Identity, last: Option<Hole>, x: Identity, h: Hole)
    requires Increasing(whole.bars) && IsHead(whole, x, last) && Owned(whole, last, h)
    ensures IsHead(whole, Before(x, h), Some(h))
  {
    CutAgain(whole, last, h);
  }

  lemma CutIs(bars: seq<int>, d: int, n: nat)
    requires Increasing(bars) && n <= |bars|
    requires (forall i :: 0 <= i < n ==> bars[i] < d) && (n < |bars| ==> bars[n] >= d)
    ensures Cut(bars, d) == n
  {
  }

  lemma CutAgain(whole: Identity, last: Option<Hole>, h: Hole)
    requires Increasing(whole.bars) && (last.Some? ==> h.resume < last.value.resume)
    ensures var left := Remaining(whole, last); left[..Cut(left, h.resume)] == whole.bars[..Cut(whole.bars, h.resume)]
  {
    var left := Remaining(whole, last);
    var c := Cut(left, h.resume);
    if last.Some? && c == |left| < |whole.bars| {
      assert whole.bars[c] >= last.value.resume;
    }
    assert forall i :: 0 <= i < |left| ==> left[i] == whole.bars[i];
    CutIs(whole.bars, h.resume, c);
    assert left[..c] == whole.bars[..c];
  }

  lemma SegmentsKept(whole: Identity, pieces: seq<Identity>, h: Hole)
    requires Segments(whole, pieces) && Increasing(pieces[0].bars) && Owns(pieces[0], h)
    ensures Segments(whole, [Before(pieces[0], h), After(pieces[0], h)] + pieces[1..])
  {
    BarsKept(pieces, h);
    ResumesThere(pieces[0], h);
    Replaced(whole, pieces, Before(pieces[0], h), After(pieces[0], h));
  }

  ghost predicate Halves(x: Identity, older: Identity, newer: Identity) {
    && newer.bars != [] && newer.firstSeen == Some(newer.bars[0])
    && older.symbol == newer.symbol == x.symbol && older.firstSeen == x.firstSeen
    && older.delisted.Some? && older.actions == {}
    && newer.delisted == x.delisted && newer.actions == x.actions
  }

  lemma Replaced(whole: Identity, pieces: seq<Identity>, older: Identity, newer: Identity)
    requires Segments(whole, pieces) && Halves(pieces[0], older, newer)
    requires Bars([older, newer] + pieces[1..]) == Bars(pieces)
    ensures Segments(whole, [older, newer] + pieces[1..])
  {
    hide Bars;
    var next := [older, newer] + pieces[1..];
    forall j | 0 < j < |next| ensures next[j].bars != [] && next[j].firstSeen == Some(next[j].bars[0]) {
      if j > 1 { assert next[j] == pieces[j - 1]; }
    }
    forall j | 0 <= j < |next| - 1 ensures next[j].actions == {} && next[j].delisted.Some? {
      if j > 0 { assert next[j + 1] == pieces[j]; }
    }
  }

  lemma BarsKept(pieces: seq<Identity>, h: Hole)
    requires pieces != []
    ensures Bars([Before(pieces[0], h), After(pieces[0], h)] + pieces[1..]) == Bars(pieces)
  {
    var x := pieces[0];
    var older, newer := Before(x, h), After(x, h);
    assert x.bars == older.bars + newer.bars;
    BarsOfTwo(older, newer, pieces[1..]);
    hide Bars, Before, After, Cut;
    assert Bars(pieces) == x.bars + Bars(pieces[1..]) by { BarsOfOne(pieces); }
  }

  lemma BarsOfOne(pieces: seq<Identity>)
    requires pieces != []
    ensures Bars(pieces) == pieces[0].bars + Bars(pieces[1..])
  {
  }

  lemma BarsOfTwo(older: Identity, newer: Identity, rest: seq<Identity>)
    ensures Bars([older, newer] + rest) == older.bars + newer.bars + Bars(rest)
  {
    var next := [older, newer] + rest;
    assert next[1..] == [newer] + rest && next[1..][1..] == rest;
    BarsOfOne(next);
    BarsOfOne(next[1..]);
  }

  /** What the two rows of one splice look like. */
  lemma ResumesThere(x: Identity, h: Hole)
    requires Increasing(x.bars) && Owns(x, h)
    ensures Halves(x, Before(x, h), After(x, h))
  {
    var i :| 0 <= i < |x.bars| && x.bars[i] == h.resume;
    assert forall j :: 0 <= j < i ==> x.bars[j] < x.bars[i];
    CutIs(x.bars, h.resume, i);
  }

  /** The delisting date covers the identity's own bars exactly when nothing was loaded into the hole
      since it was recorded; a filled hole is spliced all the same. */
  lemma DelistedAfterItsBars(x: Identity, h: Hole)
    requires Increasing(x.bars) && h.start < h.resume && Owns(x, h)
    ensures (forall b :: b in Before(x, h).bars ==> b < Before(x, h).delisted.value)
            <==> forall b :: b in x.bars ==> !(h.start < b < h.resume)
  {
    forall b ensures b in Before(x, h).bars <==> b in x.bars && b < h.resume {
      CutMeans(x.bars, h.resume, b);
    }
  }
}
