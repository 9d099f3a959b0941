/** The disposition of an audited hole in db/load_delistings.py: classification, the merge of a re-audit,
    and which verdicts survive every merge. The provider pass, which rewrites the dispositions it is told
    to, is not part of it. */
module GapAudit {

  datatype Disposition =
    | PendingReview | IdentityBreak | ProviderUnresolvable | SplitMissing
    | HaltConsistent | ContinuityConfirmed | Spliced | HaltAccepted | NonCommonInstrument

  /** The source's list of resolved dispositions. */
  predicate Terminal(d: Disposition) {
    d in {HaltConsistent, ContinuityConfirmed, Spliced, HaltAccepted, NonCommonInstrument}
  }

  predicate InBand(ratio: real, low: real, high: real) {
    !(ratio < low || ratio > high)
  }

  /** What a detection says on its own. */
  function Detected(ratio: real, low: real, high: real): Disposition {
    if InBand(ratio, low, high) then HaltConsistent else PendingReview
  }

  /** The upsert's CASE: the stored disposition against the newly detected one. */
  function Merge(stored: Disposition, detected: Disposition): Disposition {
    if stored in {Spliced, HaltAccepted} then stored
    else if detected == HaltConsistent && stored == ContinuityConfirmed then stored
    else if detected == HaltConsistent then HaltConsistent
    else if stored in {IdentityBreak, ProviderUnresolvable, SplitMissing, ContinuityConfirmed} then stored
    else detected
  }

  /** Re-auditing one hole again and again, each time with that day's cross-gap ratio. */
  function Reaudited(stored: Disposition, ratios: seq<real>, low: real, high: real): Disposition {
    if ratios == [] then stored
    else Merge(Reaudited(stored, ratios[..|ratios| - 1], low, high), Detected(ratios[|ratios| - 1], low, high))
  }

  /** The verdicts no merge can move. */
  predicate Absorbing(d: Disposition) {
    d in {Spliced, HaltAccepted, ContinuityConfirmed}
  }

  lemma {:induction false} AbsorbingStays(d: Disposition, ratios: seq<real>, low: real, high: real)
    requires Absorbing(d)
    ensures Reaudited(d, ratios, low, high) == d
    decreases |ratios|
  {
    if ratios != [] { AbsorbingStays(d, ratios[..|ratios| - 1], low, high); }
  }

  /** Exactly three verdicts survive every merge, whatever the ratios; so of the terminal ones
      `halt_consistent` and `non_common_instrument` do not: one ratio outside the band reopens them. */
  lemma AbsorbingIff(d: Disposition, low: real, high: real)
    requires low <= high
    ensures Absorbing(d) <==> forall ratios :: Reaudited(d, ratios, low, high) == d
    ensures Terminal(d) && !Absorbing(d) ==> Reaudited(d, [high + 1.0], low, high) == PendingReview
  {
    if Absorbing(d) {
      forall ratios ensures Reaudited(d, ratios, low, high) == d { AbsorbingStays(d, ratios, low, high); }
    } else {
      OneAudit(d, high + 1.0, low, high);
      OneAudit(d, low, low, high);
    }
  }

  lemma OneAudit(d: Disposition, ratio: real, low: real, high: real)
    ensures Reaudited(d, [ratio], low, high) == Merge(d, Detected(ratio, low, high))
  {
    assert [ratio][..0] == [];
  }

  /** THE VERDICT OF A HISTORY of audits on a hole not absorbed: settled as a halt by a ratio inside the band in
      the last audit; else a found break, an unresolvable one or a missing split stays as long as no ratio ever
      was inside; and anything else is to be reviewed. */
  lemma {:induction false} ReauditedIs(d: Disposition, ratios: seq<real>, low: real, high: real)
    requires ratios != [] && d !in {Spliced, HaltAccepted, ContinuityConfirmed}
    ensures Reaudited(d, ratios, low, high)
            == if low <= ratios[|ratios| - 1] <= high then HaltConsistent
               else if d in {IdentityBreak, ProviderUnresolvable, SplitMissing}
                       && forall i :: 0 <= i < |ratios| ==> !(low <= ratios[i] <= high)
               then d else PendingReview
    decreases |ratios|
  {
    var n := |ratios| - 1;
    if n > 0 {
      ReauditedIs(d, ratios[..n], low, high);
      assert forall i :: 0 <= i < n ==> ratios[..n][i] == ratios[i];
      assert (forall i :: 0 <= i < n ==> !(low <= ratios[..n][i] <= high)) ==>
             forall i :: 0 <= i < n ==> !(low <= ratios[i] <= high);
    } else {
      OneAudit(d, ratios[0], low, high);
      assert ratios == [ratios[0]];
    }
  }

  /** Resolution over a whole history of audits: a hole not already absorbed is resolved after the last
      audit exactly when that audit saw a ratio inside the band. */
  lemma {:induction false} ResolvedIffLastInBand(d: Disposition, ratios: seq<real>, low: real, high: real)
    requires ratios != [] && !Absorbing(d)
    ensures !Absorbing(Reaudited(d, ratios, low, high))
    ensures Terminal(Reaudited(d, ratios, low, high)) <==> InBand(ratios[|ratios| - 1], low, high)
    decreases |ratios|
  {
    if |ratios| > 1 { ResolvedIffLastInBand(d, ratios[..|ratios| - 1], low, high); }
  }
}
