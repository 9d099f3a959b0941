/** Rolling-window admission over a queue of grant stamps: the discipline shared by the limiters of
    backend/app/ratelimit.py and the pacing gate of src/fmp.py.

    Stamps are reals (seconds of a clock). A limiter reads the clock BEFORE it takes its lock, so the
    stamps of consecutive calls may be out of order; `InOrder(stamps, skew)` bounds by how much. */
module RollingWindow {

  /** How many grants the popleft loop drops, given that the first `from` have gone: grants leave
      from the front while they are at or before the cutoff. */
  function Expired(q: seq<real>, cutoff: real, from: nat): (n: nat)
    requires from <= |q|
    ensures from <= n <= |q|
    ensures forall i :: from <= i < n ==> q[i] <= cutoff
    ensures n < |q| ==> q[n] > cutoff
    decreases |q| - from
  {
    if from < |q| && q[from] <= cutoff then Expired(q, cutoff, from + 1) else from
  }

  function Prune(q: seq<real>, cutoff: real): seq<real> {
    q[Expired(q, cutoff, 0)..]
  }

  /** Python's int(): truncation toward zero. */
  function Truncate(x: real): int {
    if x >= 0.0 then x.Floor else -((-x).Floor)
  }

  /** The queue a call leaves and, for a refusal, the life its oldest grant still has. */
  datatype Verdict = Admitted(queue: seq<real>) | Refused(queue: seq<real>, remaining: real)
  {
    /** What the caller is told: 0, or the seconds to wait. */
    function Seconds(): int {
      if Admitted? then 0 else Truncate(remaining) + 1
    }
  }

  function Check(q: seq<real>, maxRequests: int, window: real, now: real): Verdict {
    if maxRequests <= 0 || window <= 0.0 then Admitted(q)
    else
      var kept := Prune(q, now - window);
      if |kept| >= maxRequests then Refused(kept, kept[0] + window - now)
      else Admitted(kept + [now])
  }

  /** What a run leaves behind: the pruned queue, and the full log of admission stamps. */
  datatype History = History(queue: seq<real>, log: seq<real>)

  ghost function Step(h: History, maxRequests: int, window: real, now: real): History {
    var v := Check(h.queue, maxRequests, window, now);
    History(v.queue, if v.Admitted? then h.log + [now] else h.log)
  }

  ghost function Run(stamps: seq<real>, maxRequests: int, window: real): History {
    if stamps == [] then History([], [])
    else Step(Run(stamps[..|stamps| - 1], maxRequests, window), maxRequests, window, stamps[|stamps| - 1])
  }

  /** No stamp is more than `skew` behind an earlier one; with skew 0 the stamps are monotone. */
  ghost predicate InOrder(stamps: seq<real>, skew: real) {
    forall i, j :: 0 <= i < j < |stamps| ==> stamps[i] - skew <= stamps[j]
  }

  /** How many stamps lie in (lo, hi]. */
  ghost function Count(log: seq<real>, lo: real, hi: real): nat {
    if log == [] then 0
    else Count(log[..|log| - 1], lo, hi) + (if lo < log[|log| - 1] <= hi then 1 else 0)
  }

  // ---- one call ----------------------------------------------------------------------------

  lemma CheckMeans(q: seq<real>, maxRequests: int, window: real, now: real)
    requires maxRequests > 0 && window > 0.0
    ensures var n := Expired(q, now - window, 0);
            Check(q, maxRequests, window, now)
            == if |q| - n < maxRequests then Admitted(q[n..] + [now]) else Refused(q[n..], q[n] + window - now)
  {
  }

  /** ONE CALL, in full. Without a budget or a window it is let through and nothing is kept. Otherwise the grants
      at the front that are at least a window old go; if fewer than the budget stay the call is granted and
      kept; else nothing is added, and the seconds told are the least whole number, 1 or more, above what
      the oldest grant kept has left. */
  lemma CheckIs(q: seq<real>, maxRequests: int, window: real, now: real) returns (n: nat)
    ensures n <= |q|
    ensures var v := Check(q, maxRequests, window, now);
            if maxRequests <= 0 || window <= 0.0 then v.Admitted? && v.queue == q && v.Seconds() == 0
            else
              && (forall i :: 0 <= i < n ==> q[i] <= now - window) && (n < |q| ==> q[n] > now - window)
              && if |q| - n < maxRequests then v.Admitted? && v.queue == q[n..] + [now] && v.Seconds() == 0
                 else v.Refused? && v.queue == q[n..] && v.Seconds() >= 1
                      && (v.Seconds() - 1) as real <= q[n] + window - now < v.Seconds() as real
  {
    n := Expired(q, now - window, 0);
    if maxRequests > 0 && window > 0.0 {
      CheckMeans(q, maxRequests, window, now);
      SecondsMean(q, maxRequests, window, now);
    }
  }

  /** The seconds returned are 0 exactly on admission; a refusal names the least whole number of
      seconds, at least 1, strictly above the remaining life of the oldest grant kept. */
  lemma SecondsMean(q: seq<real>, maxRequests: int, window: real, now: real)
    requires maxRequests > 0 && window > 0.0
    ensures var v := Check(q, maxRequests, window, now);
            if v.Admitted? then v.Seconds() == 0
            else v.Seconds() >= 1 && (v.Seconds() - 1) as real <= v.remaining < v.Seconds() as real
  {
    CheckMeans(q, maxRequests, window, now);
  }

  lemma ExpiredTwice(q: seq<real>, c1: real, c2: real)
    requires c1 <= c2
    ensures Prune(Prune(q, c1), c2) == Prune(q, c2)
  {
    var n := Expired(q, c1, 0);
    var kept := q[n..];
    var m := Expired(kept, c2, 0);
    forall i | 0 <= i < n + m ensures q[i] <= c2 {
      if i >= n { assert q[i] == kept[i - n]; }
    }
    assert n + m < |q| ==> q[n + m] == kept[m];
    ExpiredIs(q, c2, n + m, 0);
    assert kept[m..] == q[n + m..];
  }

  lemma {:induction false} ExpiredIs(q: seq<real>, cutoff: real, n: nat, from: nat)
    requires from <= n <= |q|
    requires forall i :: from <= i < n ==> q[i] <= cutoff
    requires n < |q| ==> q[n] > cutoff
    ensures Expired(q, cutoff, from) == n
    decreases n - from
  {
    if from < n {
      ExpiredIs(q, cutoff, n, from + 1);
    }
  }

  /** A refused call leaves no trace: every later call, and the queue after it, is as if the refused
      call had never been made. So hammering while blocked neither shortens nor lengthens the wait. */
  lemma RefusalLeavesNoTrace(q: seq<real>, maxRequests: int, window: real, now: real, later: real)
    requires maxRequests > 0 && window > 0.0 && now <= later
    requires Check(q, maxRequests, window, now).Refused?
    ensures Check(Check(q, maxRequests, window, now).queue, maxRequests, window, later)
            == Check(q, maxRequests, window, later)
  {
    RefusedQueue(q, maxRequests, window, now);
    hide Check, Prune;
    PruneFirst(q, maxRequests, window, now - window, later);
  }

  lemma RefusedQueue(q: seq<real>, maxRequests: int, window: real, now: real)
    requires Check(q, maxRequests, window, now).Refused?
    ensures Check(q, maxRequests, window, now).queue == Prune(q, now - window)
  {
  }

  lemma PruneFirst(q: seq<real>, maxRequests: int, window: real, cutoff: real, now: real)
    requires maxRequests > 0 && window > 0.0 && cutoff <= now - window
    ensures Check(Prune(q, cutoff), maxRequests, window, now) == Check(q, maxRequests, window, now)
  {
    ExpiredTwice(q, cutoff, now - window);
    SamePruneSameVerdict(Prune(q, cutoff), q, maxRequests, window, now);
  }

  lemma SamePruneSameVerdict(p: seq<real>, q: seq<real>, maxRequests: int, window: real, now: real)
    requires maxRequests > 0 && window > 0.0 && Prune(p, now - window) == Prune(q, now - window)
    ensures Check(p, maxRequests, window, now) == Check(q, maxRequests, window, now)
  {
  }

  /** When a refused caller comes back, after the told seconds or at any later reading, with no admission in
      between, it is admitted if and only if every grant up to the one standing `maxRequests` places from
      the end of the queue has left the window by then; for any queue, in order or not. */
  lemma RetryAdmittedIff(q: seq<real>, maxRequests: int, window: real, now: real, later: real)
    requires maxRequests > 0 && window > 0.0 && now <= later
    requires Check(q, maxRequests, window, now).Refused?
    ensures Check(Check(q, maxRequests, window, now).queue, maxRequests, window, later).Admitted?
            <==> forall i :: 0 <= i <= |q| - maxRequests ==> q[i] <= later - window
  {
    RefusalLeavesNoTrace(q, maxRequests, window, now, later);
    AdmittedIffOldEnough(q, maxRequests, window, later);
  }

  lemma AdmittedIffOldEnough(q: seq<real>, maxRequests: int, window: real, now: real)
    requires maxRequests > 0 && window > 0.0
    ensures Check(q, maxRequests, window, now).Admitted?
            <==> forall i :: 0 <= i <= |q| - maxRequests ==> q[i] <= now - window
  {
    CheckMeans(q, maxRequests, window, now);
  }

  /** Under one fixed budget a queue never holds more than `maxRequests` grants (see RunKeeps), and
      then the promise always holds, at any later time and for any order of stamps. */
  lemma RetryAdmitted(q: seq<real>, maxRequests: int, window: real, now: real, later: real)
    requires maxRequests > 0 && window > 0.0 && |q| <= maxRequests
    requires Check(q, maxRequests, window, now).Refused?
    requires later >= now + Check(q, maxRequests, window, now).Seconds() as real
    ensures Check(Check(q, maxRequests, window, now).queue, maxRequests, window, later).Admitted?
  {
    SecondsMean(q, maxRequests, window, now);
    RefusalLeavesNoTrace(q, maxRequests, window, now, later);
  }

  /** The promise fails once the budget is lowered between calls: three grants in the queue, a call
      with budget 1 is told 1 second and is refused again after it. */
  lemma LoweredBudgetBreaksRetry()
    ensures var q := [100.0, 105.0, 109.5];
            Check(q, 1, 10.0, 109.5).Refused? && Check(q, 1, 10.0, 109.5).Seconds() == 1
            && Check(Check(q, 1, 10.0, 109.5).queue, 1, 10.0, 110.5).Refused?
  {
    var q := [100.0, 105.0, 109.5];
    ExpiredIs(q, 99.5, 0, 0);
    SecondsMean(q, 1, 10.0, 109.5);
    RetryAdmittedIff(q, 1, 10.0, 109.5, 110.5);
    assert q[2] > 110.5 - 10.0;
  }

  // ---- whole runs --------------------------------------------------------------------------

  /** What every step keeps: the queue is the newest part of the full log and within budget, and
      whatever the log has beyond it had already left the window of some earlier call. */
  ghost predicate Kept(h: History, stamps: seq<real>, maxRequests: int, window: real) {
    && |h.queue| <= maxRequests && |h.queue| <= |h.log|
    && (forall i :: 0 <= i < |h.queue| ==> h.queue[i] == h.log[|h.log| - |h.queue| + i])
    && (forall i :: 0 <= i < |h.log| - |h.queue| ==> Left(h.log[i] + window, stamps))
    && (forall i :: 0 <= i < |h.log| ==> h.log[i] in stamps)
  }

  ghost predicate Left(deadline: real, stamps: seq<real>) {
    exists k :: 0 <= k < |stamps| && deadline <= stamps[k]
  }

  lemma StepKeeps(h: History, stamps: seq<real>, maxRequests: int, window: real, now: real)
    requires maxRequests > 0 && window > 0.0 && Kept(h, stamps, maxRequests, window)
    ensures Kept(Step(h, maxRequests, window, now), stamps + [now], maxRequests, window)
  {
    CheckMeans(h.queue, maxRequests, window, now);
    var n := Expired(h.queue, now - window, 0);
    var h' := Step(h, maxRequests, window, now);
    assert |h'.log| - |h'.queue| == |h.log| - |h.queue| + n;
    forall i | 0 <= i < |h'.log| - |h'.queue| ensures Left(h'.log[i] + window, stamps + [now]) {
      DroppedLeft(h, stamps, maxRequests, window, now, i);
    }
  }

  lemma DroppedLeft(h: History, stamps: seq<real>, maxRequests: int, window: real, now: real, i: nat)
    requires Kept(h, stamps, maxRequests, window) && i < |h.log| - |h.queue| + Expired(h.queue, now - window, 0)
    ensures Left(h.log[i] + window, stamps + [now])
  {
    if i < |h.log| - |h.queue| {
      assert Left(h.log[i] + window, stamps);
      var k :| 0 <= k < |stamps| && h.log[i] + window <= stamps[k];
      assert (stamps + [now])[k] == stamps[k];
    } else {
      assert h.log[i] == h.queue[i - (|h.log| - |h.queue|)];
      assert (stamps + [now])[|stamps|] == now;
    }
  }

  /** So the queue holds at most `maxRequests` stamps after every run, in whatever order they come. */
  lemma {:induction false} RunKeeps(stamps: seq<real>, maxRequests: int, window: real)
    requires maxRequests > 0 && window > 0.0
    ensures Kept(Run(stamps, maxRequests, window), stamps, maxRequests, window)
    decreases |stamps|
  {
    if stamps != [] {
      var n := |stamps| - 1;
      var before := stamps[..n];
      assert before + [stamps[n]] == stamps;
      RunKeeps(before, maxRequests, window);
      hide Kept, Run;
      OneMoreKeeps(before, maxRequests, window, stamps[n]);
    }
  }

  lemma OneMoreKeeps(stamps: seq<real>, maxRequests: int, window: real, now: real)
    requires maxRequests > 0 && window > 0.0 && Kept(Run(stamps, maxRequests, window), stamps, maxRequests, window)
    ensures Kept(Run(stamps + [now], maxRequests, window), stamps + [now], maxRequests, window)
  {
    hide Kept, Run, Step;
    RunAppend(stamps, now, maxRequests, window);
    StepKeeps(Run(stamps, maxRequests, window), stamps, maxRequests, window, now);
  }

  lemma {:induction false} RunAppend(stamps: seq<real>, now: real, maxRequests: int, window: real)
    ensures Run(stamps + [now], maxRequests, window) == Step(Run(stamps, maxRequests, window), maxRequests, window, now)
  {
    assert (stamps + [now])[..|stamps|] == stamps;
  }

  lemma {:induction false} CountSplit(log: seq<real>, lo: real, hi: real, stale: nat)
    requires stale <= |log| && forall i :: 0 <= i < stale ==> log[i] <= lo
    ensures Count(log, lo, hi) <= |log| - stale
    ensures (forall i :: stale <= i < |log| ==> lo < log[i] <= hi) ==> Count(log, lo, hi) == |log| - stale
    decreases |log|
  {
    if |log| > 0 {
      CountSplit(log[..|log| - 1], lo, hi, if stale < |log| then stale else stale - 1);
    }
  }

  /** Everything the log holds beyond the pruned queue is too old for the window of this call. */
  lemma StaleEntry(h: History, stamps: seq<real>, maxRequests: int, window: real, skew: real, now: real, i: nat)
    requires Kept(h, stamps, maxRequests, window) && skew >= 0.0
    requires forall k :: 0 <= k < |stamps| ==> stamps[k] - skew <= now
    requires i < |h.log| - |h.queue| + Expired(h.queue, now - window, 0)
    ensures h.log[i] <= now - window + skew
  {
    if i < |h.log| - |h.queue| {
      assert Left(h.log[i] + window, stamps);
    } else {
      assert h.log[i] == h.queue[i - (|h.log| - |h.queue|)];
    }
  }

  lemma FreshEntry(h: History, stamps: seq<real>, maxRequests: int, window: real, now: real, i: nat)
    requires Kept(h, stamps, maxRequests, window) && InOrder(h.log, 0.0)
    requires forall k :: 0 <= k < |stamps| ==> stamps[k] <= now
    requires |h.log| - |h.queue| + Expired(h.queue, now - window, 0) <= i < |h.log|
    ensures now - window < h.log[i] <= now
  {
    assert h.log[i] in stamps;
    var n := Expired(h.queue, now - window, 0);
    var oldest := |h.log| - |h.queue| + n;
    assert h.queue[n] == h.log[oldest];
    if oldest < i { assert h.log[oldest] - 0.0 <= h.log[i]; }
  }

  lemma StepWithinWindow(h: History, stamps: seq<real>, maxRequests: int, window: real, skew: real, now: real, lo: real)
    requires maxRequests > 0 && window > 0.0 && Kept(h, stamps, maxRequests, window) && skew >= 0.0
    requires forall k :: 0 <= k < |stamps| ==> stamps[k] - skew <= now
    requires Count(h.log, lo, lo + window - skew) <= maxRequests
    ensures Count(Step(h, maxRequests, window, now).log, lo, lo + window - skew) <= maxRequests
  {
    CheckMeans(h.queue, maxRequests, window, now);
    CountAppend(h.log, now, lo, lo + window - skew);
    var n := Expired(h.queue, now - window, 0);
    hide Count, Expired, Check;
    if |h.queue| - n < maxRequests && lo < now <= lo + window - skew {
      var stale := |h.log| - |h.queue| + n;
      forall i | 0 <= i < stale ensures h.log[i] <= lo {
        StaleEntry(h, stamps, maxRequests, window, skew, now, i);
      }
      CountSplit(h.log, lo, lo + window - skew, stale);
    }
  }

  /** THE BUDGET. In every run of calls whose stamps are out of order by at most `skew`, no window of
      length `window - skew` holds more than `maxRequests` admissions. With monotone stamps (skew 0)
      this is the documented rolling-window cap. CapHoldsIff below says where it is tight: everywhere but
      at a budget of one. */
  lemma {:induction false} WindowNeverExceeded(stamps: seq<real>, maxRequests: int, window: real, skew: real, lo: real)
    requires maxRequests > 0 && window > 0.0 && skew >= 0.0 && InOrder(stamps, skew)
    ensures Count(Run(stamps, maxRequests, window).log, lo, lo + window - skew) <= maxRequests
    decreases |stamps|
  {
    if stamps != [] {
      var n := |stamps| - 1;
      WindowNeverExceeded(stamps[..n], maxRequests, window, skew, lo);
      RunKeeps(stamps[..n], maxRequests, window);
      StepWithinWindow(Run(stamps[..n], maxRequests, window), stamps[..n], maxRequests, window, skew, stamps[n], lo);
    }
  }

  lemma {:induction false} LogInOrder(stamps: seq<real>, maxRequests: int, window: real)
    requires maxRequests > 0 && window > 0.0 && InOrder(stamps, 0.0)
    ensures InOrder(Run(stamps, maxRequests, window).log, 0.0)
    decreases |stamps|
  {
    if stamps != [] {
      var n := |stamps| - 1;
      LogInOrder(stamps[..n], maxRequests, window);
      RunKeeps(stamps[..n], maxRequests, window);
      LogStays(Run(stamps[..n], maxRequests, window), stamps[..n], maxRequests, window, stamps[n]);
    }
  }

  lemma LogStays(h: History, stamps: seq<real>, maxRequests: int, window: real, now: real)
    requires Kept(h, stamps, maxRequests, window) && InOrder(h.log, 0.0)
    requires forall k :: 0 <= k < |stamps| ==> stamps[k] <= now
    ensures InOrder(Step(h, maxRequests, window, now).log, 0.0)
  {
    forall i | 0 <= i < |h.log| ensures h.log[i] - 0.0 <= now {
      assert h.log[i] in stamps;
    }
  }

  /** With monotone stamps the pruned queue loses nothing: a call is admitted exactly when the full,
      never pruned admission log has fewer than `maxRequests` stamps in the window ending now. */
  lemma AdmitsAsFullLog(stamps: seq<real>, maxRequests: int, window: real, now: real)
    requires maxRequests > 0 && window > 0.0 && InOrder(stamps, 0.0)
    requires forall k :: 0 <= k < |stamps| ==> stamps[k] <= now
    ensures var h := Run(stamps, maxRequests, window);
            Check(h.queue, maxRequests, window, now).Admitted? <==> Count(h.log, now - window, now) < maxRequests
  {
    RunKeeps(stamps, maxRequests, window);
    LogInOrder(stamps, maxRequests, window);
    QueueLosesNothing(Run(stamps, maxRequests, window), stamps, maxRequests, window, now);
  }

  lemma QueueLosesNothing(h: History, stamps: seq<real>, maxRequests: int, window: real, now: real)
    requires maxRequests > 0 && window > 0.0 && Kept(h, stamps, maxRequests, window) && InOrder(h.log, 0.0)
    requires forall k :: 0 <= k < |stamps| ==> stamps[k] <= now
    ensures Check(h.queue, maxRequests, window, now).Admitted? <==> Count(h.log, now - window, now) < maxRequests
  {
    var n := Expired(h.queue, now - window, 0);
    var stale := |h.log| - |h.queue| + n;
    forall i | 0 <= i < stale ensures h.log[i] <= now - window {
      StaleEntry(h, stamps, maxRequests, window, 0.0, now, i);
    }
    forall i | stale <= i < |h.log| ensures now - window < h.log[i] <= now {
      FreshEntry(h, stamps, maxRequests, window, now, i);
    }
    CountSplit(h.log, now - window, now, stale);
    CheckMeans(h.queue, maxRequests, window, now);
  }

  // ---- exactly how long a window is safe ---------------------------------------------------

  /** With a budget of one the queue holds the last grant, so grants are a window apart in any order of
      stamps. */
  lemma {:induction false} SingleGrants(stamps: seq<real>, window: real)
    requires window > 0.0
    ensures Spaced(Run(stamps, 1, window), window)
    decreases |stamps|
  {
    if stamps != [] {
      var n := |stamps| - 1;
      SingleGrants(stamps[..n], window);
      SingleStep(Run(stamps[..n], 1, window), stamps[n], window);
    }
  }

  ghost predicate Spaced(h: History, window: real) {
    && h.queue == (if h.log == [] then [] else [h.log[|h.log| - 1]])
    && forall i, j :: 0 <= i < j < |h.log| ==> h.log[j] - h.log[i] >= window
  }

  lemma SingleStep(h: History, now: real, window: real)
    requires window > 0.0 && Spaced(h, window)
    ensures Spaced(Step(h, 1, window, now), window)
  {
    CheckMeans(h.queue, 1, window, now);
    ExpiredIs(h.queue, now - window, if h.log != [] && h.queue[0] <= now - window then 1 else 0, 0);
    hide Expired, Check;
    var next := Step(h, 1, window, now);
    if next.log != h.log && h.log != [] {
      var last := |h.log| - 1;
      assert h.log[last] <= now - window;
      forall i | 0 <= i <= last ensures now - h.log[i] >= window {
        if i < last { assert h.log[last] - h.log[i] >= window; }
      }
    }
  }

  lemma {:induction false} CountApart(log: seq<real>, window: real, lo: real, len: real)
    requires window > 0.0 && len <= window
    requires forall i, j :: 0 <= i < j < |log| ==> log[j] - log[i] >= window
    ensures Count(log, lo, lo + len) <= 1
    ensures Count(log, lo, lo + len) == 1 ==> exists i :: 0 <= i < |log| && lo < log[i] <= lo + len
    decreases |log|
  {
    if log != [] {
      var n := |log| - 1;
      CountApart(log[..n], window, lo, len);
      if Count(log[..n], lo, lo + len) == 1 {
        var i :| 0 <= i < n && lo < log[..n][i] <= lo + len;
        assert log[i] == log[..n][i];
        assert log[n] - log[i] >= window;
      }
    }
  }

  function Zeros(n: nat): (z: seq<real>)
    ensures |z| == n && forall i :: 0 <= i < n ==> z[i] == 0.0
  {
    if n == 0 then [] else Zeros(n - 1) + [0.0]
  }

  lemma {:induction false} ZerosAdmitted(n: nat, maxRequests: int, window: real)
    requires n <= maxRequests && maxRequests > 0 && window > 0.0
    ensures Run(Zeros(n), maxRequests, window) == History(Zeros(n), Zeros(n))
  {
    if n > 0 {
      ZerosAdmitted(n - 1, maxRequests, window);
      RunAppend(Zeros(n - 1), 0.0, maxRequests, window);
      CheckMeans(Zeros(n - 1), maxRequests, window, 0.0);
      ExpiredIs(Zeros(n - 1), -window, 0, 0);
    }
  }

  /** The whole budget at 0, one call when it has just left the window, and for a budget of two or more a
      late call stamped `late` before that one. */
  function LateRun(maxRequests: nat, window: real, late: real): seq<real> {
    Zeros(maxRequests) + [window] + if maxRequests == 1 then [] else [window - late]
  }

  lemma Admits(stamps: seq<real>, q: seq<real>, n: nat, now: real, maxRequests: int, window: real)
    requires maxRequests > 0 && window > 0.0 && Run(stamps, maxRequests, window) == History(q, stamps)
    requires n <= |q| && |q| - n < maxRequests
    requires (forall i :: 0 <= i < n ==> q[i] <= now - window) && (n < |q| ==> q[n] > now - window)
    ensures Run(stamps + [now], maxRequests, window) == History(q[n..] + [now], stamps + [now])
  {
    RunAppend(stamps, now, maxRequests, window);
    ExpiredIs(q, now - window, n, 0);
    CheckMeans(q, maxRequests, window, now);
  }

  lemma LateRunAdmitted(maxRequests: nat, window: real, late: real)
    requires maxRequests > 0 && window > 0.0 && 0.0 <= late <= window
    ensures Run(LateRun(maxRequests, window, late), maxRequests, window).log == LateRun(maxRequests, window, late)
  {
    hide Run;
    var z := Zeros(maxRequests);
    ZerosAdmitted(maxRequests, maxRequests, window);
    Admits(z, z, maxRequests, window, maxRequests, window);
    assert z[maxRequests..] + [window] == [window];
    if maxRequests > 1 {
      Admits(z + [window], [window], 0, window - late, maxRequests, window);
    } else {
      assert z + [window] + [] == z + [window];
    }
  }

  lemma LateRunInOrder(maxRequests: nat, window: real, late: real, skew: real)
    requires maxRequests > 0 && window > 0.0 && 0.0 <= late <= window && late <= skew
    ensures InOrder(LateRun(maxRequests, window, late), skew)
  {
  }

  /** A window longer than that catches the zeros and the last grant of the run. */
  lemma LateRunCounted(maxRequests: nat, window: real, late: real, len: real)
    requires maxRequests > 0 && window > 0.0 && 0.0 <= late <= window
    requires len > if maxRequests == 1 then window else window - late
    ensures var end := if maxRequests == 1 then window else window - late;
            Count(LateRun(maxRequests, window, late), end - len, end - len + len) > maxRequests
  {
    hide Count, Zeros;
    var z, end := Zeros(maxRequests), if maxRequests == 1 then window else window - late;
    var lo := end - len;
    assert lo < 0.0 && lo + len == end;
    CountSplit(z, lo, end, 0);
    CountAppend(z, window, lo, end);
    CountAppend(z + [window], end, lo, end);
    assert z + [window] + [] == z + [window];
  }

  ghost predicate WithinCap(stamps: seq<real>, maxRequests: int, window: real, lo: real, len: real) {
    Count(Run(stamps, maxRequests, window).log, lo, lo + len) <= maxRequests
  }

  /** No run whose stamps are out of order by at most `skew` ever puts more than the budget into a window
      of that length. */
  ghost predicate CapHolds(maxRequests: int, window: real, skew: real, len: real) {
    forall stamps, lo :: InOrder(stamps, skew) ==> WithinCap(stamps, maxRequests, window, lo, len)
  }

  function SafeLength(maxRequests: int, window: real, skew: real): real {
    if maxRequests == 1 then window else if skew <= window then window - skew else 0.0
  }

  /** THE EXACT CAP. The lengths at which the budget holds are those up to `window - skew`, or the full
      window when the budget is one. So the documented cap, over the full window, holds if and only if
      stamps are monotone or the budget is one. */
  lemma CapHoldsIff(maxRequests: int, window: real, skew: real, len: real)
    requires maxRequests > 0 && window > 0.0 && skew >= 0.0
    ensures CapHolds(maxRequests, window, skew, len) <==> len <= SafeLength(maxRequests, window, skew)
    ensures CapHolds(maxRequests, window, skew, window) <==> skew == 0.0 || maxRequests == 1
  {
    CapAt(maxRequests, window, skew, len);
    CapAt(maxRequests, window, skew, window);
  }

  lemma CapAt(maxRequests: int, window: real, skew: real, len: real)
    requires maxRequests > 0 && window > 0.0 && skew >= 0.0
    ensures CapHolds(maxRequests, window, skew, len) <==> len <= SafeLength(maxRequests, window, skew)
  {
    hide Count, Run, InOrder, LateRun;
    if len <= SafeLength(maxRequests, window, skew) {
      forall stamps, lo | InOrder(stamps, skew) ensures WithinCap(stamps, maxRequests, window, lo, len) {
        WithinSafeLength(stamps, maxRequests, window, skew, lo, len);
      }
    } else {
      var stamps, lo := LateCall(maxRequests, window, skew, len);
      assert !WithinCap(stamps, maxRequests, window, lo, len);
    }
  }

  /** A run, all of it admitted, that puts more than the budget into some window of that length. */
  lemma LateCall(maxRequests: int, window: real, skew: real, len: real) returns (stamps: seq<real>, lo: real)
    requires maxRequests > 0 && window > 0.0 && skew >= 0.0 && len > SafeLength(maxRequests, window, skew)
    ensures InOrder(stamps, skew) && stamps != [] && Run(stamps, maxRequests, window).log == stamps
    ensures Count(stamps, lo, lo + len) > maxRequests
  {
    hide Count, Run, InOrder;
    var late := if skew <= window then skew else window;
    var end := if maxRequests == 1 then window else window - late;
    stamps, lo := LateRun(maxRequests, window, late), end - len;
    assert stamps[|Zeros(maxRequests)|] == window;
    hide LateRun;
    LateRunAdmitted(maxRequests, window, late);
    LateRunCounted(maxRequests, window, late, len);
    LateRunInOrder(maxRequests, window, late, skew);
  }

  lemma WithinSafeLength(stamps: seq<real>, maxRequests: int, window: real, skew: real, lo: real, len: real)
    requires maxRequests > 0 && window > 0.0 && skew >= 0.0 && InOrder(stamps, skew)
    requires len <= SafeLength(maxRequests, window, skew)
    ensures Count(Run(stamps, maxRequests, window).log, lo, lo + len) <= maxRequests
  {
    hide Run, Count, InOrder;
    var log := Run(stamps, maxRequests, window).log;
    if maxRequests == 1 {
      SingleGrants(stamps, window);
      CountApart(log, window, lo, len);
    } else if skew <= window {
      WindowNeverExceeded(stamps, maxRequests, window, skew, lo);
      CountShorter(log, lo, lo + len, lo + window - skew);
    } else {
      CountShorter(log, lo, lo + len, lo);
      CountEmpty(log, lo);
    }
  }

  lemma {:induction false} CountShorter(log: seq<real>, lo: real, hi: real, further: real)
    requires hi <= further
    ensures Count(log, lo, hi) <= Count(log, lo, further)
  {
    if log != [] { CountShorter(log[..|log| - 1], lo, hi, further); }
  }

  lemma {:induction false} CountEmpty(log: seq<real>, lo: real)
    ensures Count(log, lo, lo) == 0
  {
    if log != [] { CountEmpty(log[..|log| - 1], lo); }
  }

  lemma {:induction false} CountAppend(log: seq<real>, now: real, lo: real, hi: real)
    ensures Count(log + [now], lo, hi) == Count(log, lo, hi) + (if lo < now <= hi then 1 else 0)
  {
    assert (log + [now])[..|log|] == log;
  }
}
