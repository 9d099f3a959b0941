/** The per-minute pacing gate of src/fmp.py, which waits instead of refusing. The clock is read inside
    the lock, so stamps are monotone. Other threads run between this thread's critical sections. */
module RateGate {
  import opened RollingWindow

  const WINDOW := 60.0

  function SleepFor(v: Verdict): real
    requires v.Refused?
  {
    if v.remaining > 0.01 then v.remaining else 0.01
  }

  /** A caller alone on the gate is never turned away: it is asked to sleep at most the 60 seconds of
      the window, and the section it runs when it wakes admits it. */
  lemma LoneCallerAdmitted(q: seq<real>, limit: int, now: real, wake: real)
    requires limit > 0 && |q| <= limit && forall i :: 0 <= i < |q| ==> q[i] <= now
    requires Check(q, limit, WINDOW, now).Refused?
    requires wake >= now + SleepFor(Check(q, limit, WINDOW, now))
    ensures SleepFor(Check(q, limit, WINDOW, now)) <= WINDOW
    ensures Check(Check(q, limit, WINDOW, now).queue, limit, WINDOW, wake).Admitted?
  {
    CheckMeans(q, limit, WINDOW, now);
    RefusalLeavesNoTrace(q, limit, WINDOW, now, wake);
    CheckMeans(q, limit, WINDOW, wake);
  }

  /** The sleep is what the oldest grant still has of its 60 seconds, and a hundredth at least. */
  lemma SleepIs(v: Verdict)
    requires v.Refused?
    ensures SleepFor(v) >= 0.01 && SleepFor(v) >= v.remaining && SleepFor(v) in {0.01, v.remaining}
  {
  }

  /** So no 60 seconds ever see more than `limit` calls let through, whoever makes them. */
  lemma PacedPerMinute(stamps: seq<real>, limit: int, lo: real)
    requires limit > 0 && InOrder(stamps, 0.0)
    ensures Count(Run(stamps, limit, WINDOW).log, lo, lo + 60.0) <= limit
  {
    WindowNeverExceeded(stamps, limit, WINDOW, 0.0, lo);
  }

  lemma NextQueue(stamps: seq<real>, now: real, limit: int)
    ensures Run(stamps + [now], limit, WINDOW).queue
            == Check(Run(stamps, limit, WINDOW).queue, limit, WINDOW, now).queue
  {
    RunAppend(stamps, now, limit, WINDOW);
  }

  lemma StillInOrder(stamps: seq<real>, now: real)
    requires InOrder(stamps, 0.0) && forall i :: 0 <= i < |stamps| ==> stamps[i] <= now
    ensures InOrder(stamps + [now], 0.0) && forall i :: 0 <= i < |stamps + [now]| ==> (stamps + [now])[i] <= now
  {
  }

  lemma Decides(q: seq<real>, kept: seq<real>, limit: int, now: real)
    requires limit > 0 && kept == Prune(q, now - WINDOW)
    ensures Check(q, limit, WINDOW, now)
            == if |kept| < limit then Admitted(kept + [now]) else Refused(kept, kept[0] + WINDOW - now)
  {
  }

  datatype Outcome = Unlimited | Acquired(at: real) | GaveUp(needed: real)

  class MinuteRateGate {
    const limit: int
    const maxWait: real
    /** The queue under the lock. */
    var recent: seq<real>
    /** The process clock as last read by anyone. */
    var clock: real
    /** Every stamp at which some thread ran a critical section. */
    ghost var stamps: seq<real>

    constructor (limit: int, maxWait: real, clock: real)
      ensures Valid() && recent == [] && this.limit == limit && this.maxWait == maxWait
    {
      this.limit, this.maxWait, this.clock := limit, maxWait, clock;
      recent, stamps := [], [];
    }

    /** The queue is what the whole history of sections leaves, so every theorem about runs with
        monotone stamps (WindowNeverExceeded, AdmitsAsFullLog) applies to it. */
    ghost predicate Valid()
      reads this
    {
      && recent == Run(stamps, limit, WINDOW).queue
      && InOrder(stamps, 0.0)
      && forall i :: 0 <= i < |stamps| ==> stamps[i] <= clock
    }

    method ReadClock(atLeast: real) returns (t: real)
      requires Valid()
      modifies this`clock
      ensures Valid() && t == clock && clock >= old(clock) && t >= atLeast
    {
      t := *;
      if t < clock { t := clock; }
      if t < atLeast { t := atLeast; }
      clock := t;
    }

    /** One critical section. */
    method Section() returns (v: Verdict)
      requires Valid() && limit > 0
      modifies this
      ensures Valid() && clock >= old(clock)
      ensures v == Check(old(recent), limit, WINDOW, clock) && recent == v.queue
      ensures stamps == old(stamps) + [clock]
      ensures v.Admitted? ==> recent != [] && recent[|recent| - 1] == clock
      ensures v.Refused? ==> |recent| >= limit && v.remaining == recent[0] + 60.0 - clock
    {
      hide Run, Check, Prune, InOrder;
      var now := ReadClock(clock);
      NextQueue(stamps, now, limit);
      StillInOrder(stamps, now);
      DropExpired(now - WINDOW);
      Decides(old(recent), recent, limit, now);
      if |recent| < limit {
        recent := recent + [now];
        v := Admitted(recent);
      } else {
        v := Refused(recent, recent[0] + WINDOW - now);
      }
      stamps := stamps + [now];
    }

    method DropExpired(cutoff: real)
      modifies this`recent
      ensures recent == Prune(old(recent), cutoff)
    {
      ghost var dropped := 0;
      while recent != [] && recent[0] <= cutoff
        invariant dropped <= |old(recent)| && recent == old(recent)[dropped..]
        invariant forall i :: 0 <= i < dropped ==> old(recent)[i] <= cutoff
        decreases |recent|
      {
        recent := recent[1..];
        dropped := dropped + 1;
      }
      ExpiredIs(old(recent), cutoff, dropped, 0);
    }

    /** Any number of sections of other threads. */
    method OtherThreads()
      requires Valid() && limit > 0
      modifies this
      ensures Valid() && clock >= old(clock) && old(stamps) <= stamps
    {
      var rounds: int := *;
      while rounds > 0
        invariant Valid() && clock >= old(clock) && old(stamps) <= stamps
      {
        var _ := Section();
        rounds := rounds - 1;
      }
    }

    /** Terminates, whatever the other threads do: it either enters with the queue within the limit,
        or gives up because the next sleep would pass the deadline; it never sleeps more than
        maxWait in total. */
    method Acquire() returns (outcome: Outcome, waited: real)
      requires Valid()
      modifies this
      ensures Valid() && old(stamps) <= stamps
      ensures outcome.Unlimited? <==> limit <= 0
      ensures waited >= 0.0 && (waited > 0.0 ==> waited <= maxWait)
      ensures outcome.Acquired? ==>
                |recent| <= limit && recent != [] && recent[|recent| - 1] == outcome.at == clock
                && |stamps| > |old(stamps)| && stamps[|stamps| - 1] == outcome.at
      ensures outcome.GaveUp? ==> |recent| >= limit && clock + outcome.needed > old(clock) + maxWait
    {
      hide Run, Check, Prune, InOrder;
      waited := 0.0;
      if limit <= 0 { return Unlimited, waited; }
      var start := ReadClock(clock);
      var deadline := start + maxWait;
      while true
        invariant Valid() && old(stamps) <= stamps
        invariant old(clock) <= start && 0.0 <= waited <= clock - start
        invariant waited > 0.0 ==> waited <= maxWait
        decreases 100.0 * (deadline - clock)
      {
        ghost var before := clock;
        OtherThreads();
        var v := Section();
        if v.Admitted? {
          CheckedWithinLimit();
          return Acquired(clock), waited;
        }
        var pause := SleepFor(v);
        var now := ReadClock(clock);
        if now + pause > deadline {
          return GaveUp(pause), waited;
        }
        var _ := ReadClock(now + pause);
        waited := waited + pause;
        assert clock >= before + 0.01;
      }
    }

    ghost method CheckedWithinLimit()
      requires Valid() && limit > 0
      ensures |recent| <= limit
    {
      RunKeeps(stamps, limit, WINDOW);
    }
  }
}
