/** The three lock-guarded gates of backend/app/ratelimit.py. Each method body is one critical section;
    `now` is the clock reading, taken before the lock, so successive calls may carry any stamps. */
module RateLimit {
  import opened Wrappers
  import opened RollingWindow
  import opened KeyedWindow

  class CooldownLimiter {
    var last: Option<real>

    constructor ()
      ensures last == None
    {
      last := None;
    }

    method CheckAndConsume(minInterval: real, now: real) returns (wait: int)
      modifies this
      ensures Cooldown(old(last), minInterval, now) == CooldownAnswer(last, wait)
    {
      if minInterval <= 0.0 { return 0; }
      if last.Some? {
        var elapsed := now - last.value;
        if elapsed < minInterval { return Truncate(minInterval - elapsed) + 1; }
      }
      last := Some(now);
      return 0;
    }
  }

  datatype CooldownAnswer = CooldownAnswer(last: Option<real>, wait: int)

  function Cooldown(last: Option<real>, minInterval: real, now: real): CooldownAnswer {
    if minInterval <= 0.0 then CooldownAnswer(last, 0)
    else if last.Some? && now - last.value < minInterval then
      CooldownAnswer(last, Truncate(minInterval - (now - last.value)) + 1)
    else CooldownAnswer(Some(now), 0)
  }

  /** ONE CALL, in full: let through without an interval, and otherwise if none was or the last is an interval
      old; a refusal keeps the stamp and tells the least whole number of seconds above what is missing. */
  lemma CooldownIs(last: Option<real>, minInterval: real, now: real)
    ensures var a := Cooldown(last, minInterval, now);
            if minInterval <= 0.0 then a.last == last && a.wait == 0
            else if last == None || now - last.value >= minInterval then a.last == Some(now) && a.wait == 0
            else a.last == last && a.wait >= 1
                 && (a.wait - 1) as real <= minInterval - (now - last.value) < a.wait as real
  {
  }

  /** The stamps admitted over a run, and the stamp the gate holds at its end. */
  datatype CooldownHistory = CooldownHistory(last: Option<real>, log: seq<real>)

  ghost function CooldownRun(stamps: seq<real>, minInterval: real): CooldownHistory {
    if stamps == [] then CooldownHistory(None, [])
    else
      var h := CooldownRun(stamps[..|stamps| - 1], minInterval);
      var now := stamps[|stamps| - 1];
      var a := Cooldown(h.last, minInterval, now);
      CooldownHistory(a.last, if a.wait == 0 then h.log + [now] else h.log)
  }

  /** A refused caller is told at least one second, and is admitted when it returns after them. */
  lemma CooldownRetry(last: Option<real>, minInterval: real, now: real, later: real)
    requires minInterval > 0.0 && Cooldown(last, minInterval, now).wait != 0
    requires later >= now + Cooldown(last, minInterval, now).wait as real
    ensures Cooldown(last, minInterval, now).wait >= 1 && Cooldown(last, minInterval, now).last == last
    ensures Cooldown(last, minInterval, later) == CooldownAnswer(Some(later), 0)
  {
    var remaining := minInterval - (now - last.value);
    assert remaining > 0.0 && remaining < (Truncate(remaining) + 1) as real;
  }

  /** In every run, WHATEVER the order of the stamps, the i-th and j-th admissions are at least
      (j - i) intervals apart: the shared budget is never doubled. */
  lemma CooldownSpacing(stamps: seq<real>, minInterval: real, i: nat, j: nat)
    requires minInterval > 0.0
    ensures var log := CooldownRun(stamps, minInterval).log;
            i <= j < |log| ==> log[j] - log[i] >= (j - i) as real * minInterval
  {
    SpacedOut(stamps, minInterval, i, j);
  }

  ghost function Intervals(n: nat, interval: real): real {
    n as real * interval
  }

  lemma OneMoreInterval(n: nat, interval: real)
    ensures Intervals(0, interval) == 0.0
    ensures Intervals(n + 1, interval) == Intervals(n, interval) + interval
  {
    assert (n + 1) as real == n as real + 1.0;
  }

  lemma {:induction false} SpacedOut(stamps: seq<real>, minInterval: real, i: nat, j: nat)
    requires minInterval > 0.0
    ensures var h := CooldownRun(stamps, minInterval);
            && (h.log == [] <==> h.last == None) && (h.log != [] ==> h.last == Some(h.log[|h.log| - 1]))
            && (i <= j < |h.log| ==> h.log[j] - h.log[i] >= Intervals(j - i, minInterval))
    decreases |stamps|
  {
    hide Intervals, Truncate;
    if stamps != [] {
      var before := stamps[..|stamps| - 1];
      var h := CooldownRun(before, minInterval);
      SpacedOut(before, minInterval, i, j);
      AnswerIs(h.last, minInterval, stamps[|stamps| - 1]);
      hide Cooldown;
      if i < j == |h.log| {
        SpacedOut(before, minInterval, i, j - 1);
        OneMoreInterval(j - 1 - i, minInterval);
      } else if i == j == |h.log| {
        OneMoreInterval(0, minInterval);
      }
    }
  }

  lemma AnswerIs(last: Option<real>, minInterval: real, now: real)
    requires minInterval > 0.0
    ensures var a := Cooldown(last, minInterval, now);
            if a.wait == 0 then a.last == Some(now) && (last.Some? ==> now - last.value >= minInterval)
            else a.last == last
  {
  }

  class WindowLimiter {
    var admitted: seq<real>

    constructor ()
      ensures admitted == []
    {
      admitted := [];
    }

    method CheckAndConsume(maxRequests: int, window: real, now: real) returns (wait: int)
      modifies this
      ensures var v := Check(old(admitted), maxRequests, window, now);
              admitted == v.queue && wait == v.Seconds()
    {
      if maxRequests <= 0 || window <= 0.0 { return 0; }
      var cutoff := now - window;
      var dropped := DropExpired(cutoff);
      if |admitted| >= maxRequests {
        return Truncate(admitted[0] + window - now) + 1;
      }
      admitted := admitted + [now];
      return 0;
    }

    method DropExpired(cutoff: real) returns (dropped: nat)
      modifies this
      ensures dropped == Expired(old(admitted), cutoff, 0)
      ensures admitted == old(admitted)[dropped..]
    {
      dropped := 0;
      while admitted != [] && admitted[0] <= cutoff
        invariant dropped <= |old(admitted)| && admitted == old(admitted)[dropped..]
        invariant forall i :: 0 <= i < dropped ==> old(admitted)[i] <= cutoff
        decreases |admitted|
      {
        admitted := admitted[1..];
        dropped := dropped + 1;
      }
      ExpiredIs(old(admitted), cutoff, dropped, 0);
    }
  }

  class KeyedWindowLimiter {
    const maxKeys: nat
    var order: seq<Key>
    var grants: map<Key, seq<real>>

    constructor (maxKeys: nat)
      ensures this.maxKeys == maxKeys && Contents() == Buckets([], map[]) && Valid()
    {
      this.maxKeys := maxKeys;
      order, grants := [], map[];
    }

    function Contents(): Buckets
      reads this
    {
      Buckets(order, grants)
    }

    /** Each key is listed once, with its bucket. */
    ghost predicate Valid()
      reads this
    {
      Distinct(order) && forall k :: k in order <==> k in grants
    }

    method CheckAndConsume(key: Key, maxRequests: int, window: real, now: real) returns (wait: int)
      requires Valid()
      modifies this
      ensures Valid()
      ensures var a := CheckKey(old(Contents()), maxKeys, key, maxRequests, window, now);
              Contents() == a.buckets && wait == a.verdict.Seconds()
    {
      hide Check, Prune, Touch, Evict, Distinct;
      if maxRequests <= 0 || window <= 0.0 { return 0; }
      ghost var before := if key in grants then grants[key] else [];
      var admitted := if key in grants then grants[key] else [];
      var cutoff := now - window;
      ghost var dropped := 0;
      while admitted != [] && admitted[0] <= cutoff
        invariant dropped <= |before| && admitted == before[dropped..]
        invariant forall i :: 0 <= i < dropped ==> before[i] <= cutoff
        decreases |admitted|
      {
        admitted := admitted[1..];
        dropped := dropped + 1;
      }
      ExpiredIs(before, cutoff, dropped, 0);
      DecidedBy(before, dropped, maxRequests, window, now);
      if |admitted| >= maxRequests {
        grants := grants[key := admitted];
        return Truncate(admitted[0] + window - now) + 1;
      }
      TouchValid(order, key);
      admitted := admitted + [now];
      grants := grants[key := admitted];
      order := Touch(order, key);
      ghost var touched := Contents();
      PopWhileOver(touched);
      return 0;
    }

    /** The popitem loop. */
    method PopWhileOver(ghost was: Buckets)
      requires Valid() && was == Contents()
      modifies this
      ensures Valid() && Contents() == Evict(was, maxKeys)
    {
      hide KeptFrom, Evict, Distinct;
      ghost var popped := 0;
      NonePopped(was);
      while |order| > maxKeys
        invariant popped <= |was.order| && Contents() == KeptFrom(was, popped)
        invariant |order| == |was.order| - popped
        invariant popped == 0 || |was.order| - popped >= maxKeys
        decreases |order|
      {
        KeptFromNext(was, popped);
        var first := order[0];
        order := order[1..];
        grants := grants - {first};
        popped := popped + 1;
      }
      KeptIsEvicted(was, popped, maxKeys);
    }
  }

  lemma DecidedBy(before: seq<real>, dropped: nat, maxRequests: int, window: real, now: real)
    requires maxRequests > 0 && window > 0.0 && dropped == Expired(before, now - window, 0)
    ensures Check(before, maxRequests, window, now)
            == if |before| - dropped < maxRequests then Admitted(before[dropped..] + [now])
               else Refused(before[dropped..], before[dropped] + window - now)
  {
    CheckMeans(before, maxRequests, window, now);
  }

  lemma TouchValid(order: seq<Key>, key: Key)
    requires Distinct(order)
    ensures Distinct(Touch(order, key)) && forall k :: k in Touch(order, key) <==> k in order || k == key
  {
    WithoutLength(order, key);
  }

  /** The dictionary once its first `popped` keys have been popped. */
  ghost function KeptFrom(b: Buckets, popped: nat): Buckets
    requires popped <= |b.order|
  {
    var kept := b.order[popped..];
    Buckets(kept, map k | k in b.grants && k in kept :: b.grants[k])
  }

  lemma NonePopped(b: Buckets)
    requires forall k :: k in b.order <==> k in b.grants
    ensures KeptFrom(b, 0) == b
  {
  }

  lemma KeptFromNext(b: Buckets, popped: nat)
    requires popped < |b.order| && Distinct(b.order)
    ensures KeptFrom(b, popped).order[0] == b.order[popped]
    ensures KeptFrom(b, popped).order[1..] == KeptFrom(b, popped + 1).order
    ensures KeptFrom(b, popped).grants - {b.order[popped]} == KeptFrom(b, popped + 1).grants
  {
    var kept, next := b.order[popped..], b.order[popped + 1..];
    assert kept == [b.order[popped]] + next;
    assert b.order[popped] !in next;
  }

  lemma KeptIsEvicted(b: Buckets, popped: nat, maxKeys: nat)
    requires popped <= |b.order| && Distinct(b.order) && forall k :: k in b.order <==> k in b.grants
    requires |b.order| - popped <= maxKeys && (popped == 0 || |b.order| - popped >= maxKeys)
    ensures var kept := KeptFrom(b, popped);
            kept == Evict(b, maxKeys) && Distinct(kept.order) && forall k :: k in kept.order <==> k in kept.grants
  {
    if popped == 0 { NonePopped(b); }
  }
}
