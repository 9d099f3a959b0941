/** The per-key limiter of backend/app/ratelimit.py: one rolling-window queue per key, held in an
    ordered dictionary of bounded size whose front is evicted. */
module KeyedWindow {
  import opened RollingWindow

  datatype Key = Key(name: string)

  /** An OrderedDict: the keys in dictionary order, and the queue of each. */
  datatype Buckets = Buckets(order: seq<Key>, grants: map<Key, seq<real>>)

  function Without(order: seq<Key>, key: Key): (r: seq<Key>)
    ensures forall k :: k in r <==> k in order && k != key
    ensures |r| <= |order|
  {
    if order == [] then []
    else if order[0] == key then Without(order[1..], key)
    else [order[0]] + Without(order[1..], key)
  }

  /** Re-insertion at the end: move_to_end, or a plain insertion of a new key. */
  function Touch(order: seq<Key>, key: Key): seq<Key> {
    Without(order, key) + [key]
  }

  function Newest(order: seq<Key>, n: nat): seq<Key> {
    if |order| <= n then order else order[|order| - n..]
  }

  /** popitem(last=False) until at most `maxKeys` keys are left. */
  function Evict(b: Buckets, maxKeys: nat): Buckets {
    if |b.order| <= maxKeys then b
    else
      var kept := Newest(b.order, maxKeys);
      Buckets(kept, map k | k in b.grants && k in kept :: b.grants[k])
  }

  datatype Answer = Answer(buckets: Buckets, verdict: Verdict)

  function CheckKey(b: Buckets, maxKeys: nat, key: Key, maxRequests: int, window: real, now: real): Answer {
    if maxRequests <= 0 || window <= 0.0 then Answer(b, Admitted([]))
    else
      var v := Check(if key in b.grants then b.grants[key] else [], maxRequests, window, now);
      var grants := b.grants[key := v.queue];
      match v
      case Refused(_, _) => Answer(Buckets(if key in b.grants then b.order else b.order + [key], grants), v)
      case Admitted(_) => Answer(Evict(Buckets(Touch(b.order, key), grants), maxKeys), v)
  }

  datatype Call = Call(key: Key, now: real)

  /** The dictionary after a run, and the full log of admitted calls. */
  datatype KeyedHistory = KeyedHistory(buckets: Buckets, log: seq<Call>)

  ghost function KeyedStep(h: KeyedHistory, maxKeys: nat, maxRequests: int, window: real, c: Call): KeyedHistory {
    var a := CheckKey(h.buckets, maxKeys, c.key, maxRequests, window, c.now);
    KeyedHistory(a.buckets, if a.verdict.Admitted? then h.log + [c] else h.log)
  }

  ghost function KeyedRun(calls: seq<Call>, maxKeys: nat, maxRequests: int, window: real): KeyedHistory {
    if calls == [] then KeyedHistory(Buckets([], map[]), [])
    else KeyedStep(KeyedRun(calls[..|calls| - 1], maxKeys, maxRequests, window), maxKeys, maxRequests, window,
                   calls[|calls| - 1])
  }

  ghost function Stamps(calls: seq<Call>): (r: seq<real>)
    ensures |r| == |calls| && forall i :: 0 <= i < |calls| ==> r[i] == calls[i].now
  {
    if calls == [] then [] else Stamps(calls[..|calls| - 1]) + [calls[|calls| - 1].now]
  }

  // ---- reference notions over the full admission log -----------------------------------------

  /** The distinct keys of the log in order of their last admission. */
  ghost function Recency(log: seq<Call>): seq<Key> {
    if log == [] then [] else Touch(Recency(log[..|log| - 1]), log[|log| - 1].key)
  }

  /** The distinct other keys admitted since `key` was last admitted. */
  ghost function OthersSince(log: seq<Call>, key: Key): set<Key> {
    if log == [] || log[|log| - 1].key == key then {}
    else OthersSince(log[..|log| - 1], key) + {log[|log| - 1].key}
  }

  /** The stamps at which `key` was admitted. */
  ghost function KeyStamps(log: seq<Call>, key: Key): seq<real> {
    if log == [] then []
    else KeyStamps(log[..|log| - 1], key) + (if log[|log| - 1].key == key then [log[|log| - 1].now] else [])
  }

  /** The stamps of `key` since it last came back after `maxKeys` or more distinct other keys. */
  ghost function Streak(log: seq<Call>, key: Key, maxKeys: nat): seq<real> {
    if log == [] then []
    else
      var init, last := log[..|log| - 1], log[|log| - 1];
      if last.key != key then Streak(init, key, maxKeys)
      else if |OthersSince(init, key)| >= maxKeys then [last.now]
      else Streak(init, key, maxKeys) + [last.now]
  }

  ghost predicate Distinct(s: seq<Key>) {
    forall i, j :: 0 <= i < j < |s| ==> s[i] != s[j]
  }

  ghost predicate Seen(log: seq<Call>, key: Key) {
    exists i :: 0 <= i < |log| && log[i].key == key
  }

  // ---- recency order -------------------------------------------------------------------------

  lemma {:induction false} WithoutLength(s: seq<Key>, key: Key)
    requires Distinct(s)
    ensures Distinct(Without(s, key))
    ensures |Without(s, key)| == if key in s then |s| - 1 else |s|
    ensures key !in s ==> Without(s, key) == s
  {
    if s != [] {
      var rest := s[1..];
      assert Distinct(rest);
      WithoutLength(rest, key);
      assert s[0] !in rest;
      assert s == [s[0]] + rest;
    }
  }

  lemma {:induction false} WithoutConcat(a: seq<Key>, b: seq<Key>, key: Key)
    ensures Without(a + b, key) == Without(a, key) + Without(b, key)
  {
    if a == [] {
      assert a + b == b;
    } else {
      assert (a + b)[1..] == a[1..] + b;
      WithoutConcat(a[1..], b, key);
    }
  }

  lemma NewestConcat(a: seq<Key>, b: seq<Key>, n: nat)
    requires |b| >= n
    ensures Newest(a + b, n) == Newest(b, n)
  {
    if |a| > 0 || |b| > n {
      assert (a + b)[|a + b| - n..] == b[|b| - n..];
    } else {
      assert a + b == b;
    }
  }

  /** Touching a key and keeping the newest `n` commutes with having kept only the newest `n`. */
  lemma TouchNewest(s: seq<Key>, n: nat, key: Key)
    requires Distinct(s)
    ensures Newest(Touch(Newest(s, n), key), n) == Newest(Touch(s, key), n)
  {
    if |s| > n {
      var front, kept := s[..|s| - n], s[|s| - n..];
      assert s == front + kept;
      TouchSplits(front, kept, key);
      TouchLength(kept, key);
      hide Without, Touch;
      NewestConcat(Without(front, key), Touch(kept, key), n);
    }
  }

  lemma TouchSplits(front: seq<Key>, kept: seq<Key>, key: Key)
    ensures Touch(front + kept, key) == Without(front, key) + Touch(kept, key)
  {
    WithoutConcat(front, kept, key);
    hide Without;
  }

  lemma TouchLength(s: seq<Key>, key: Key)
    requires Distinct(s)
    ensures |Touch(s, key)| >= |s|
  {
    WithoutLength(s, key);
  }

  ghost function After(s: seq<Key>, key: Key): set<Key> {
    if s == [] then {}
    else if s[0] == key then set k | k in s[1..]
    else After(s[1..], key)
  }

  lemma {:induction false} AfterTouch(s: seq<Key>, key: Key, touched: Key)
    requires key in s && Distinct(s)
    ensures After(Touch(s, touched), key) == if key == touched then {} else After(s, key) + {touched}
  {
    assert Distinct(s[1..]);
    TouchFromFront(s, touched);
    hide Touch, Without, Distinct;
    if s[0] == touched {
      AfterAppend(s[1..], key, touched);
    } else if s[0] == key {
      TouchedSet(s[1..], touched);
    } else {
      AfterTouch(s[1..], key, touched);
    }
  }

  lemma TouchFromFront(s: seq<Key>, touched: Key)
    requires s != [] && Distinct(s)
    ensures Touch(s, touched) == if s[0] == touched then s[1..] + [touched] else [s[0]] + Touch(s[1..], touched)
    ensures s[0] == touched ==> touched !in s[1..]
  {
    WithoutLength(s[1..], touched);
  }

  lemma TouchedSet(s: seq<Key>, touched: Key)
    ensures (set k | k in Touch(s, touched)) == (set k | k in s) + {touched}
  {
    assert forall k :: k in Touch(s, touched) <==> k in Without(s, touched) || k == touched;
  }

  lemma {:induction false} AfterAppend(s: seq<Key>, key: Key, last: Key)
    requires Distinct(s) && last !in s
    ensures After(s + [last], key) == if key in s then After(s, key) + {last} else {}
  {
    if s == [] {
      assert (s + [last])[1..] == [];
    } else {
      assert (s + [last])[1..] == s[1..] + [last];
      if s[0] == key {
        assert (set k | k in s[1..] + [last]) == (set k | k in s[1..]) + {last};
      } else {
        AfterAppend(s[1..], key, last);
      }
    }
  }

  /** Without a budget or a window every call is let through and nothing is kept. */
  lemma NoLimit(b: Buckets, maxKeys: nat, key: Key, maxRequests: int, window: real, now: real)
    requires maxRequests <= 0 || window <= 0.0
    ensures var a := CheckKey(b, maxKeys, key, maxRequests, window, now); a.buckets == b && a.verdict.Seconds() == 0
  {
  }

  /** What recency means: a key's successors are exactly the others admitted since it was. */
  lemma {:induction false} RecencyMeans(log: seq<Call>, key: Key)
    ensures Distinct(Recency(log))
    ensures key in Recency(log) <==> Seen(log, key)
    ensures Seen(log, key) ==> After(Recency(log), key) == OthersSince(log, key)
    decreases |log|
  {
    if log != [] {
      var init, last := log[..|log| - 1], log[|log| - 1];
      RecencyMeans(init, key);
      WithoutLength(Recency(init), last.key);
      assert Seen(init, key) ==> Seen(log, key) by {
        if Seen(init, key) { var i :| 0 <= i < |init| && init[i].key == key; assert log[i].key == key; }
      }
      if last.key == key {
        assert log[|log| - 1].key == key;
        FirstTouch(Recency(init), key, key);
      } else {
        assert Seen(log, key) ==> Seen(init, key) by {
          if Seen(log, key) { var i :| 0 <= i < |log| && log[i].key == key; assert init[i].key == key; }
        }
        if Seen(init, key) { AfterTouch(Recency(init), key, last.key); }
      }
    }
  }

  lemma {:induction false} FirstTouch(s: seq<Key>, key: Key, touched: Key)
    requires key == touched && Distinct(s)
    ensures After(Touch(s, touched), key) == {}
  {
    WithoutLength(s, touched);
    AfterAppend(Without(s, touched), key, touched);
  }

  lemma {:induction false} SetSize(s: seq<Key>)
    requires Distinct(s)
    ensures |set k | k in s| == |s|
  {
    if s != [] {
      SetSize(s[1..]);
      assert (set k | k in s) == (set k | k in s[1..]) + {s[0]};
    }
  }

  lemma {:induction false} InNewest(s: seq<Key>, key: Key, n: nat)
    requires Distinct(s) && key in s
    ensures key in Newest(s, n) <==> |After(s, key)| < n
  {
    SetSize(s[1..]);
    if s[0] == key {
      assert key !in s[1..];
    } else {
      InNewest(s[1..], key, n);
      AfterSubset(s[1..], key);
      if |s| <= n { SubsetSize(After(s[1..], key), set k | k in s[1..]); }
    }
  }

  lemma {:induction false} AfterSubset(s: seq<Key>, key: Key)
    ensures After(s, key) <= set k | k in s
  {
    if s != [] && s[0] != key { AfterSubset(s[1..], key); }
  }

  lemma {:induction false} SubsetSize(a: set<Key>, b: set<Key>)
    requires a <= b
    ensures |a| <= |b|
  {
    assert b == a + (b - a);
  }

  // ---- what every step keeps -----------------------------------------------------------------

  /** The dictionary lists the `maxKeys` most recently admitted keys in order of last admission, and
      each bucket is the pruned queue of its key's current streak. */
  ghost predicate KeptKeys(h: KeyedHistory, stamps: seq<real>, maxKeys: nat, maxRequests: int, window: real) {
    && h.buckets.order == Newest(Recency(h.log), maxKeys)
    && (forall k :: k in h.buckets.order <==> k in h.buckets.grants)
    && (forall k :: k in h.buckets.grants ==>
          Kept(History(h.buckets.grants[k], Streak(h.log, k, maxKeys)), stamps, maxRequests, window))
  }

  lemma KeptLater(h: History, stamps: seq<real>, maxRequests: int, window: real, now: real)
    requires Kept(h, stamps, maxRequests, window)
    ensures Kept(h, stamps + [now], maxRequests, window)
  {
    forall i | 0 <= i < |h.log| - |h.queue| ensures Left(h.log[i] + window, stamps + [now]) {
      assert Left(h.log[i] + window, stamps);
      var k :| 0 <= k < |stamps| && h.log[i] + window <= stamps[k];
      assert (stamps + [now])[k] == stamps[k];
    }
  }

  lemma {:induction false} UnseenStreak(log: seq<Call>, key: Key, maxKeys: nat)
    requires !Seen(log, key)
    ensures Streak(log, key, maxKeys) == []
    decreases |log|
  {
    if log != [] {
      assert log[|log| - 1].key != key;
      assert forall i :: 0 <= i < |log| - 1 ==> log[..|log| - 1][i] == log[i];
      UnseenStreak(log[..|log| - 1], key, maxKeys);
    }
  }

  /** A key that is in the dictionary is not due for a reset, one that is not starts afresh. */
  lemma StreakContinues(h: KeyedHistory, stamps: seq<real>, maxKeys: nat, maxRequests: int, window: real, c: Call)
    requires KeptKeys(h, stamps, maxKeys, maxRequests, window)
    ensures Streak(h.log + [c], c.key, maxKeys)
            == (if c.key in h.buckets.grants then Streak(h.log, c.key, maxKeys) else []) + [c.now]
  {
    var log := h.log + [c];
    assert log[..|log| - 1] == h.log;
    RecencyMeans(h.log, c.key);
    if Seen(h.log, c.key) {
      InNewest(Recency(h.log), c.key, maxKeys);
    } else {
      UnseenStreak(h.log, c.key, maxKeys);
    }
  }

  ghost function BucketOf(b: Buckets, key: Key): seq<real> {
    if key in b.grants then b.grants[key] else []
  }

  lemma OtherStreak(log: seq<Call>, c: Call, key: Key, maxKeys: nat)
    requires key != c.key
    ensures Streak(log + [c], key, maxKeys) == Streak(log, key, maxKeys)
  {
    assert (log + [c])[..|log|] == log;
  }

  /** The dictionary after a call: key order unmoved by a refusal, touched and cut to size by an
      admission; no other bucket changes while it stays. */
  lemma DictionaryStep(b: Buckets, maxKeys: nat, key: Key, maxRequests: int, window: real, now: real)
    requires maxRequests > 0 && window > 0.0 && |b.order| <= maxKeys
    requires forall k :: k in b.order <==> k in b.grants
    ensures var a := CheckKey(b, maxKeys, key, maxRequests, window, now);
            && a.buckets.order == (if a.verdict.Admitted? then Newest(Touch(b.order, key), maxKeys) else b.order)
            && (forall k :: k in a.buckets.order <==> k in a.buckets.grants)
            && (forall k :: k in a.buckets.grants && k != key ==> k in b.grants && a.buckets.grants[k] == b.grants[k])
  {
    CheckMeans(BucketOf(b, key), maxRequests, window, now);
    var a := CheckKey(b, maxKeys, key, maxRequests, window, now);
    if a.verdict.Admitted? {
      var touched := Touch(b.order, key);
      assert forall k :: k in Newest(touched, maxKeys) ==> k in touched;
    }
  }

  lemma OrderStep(h: KeyedHistory, stamps: seq<real>, maxKeys: nat, maxRequests: int, window: real, c: Call)
    requires maxRequests > 0 && window > 0.0 && KeptKeys(h, stamps, maxKeys, maxRequests, window)
    ensures var h' := KeyedStep(h, maxKeys, maxRequests, window, c);
            h'.buckets.order == Newest(Recency(h'.log), maxKeys)
  {
    var h' := KeyedStep(h, maxKeys, maxRequests, window, c);
    DictionaryStep(h.buckets, maxKeys, c.key, maxRequests, window, c.now);
    if |h'.log| > |h.log| {
      RecencyMeans(h.log, c.key);
      TouchNewest(Recency(h.log), maxKeys, c.key);
      assert h'.log[..|h'.log| - 1] == h.log;
    }
  }

  lemma KeyedStepKeeps(h: KeyedHistory, stamps: seq<real>, maxKeys: nat, maxRequests: int, window: real, c: Call)
    requires maxRequests > 0 && window > 0.0 && KeptKeys(h, stamps, maxKeys, maxRequests, window)
    ensures KeptKeys(KeyedStep(h, maxKeys, maxRequests, window, c), stamps + [c.now], maxKeys, maxRequests, window)
  {
    var h' := KeyedStep(h, maxKeys, maxRequests, window, c);
    OrderStep(h, stamps, maxKeys, maxRequests, window, c);
    DictionaryStep(h.buckets, maxKeys, c.key, maxRequests, window, c.now);
    forall k | k in h'.buckets.grants
      ensures Kept(History(h'.buckets.grants[k], Streak(h'.log, k, maxKeys)), stamps + [c.now], maxRequests, window)
    {
      if k == c.key {
        OwnBucketKept(h, stamps, maxKeys, maxRequests, window, c);
      } else {
        KeptLater(History(h.buckets.grants[k], Streak(h.log, k, maxKeys)), stamps, maxRequests, window, c.now);
        OtherStreak(h.log, c, k, maxKeys);
      }
    }
  }

  /** What the key's bucket and streak are to a call of it. */
  ghost function Grants(h: KeyedHistory, key: Key, maxKeys: nat): History {
    if key in h.buckets.grants then History(h.buckets.grants[key], Streak(h.log, key, maxKeys)) else History([], [])
  }

  /** To its own key a call is a step of a rolling window. */
  lemma OwnStep(h: KeyedHistory, stamps: seq<real>, maxKeys: nat, maxRequests: int, window: real, c: Call)
    requires maxRequests > 0 && window > 0.0 && KeptKeys(h, stamps, maxKeys, maxRequests, window)
    ensures var h', next := KeyedStep(h, maxKeys, maxRequests, window, c),
                            Step(Grants(h, c.key, maxKeys), maxRequests, window, c.now);
            && Streak(h'.log, c.key, maxKeys) == next.log
            && (c.key in h'.buckets.grants ==> h'.buckets.grants[c.key] == next.queue)
  {
    StreakContinues(h, stamps, maxKeys, maxRequests, window, c);
    CheckMeans(BucketOf(h.buckets, c.key), maxRequests, window, c.now);
    hide Streak, Touch, Newest, Expired, KeptKeys;
  }

  lemma OwnBucketKept(h: KeyedHistory, stamps: seq<real>, maxKeys: nat, maxRequests: int, window: real, c: Call)
    requires maxRequests > 0 && window > 0.0 && KeptKeys(h, stamps, maxKeys, maxRequests, window)
    requires c.key in KeyedStep(h, maxKeys, maxRequests, window, c).buckets.grants
    ensures var h' := KeyedStep(h, maxKeys, maxRequests, window, c);
            Kept(History(h'.buckets.grants[c.key], Streak(h'.log, c.key, maxKeys)), stamps + [c.now], maxRequests,
                 window)
  {
    hide KeyedStep, Streak, Step;
    OwnStep(h, stamps, maxKeys, maxRequests, window, c);
    StepKeeps(Grants(h, c.key, maxKeys), stamps, maxRequests, window, c.now);
  }

  /** In every run the dictionary lists exactly the `maxKeys` most recently admitted keys, oldest
      admission first; so it never outgrows `maxKeys`, and eviction takes the stalest key. */
  lemma {:induction false} KeyedRunKeeps(calls: seq<Call>, maxKeys: nat, maxRequests: int, window: real)
    requires maxRequests > 0 && window > 0.0
    ensures KeptKeys(KeyedRun(calls, maxKeys, maxRequests, window), Stamps(calls), maxKeys, maxRequests, window)
    ensures |KeyedRun(calls, maxKeys, maxRequests, window).buckets.order| <= maxKeys
    decreases |calls|
  {
    if calls != [] {
      var n := |calls| - 1;
      KeyedRunKeeps(calls[..n], maxKeys, maxRequests, window);
      KeyedStepKeeps(KeyedRun(calls[..n], maxKeys, maxRequests, window), Stamps(calls[..n]), maxKeys, maxRequests,
                     window, calls[n]);
    }
  }

  // ---- the budget per key ----------------------------------------------------------------------

  lemma {:induction false} StreakWithinWindow(calls: seq<Call>, maxKeys: nat, maxRequests: int, window: real,
                                              skew: real,
                                              key: Key, lo: real)
    requires maxRequests > 0 && window > 0.0 && skew >= 0.0 && InOrder(Stamps(calls), skew)
    ensures Count(Streak(KeyedRun(calls, maxKeys, maxRequests, window).log, key, maxKeys), lo, lo + window - skew)
                <= maxRequests
    decreases |calls|
  {
    if calls != [] {
      var n := |calls| - 1;
      var c := calls[n];
      StreakWithinWindow(calls[..n], maxKeys, maxRequests, window, skew, key, lo);
      KeyedRunKeeps(calls[..n], maxKeys, maxRequests, window);
      var h := KeyedRun(calls[..n], maxKeys, maxRequests, window);
      if key != c.key {
        OtherStreak(h.log, c, key, maxKeys);
      } else {
        StreakStep(h, Stamps(calls[..n]), maxKeys, maxRequests, window, skew, c, lo);
      }
    }
  }

  lemma StreakStep(h: KeyedHistory, stamps: seq<real>, maxKeys: nat, maxRequests: int, window: real, skew: real,
                   c: Call, lo: real)
    requires maxRequests > 0 && window > 0.0 && KeptKeys(h, stamps, maxKeys, maxRequests, window) && skew >= 0.0
    requires forall k :: 0 <= k < |stamps| ==> stamps[k] - skew <= c.now
    requires Count(Streak(h.log, c.key, maxKeys), lo, lo + window - skew) <= maxRequests
    ensures Count(Streak(KeyedStep(h, maxKeys, maxRequests, window, c).log, c.key, maxKeys), lo, lo + window - skew)
                <= maxRequests
  {
    hide KeyedStep, Streak, Step;
    OwnStep(h, stamps, maxKeys, maxRequests, window, c);
    StepWithinWindow(Grants(h, c.key, maxKeys), stamps, maxRequests, window, skew, c.now, lo);
  }

  /** From index p on, `key` never came back after `maxKeys` or more distinct other keys. */
  ghost predicate NeverDisplaced(log: seq<Call>, key: Key, maxKeys: nat, p: nat) {
    forall q :: p < q < |log| && log[q].key == key ==> |OthersSince(log[..q], key)| < maxKeys
  }

  lemma {:induction false} StreakCovers(log: seq<Call>, key: Key, maxKeys: nat, p: nat) returns (earlier: seq<real>)
    requires p < |log| && log[p].key == key && NeverDisplaced(log, key, maxKeys, p)
    ensures Streak(log, key, maxKeys) == earlier + KeyStamps(log[p..], key)
    decreases |log|
  {
    var n := |log| - 1;
    var init := log[..n];
    assert log[p..][..n - p] == init[p..];
    if p == n {
      earlier := Streak(log, key, maxKeys)[..|Streak(log, key, maxKeys)| - 1];
      assert KeyStamps(log[p..][..0], key) == [];
    } else {
      forall q | p < q < |init| && init[q].key == key ensures |OthersSince(init[..q], key)| < maxKeys {
        assert log[q].key == key && init[..q] == log[..q];
      }
      earlier := StreakCovers(init, key, maxKeys, p);
      assert log[p..][n - p] == log[n];
    }
  }

  lemma {:induction false} CountConcat(a: seq<real>, b: seq<real>, lo: real, hi: real)
    ensures Count(a + b, lo, hi) == Count(a, lo, hi) + Count(b, lo, hi)
    decreases |b|
  {
    if b == [] {
      assert a + b == a;
    } else {
      assert (a + b)[..|a + b| - 1] == a + b[..|b| - 1];
      CountConcat(a, b[..|b| - 1], lo, hi);
    }
  }

  /** THE PER-KEY BUDGET. In every run, whatever the other keys do, a key's admissions from log index
      p on stay within `maxRequests` in every window of length `window - skew`, as long as the key has
      not since come back after `maxKeys` or more distinct other keys were admitted. */
  lemma KeyBudgetHolds(calls: seq<Call>, maxKeys: nat, maxRequests: int, window: real, skew: real, key: Key, p: nat,
                       lo: real)
    requires maxRequests > 0 && window > 0.0 && skew >= 0.0 && InOrder(Stamps(calls), skew)
    requires p < |KeyedRun(calls, maxKeys, maxRequests, window).log|
    requires KeyedRun(calls, maxKeys, maxRequests, window).log[p].key == key
    requires NeverDisplaced(KeyedRun(calls, maxKeys, maxRequests, window).log, key, maxKeys, p)
    ensures Count(KeyStamps(KeyedRun(calls, maxKeys, maxRequests, window).log[p..], key), lo, lo + window - skew)
                <= maxRequests
  {
    hide KeyedRun, NeverDisplaced, InOrder, Streak, KeyStamps, Count;
    var log := KeyedRun(calls, maxKeys, maxRequests, window).log;
    StreakWithinWindow(calls, maxKeys, maxRequests, window, skew, key, lo);
    var earlier := StreakCovers(log, key, maxKeys, p);
    CountConcat(earlier, KeyStamps(log[p..], key), lo, lo + window - skew);
  }

  // ---- exactly how long a window is safe for a key -----------------------------------------------

  ghost predicate Apart(stamps: seq<real>, window: real) {
    forall i, j :: 0 <= i < j < |stamps| ==> stamps[j] - stamps[i] >= window
  }

  /** With a budget of one the grants of a streak are a window apart, and the bucket holds the last. */
  ghost predicate KeySpaced(h: KeyedHistory, k: Key, maxKeys: nat, window: real) {
    && Apart(Streak(h.log, k, maxKeys), window)
    && (k in h.buckets.grants ==> Spaced(History(h.buckets.grants[k], Streak(h.log, k, maxKeys)), window))
  }

  lemma {:induction false} SingleKeyGrants(calls: seq<Call>, k: Key, maxKeys: nat, window: real)
    requires window > 0.0
    ensures KeySpaced(KeyedRun(calls, maxKeys, 1, window), k, maxKeys, window)
    decreases |calls|
  {
    if calls != [] {
      var n := |calls| - 1;
      SingleKeyGrants(calls[..n], k, maxKeys, window);
      KeyedRunKeeps(calls[..n], maxKeys, 1, window);
      hide KeySpaced, KeptKeys, KeyedStep;
      var h := KeyedRun(calls[..n], maxKeys, 1, window);
      if k == calls[n].key {
        OwnSpaced(h, Stamps(calls[..n]), maxKeys, window, calls[n]);
      } else {
        OtherSpaced(h, Stamps(calls[..n]), maxKeys, window, calls[n], k);
      }
    }
  }

  lemma OtherSpaced(h: KeyedHistory, stamps: seq<real>, maxKeys: nat, window: real, c: Call, k: Key)
    requires window > 0.0 && KeptKeys(h, stamps, maxKeys, 1, window) && KeySpaced(h, k, maxKeys, window)
    requires |h.buckets.order| <= maxKeys && k != c.key
    ensures KeySpaced(KeyedStep(h, maxKeys, 1, window, c), k, maxKeys, window)
  {
    OtherStreak(h.log, c, k, maxKeys);
    DictionaryStep(h.buckets, maxKeys, c.key, 1, window, c.now);
    hide Streak, Apart, Spaced, CheckKey;
  }

  lemma OwnSpaced(h: KeyedHistory, stamps: seq<real>, maxKeys: nat, window: real, c: Call)
    requires window > 0.0 && KeptKeys(h, stamps, maxKeys, 1, window) && KeySpaced(h, c.key, maxKeys, window)
    ensures KeySpaced(KeyedStep(h, maxKeys, 1, window, c), c.key, maxKeys, window)
  {
    hide KeptKeys, KeyedStep, Streak, Step;
    OwnStep(h, stamps, maxKeys, 1, window, c);
    SingleStep(Grants(h, c.key, maxKeys), c.now, window);
  }

  /** Calls of one key. */
  ghost function OfKey(key: Key, stamps: seq<real>): (calls: seq<Call>)
    ensures |calls| == |stamps| && forall i :: 0 <= i < |calls| ==> calls[i] == Call(key, stamps[i])
  {
    seq(|stamps|, i requires 0 <= i < |stamps| => Call(key, stamps[i]))
  }

  ghost function OneBucket(key: Key, h: History): Buckets {
    if h.log == [] then Buckets([], map[]) else Buckets([key], map[key := h.queue])
  }

  /** A key alone is served as by the plain rolling window. */
  lemma {:induction false} LoneKey(key: Key, stamps: seq<real>, maxKeys: nat, maxRequests: int, window: real)
    requires maxKeys > 0 && maxRequests > 0 && window > 0.0
    ensures var h := Run(stamps, maxRequests, window);
            && KeyedRun(OfKey(key, stamps), maxKeys, maxRequests, window)
               == KeyedHistory(OneBucket(key, h), OfKey(key, h.log))
            && (h.log == [] ==> h.queue == [])
    decreases |stamps|
  {
    if stamps != [] {
      var n := |stamps| - 1;
      LoneKey(key, stamps[..n], maxKeys, maxRequests, window);
      assert OfKey(key, stamps)[..n] == OfKey(key, stamps[..n]);
      LoneStep(key, Run(stamps[..n], maxRequests, window), stamps[n], maxKeys, maxRequests, window);
    }
  }

  lemma LoneStep(key: Key, h: History, now: real, maxKeys: nat, maxRequests: int, window: real)
    requires maxKeys > 0 && maxRequests > 0 && window > 0.0 && (h.log == [] ==> h.queue == [])
    ensures var next := Step(h, maxRequests, window, now);
            && KeyedStep(KeyedHistory(OneBucket(key, h), OfKey(key, h.log)), maxKeys, maxRequests, window,
                         Call(key, now))
               == KeyedHistory(OneBucket(key, next), OfKey(key, next.log))
            && (next.log == [] ==> next.queue == [])
  {
    CheckMeans(h.queue, maxRequests, window, now);
    assert OfKey(key, h.log + [now]) == OfKey(key, h.log) + [Call(key, now)];
    assert Touch([key], key) == [key] && Touch([], key) == [key];
    hide Touch, Newest, Check, Expired;
    assert Check(h.queue, maxRequests, window, now).Refused? ==> h.queue != [];
  }

  lemma {:induction false} OneKeysStamps(key: Key, stamps: seq<real>)
    ensures Stamps(OfKey(key, stamps)) == stamps == KeyStamps(OfKey(key, stamps), key)
    ensures OthersSince(OfKey(key, stamps), key) == {}
  {
    if stamps != [] {
      var n := |stamps| - 1;
      OneKeysStamps(key, stamps[..n]);
      assert OfKey(key, stamps)[..n] == OfKey(key, stamps[..n]);
    }
  }

  ghost predicate KeyWithinCap(calls: seq<Call>, key: Key, p: nat, maxKeys: nat, maxRequests: int, window: real,
                               lo: real, len: real)
  {
    var log := KeyedRun(calls, maxKeys, maxRequests, window).log;
    p < |log| && log[p].key == key && NeverDisplaced(log, key, maxKeys, p) ==>
      Count(KeyStamps(log[p..], key), lo, lo + len) <= maxRequests
  }

  /** No run whose stamps are out of order by at most `skew` puts more than the budget of a key that is not
      displaced into a window of that length. */
  ghost predicate KeyCapHolds(maxKeys: nat, maxRequests: int, window: real, skew: real, len: real) {
    forall calls, key, p: nat, lo :: InOrder(Stamps(calls), skew) ==>
      KeyWithinCap(calls, key, p, maxKeys, maxRequests, window, lo, len)
  }

  /** THE EXACT CAP PER KEY is that of a rolling window of its own, for any bound on the keys. (With no room
      for any key, each admission displaces it.) */
  lemma KeyCapHoldsIff(maxKeys: nat, maxRequests: int, window: real, skew: real, len: real)
    requires maxRequests > 0 && window > 0.0 && skew >= 0.0
    ensures KeyCapHolds(maxKeys, maxRequests, window, skew, len)
            <==> maxKeys == 0 || len <= SafeLength(maxRequests, window, skew)
  {
    hide Stamps, InOrder, KeyWithinCap, SafeLength;
    if maxKeys == 0 || len <= SafeLength(maxRequests, window, skew) {
      forall calls, key, p: nat, lo | InOrder(Stamps(calls), skew)
        ensures KeyWithinCap(calls, key, p, maxKeys, maxRequests, window, lo, len)
      {
        KeySafe(calls, key, p, maxKeys, maxRequests, window, skew, lo, len);
      }
    } else {
      var stamps, lo := LateCall(maxRequests, window, skew, len);
      LoneKeyBreaks(Key(""), stamps, maxKeys, maxRequests, window, lo, len);
    }
  }

  lemma LoneKeyBreaks(key: Key, stamps: seq<real>, maxKeys: nat, maxRequests: int, window: real, lo: real, len: real)
    requires maxKeys > 0 && maxRequests > 0 && window > 0.0
    requires stamps != [] && Run(stamps, maxRequests, window).log == stamps
    requires Count(stamps, lo, lo + len) > maxRequests
    ensures Stamps(OfKey(key, stamps)) == stamps
    ensures !KeyWithinCap(OfKey(key, stamps), key, 0, maxKeys, maxRequests, window, lo, len)
  {
    hide Count, Run, KeyedRun, NeverDisplaced, KeyStamps, Stamps, OfKey;
    LoneKeyLog(key, stamps, maxKeys, maxRequests, window);
  }

  lemma LoneKeyLog(key: Key, stamps: seq<real>, maxKeys: nat, maxRequests: int, window: real)
    requires maxKeys > 0 && maxRequests > 0 && window > 0.0
    requires stamps != [] && Run(stamps, maxRequests, window).log == stamps
    ensures var log := KeyedRun(OfKey(key, stamps), maxKeys, maxRequests, window).log;
            && log != [] && log[0].key == key && NeverDisplaced(log, key, maxKeys, 0)
            && KeyStamps(log[0..], key) == stamps == Stamps(OfKey(key, stamps))
  {
    hide NeverDisplaced, OthersSince, KeyStamps, Stamps, Run, KeyedRun;
    LoneKey(key, stamps, maxKeys, maxRequests, window);
    OneKeysStamps(key, stamps);
    NotDisplacedAlone(key, stamps, maxKeys);
    assert OfKey(key, stamps)[0..] == OfKey(key, stamps);
  }

  lemma NotDisplacedAlone(key: Key, stamps: seq<real>, maxKeys: nat)
    requires maxKeys > 0
    ensures NeverDisplaced(OfKey(key, stamps), key, maxKeys, 0)
  {
    hide OthersSince, KeyStamps, Stamps;
    var log := OfKey(key, stamps);
    forall q | 0 < q < |log| ensures |OthersSince(log[..q], key)| < maxKeys {
      OneKeysStamps(key, stamps[..q]);
      assert log[..q] == OfKey(key, stamps[..q]);
    }
  }

  lemma KeySafe(calls: seq<Call>, key: Key, p: nat, maxKeys: nat, maxRequests: int, window: real, skew: real, lo: real,
                len: real)
    requires maxRequests > 0 && window > 0.0 && skew >= 0.0 && InOrder(Stamps(calls), skew)
    requires maxKeys == 0 || len <= SafeLength(maxRequests, window, skew)
    ensures KeyWithinCap(calls, key, p, maxKeys, maxRequests, window, lo, len)
  {
    hide KeyedRun, NeverDisplaced, InOrder, Streak, KeyStamps, Count, Stamps, SafeLength;
    var log := KeyedRun(calls, maxKeys, maxRequests, window).log;
    if p < |log| && log[p].key == key && NeverDisplaced(log, key, maxKeys, p) {
      var earlier := StreakCovers(log, key, maxKeys, p);
      StreakSafe(calls, key, maxKeys, maxRequests, window, skew, lo, len);
      CountConcat(earlier, KeyStamps(log[p..], key), lo, lo + len);
    }
  }

  lemma StreakSafe(calls: seq<Call>, key: Key, maxKeys: nat, maxRequests: int, window: real, skew: real, lo: real,
                   len: real)
    requires maxRequests > 0 && window > 0.0 && skew >= 0.0 && InOrder(Stamps(calls), skew)
    requires maxKeys == 0 || len <= SafeLength(maxRequests, window, skew)
    ensures Count(Streak(KeyedRun(calls, maxKeys, maxRequests, window).log, key, maxKeys), lo, lo + len) <= maxRequests
  {
    hide KeyedRun, InOrder, Streak, Count, Stamps;
    var streak := Streak(KeyedRun(calls, maxKeys, maxRequests, window).log, key, maxKeys);
    if maxKeys == 0 {
      ShortStreak(KeyedRun(calls, maxKeys, maxRequests, window).log, key);
      CountAtMost(streak, lo, lo + len);
    } else if maxRequests == 1 {
      SingleKeyGrants(calls, key, maxKeys, window);
      CountApart(streak, window, lo, len);
    } else if skew <= window {
      StreakWithinWindow(calls, maxKeys, maxRequests, window, skew, key, lo);
      CountShorter(streak, lo, lo + len, lo + window - skew);
    } else {
      CountShorter(streak, lo, lo + len, lo);
      CountEmpty(streak, lo);
    }
  }

  lemma {:induction false} ShortStreak(log: seq<Call>, key: Key)
    ensures |Streak(log, key, 0)| <= 1
  {
    if log != [] { ShortStreak(log[..|log| - 1], key); }
  }

  lemma {:induction false} CountAtMost(log: seq<real>, lo: real, hi: real)
    ensures Count(log, lo, hi) <= |log|
  {
    if log != [] { CountAtMost(log[..|log| - 1], lo, hi); }
  }

  /** A refused caller keeps its place and its budget: the key order does not move, no other bucket
      changes, and its own next call answers as if the refused one had not happened. */
  lemma RefusalIsSticky(b: Buckets, maxKeys: nat, key: Key, maxRequests: int, window: real, now: real, later: real)
    requires maxRequests > 0 && window > 0.0 && now <= later
    requires CheckKey(b, maxKeys, key, maxRequests, window, now).verdict.Refused?
    ensures var b' := CheckKey(b, maxKeys, key, maxRequests, window, now).buckets;
            && key in b.grants && b'.order == b.order && b'.grants.Keys == b.grants.Keys
            && (forall k :: k in b.grants && k != key ==> b'.grants[k] == b.grants[k])
            && CheckKey(b', maxKeys, key, maxRequests, window, later)
               == CheckKey(b, maxKeys, key, maxRequests, window, later)
  {
    var b' := CheckKey(b, maxKeys, key, maxRequests, window, now).buckets;
    CheckMeans(BucketOf(b, key), maxRequests, window, now);
    RefusalLeavesNoTrace(BucketOf(b, key), maxRequests, window, now, later);
    var v := Check(b.grants[key], maxRequests, window, later);
    assert b'.grants[key := v.queue] == b.grants[key := v.queue];
  }
}
