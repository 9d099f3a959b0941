/** Whose key pays for the next call: backend/app/llm/keys.py, the ledger it reads and appends to
    (backend/app/llm/ledger.py), and the benching and failover of backend/app/debate/anthropic_client.py.
    Keys of one provider are named by their owners, in slot order; costs and times are reals. */
module KeyChoice {
  import opened Wrappers

  type Owner = int

  /** One llm_usage row; an unpriced model leaves the cost NULL. */
  datatype Row = Row(owner: Owner, cost: Option<real>)

  function Cost(r: Row): real {
    if r.cost.Some? then r.cost.value else 0.0
  }

  /** What the ledger says an owner has spent; nothing recorded is zero. */
  function Spend(ledger: seq<Row>, owner: Owner): real {
    if ledger == [] then 0.0
    else
      var last := ledger[|ledger| - 1];
      Spend(ledger[..|ledger| - 1], owner) + if last.owner == owner then Cost(last) else 0.0
  }

  /** An owner's spend is the sum of the costs of the owner's rows, none of them at first. */
  lemma SpendMeans(ledger: seq<Row>, row: Row, owner: Owner)
    ensures Spend([], owner) == 0.0
    ensures Spend(ledger + [row], owner)
            == Spend(ledger, owner) + if row.owner == owner && row.cost.Some? then row.cost.value else 0.0
  {
    assert (ledger + [row])[..|ledger|] == ledger;
  }

  // ---- the configured keys -------------------------------------------------------------------

  /** A slot: whether its secret is set, its owner label if set, and the name of its variable. */
  datatype Slot = Slot(provider: int, secret: bool, named: Option<Owner>, variable: Owner)

  function OwnerOf(s: Slot): Owner {
    if s.named.Some? then s.named.value else s.variable
  }

  predicate Usable(s: Slot, provider: Option<int>) {
    (provider == None || s.provider == provider.value) && s.secret
  }

  /** `places` lists the slots the keys came from: all the usable ones, in slot order. */
  method Available(slots: seq<Slot>, provider: Option<int>) returns (keys: seq<Owner>, places: seq<nat>)
    ensures |keys| == |places|
    ensures forall i :: 0 <= i < |places| ==>
              places[i] < |slots| && Usable(slots[places[i]], provider) && keys[i] == OwnerOf(slots[places[i]])
    ensures forall i, j :: 0 <= i < j < |places| ==> places[i] < places[j]
    ensures forall n :: 0 <= n < |slots| && Usable(slots[n], provider) ==> n in places
    ensures forall n :: n in places <==>
              0 <= n < |slots| && slots[n].secret && (provider.Some? ==> slots[n].provider == provider.value)
    ensures forall i :: 0 <= i < |keys| ==>
              var s := slots[places[i]];
              (s.named.Some? ==> keys[i] == s.named.value) && (s.named.None? ==> keys[i] == s.variable)
  {
    keys, places := [], [];
    for n := 0 to |slots|
      invariant |keys| == |places|
      invariant forall i :: 0 <= i < |places| ==>
                  places[i] < n && Usable(slots[places[i]], provider) && keys[i] == OwnerOf(slots[places[i]])
      invariant forall i, j :: 0 <= i < j < |places| ==> places[i] < places[j]
      invariant forall m :: 0 <= m < n && Usable(slots[m], provider) ==> m in places
    {
      if provider.Some? && slots[n].provider != provider.value { continue; }
      if !slots[n].secret { continue; }
      keys, places := keys + [OwnerOf(slots[n])], places + [n];
    }
  }

  // ---- selection -----------------------------------------------------------------------------

  /** Position i is chosen: nobody has spent less, and of those who spent as little it comes first. */
  predicate IsChoice(keys: seq<Owner>, ledger: seq<Row>, i: nat) {
    && i < |keys|
    && (forall j :: 0 <= j < |keys| ==> Spend(ledger, keys[i]) <= Spend(ledger, keys[j]))
    && (forall j :: 0 <= j < i ==> Spend(ledger, keys[i]) < Spend(ledger, keys[j]))
  }

  /** min over (spend, slot): the one position that qualifies. */
  function Select(keys: seq<Owner>, ledger: seq<Row>): (i: nat)
    requires keys != []
    ensures IsChoice(keys, ledger, i)
    ensures forall k :: 0 <= k < |keys| && IsChoice(keys, ledger, k) ==> k == i
  {
    var n := |keys| - 1;
    if n == 0 then 0
    else
      var i := Select(keys[..n], ledger);
      assert forall j :: 0 <= j < n ==> keys[..n][j] == keys[j];
      if Spend(ledger, keys[n]) < Spend(ledger, keys[i]) then n else i
  }

  // ---- benching and failover -----------------------------------------------------------------

  const BENCH_SECONDS: real := 3600.0

  predicate Exhausted(benched: map<Owner, real>, owner: Owner, now: real) {
    owner in benched && now < benched[owner]
  }

  /** Whom `_client` may hand out: the chosen owner unless benched; then the first other one not benched;
      the benched one only when every other is benched too. */
  predicate HandsOut(keys: seq<Owner>, ledger: seq<Row>, benched: map<Owner, real>, now: real, owner: Owner)
    requires keys != []
  {
    var best := keys[Select(keys, ledger)];
    if !Exhausted(benched, best, now) then owner == best
    else FirstOther(keys, benched, now, best, if owner == best then None else Some(owner))
  }

  /** `other` is the first key in slot order that is neither `owner`'s nor benched, None if there is none. */
  predicate FirstOther(keys: seq<Owner>, benched: map<Owner, real>, now: real, owner: Owner, other: Option<Owner>) {
    match other
    case None => forall j :: 0 <= j < |keys| ==> keys[j] == owner || Exhausted(benched, keys[j], now)
    case Some(o) =>
      exists i :: 0 <= i < |keys| && keys[i] == o && o != owner && !Exhausted(benched, o, now)
                  && forall j :: 0 <= j < i ==> keys[j] == owner || Exhausted(benched, keys[j], now)
  }

  method FindOther(keys: seq<Owner>, benched: map<Owner, real>, now: real, owner: Owner) returns (other: Option<Owner>)
    ensures FirstOther(keys, benched, now, owner, other)
  {
    for i := 0 to |keys|
      invariant forall j :: 0 <= j < i ==> keys[j] == owner || Exhausted(benched, keys[j], now)
    {
      if keys[i] != owner && !Exhausted(benched, keys[i], now) { return Some(keys[i]); }
    }
    return None;
  }

  /** How one attempt at the API ends. */
  datatype Attempt = Answer | UsageLimit | OtherError

  datatype Reply = Served(owner: Owner) | Unavailable | Raised

  class Debate {
    var benched: map<Owner, real>
    var ledger: seq<Row>

    /** spend_by_owner: a database outage reads as nothing spent by anybody. */
    function Read(reachable: bool): seq<Row>
      reads this`ledger
    {
      if reachable then ledger else []
    }

    method Client(keys: seq<Owner>, now: real, reachable: bool) returns (owner: Option<Owner>)
      ensures owner.Some? <==> keys != []
      ensures owner.Some? ==> owner.value in keys && HandsOut(keys, Read(reachable), benched, now, owner.value)
      ensures owner.Some? ==>
                exists i: nat ::
                  && IsChoice(keys, if reachable then ledger else [], i)
                  && (!reachable ==> i == 0)
                  && if keys[i] in benched && now < benched[keys[i]]
                     then FirstOther(keys, benched, now, keys[i], if owner.value == keys[i] then None else owner)
                     else owner.value == keys[i]
    {
      if keys == [] { return None; }
      var chosen := keys[Select(keys, Read(reachable))];
      ghost var i := Select(keys, Read(reachable));
      assert IsChoice(keys, if reachable then ledger else [], i);
      assert !reachable ==> IsChoice(keys, [], 0);
      if Exhausted(benched, chosen, now) {
        var other := FindOther(keys, benched, now, chosen);
        if other.Some? { chosen := other.value; }
      }
      return Some(chosen);
    }

    method MarkExhausted(owner: Owner, now: real)
      modifies this`benched
      ensures benched == old(benched)[owner := now + BENCH_SECONDS]
    {
      benched := benched[owner := now + BENCH_SECONDS];
    }

    /** `first` and `second` are how the two possible attempts would end; `tried` is who was asked. */
    method CreateWithFailover(keys: seq<Owner>, now: real, later: real, reachable: bool, first: Attempt,
                              second: Attempt)
      returns (reply: Reply, tried: seq<Owner>)
      requires now <= later
      modifies this`benched
      ensures |tried| <= 2 && (tried == [] <==> keys == [])
      ensures keys == [] ==> reply == Unavailable
      ensures keys != [] ==> HandsOut(keys, Read(reachable), old(benched), now, tried[0])
      ensures benched == if keys != [] && first == UsageLimit
                         then old(benched)[tried[0] := now + BENCH_SECONDS] else old(benched)
      ensures keys != [] && first == Answer ==> reply == Served(tried[0])
      ensures keys != [] && first == OtherError ==> reply == Raised
      ensures keys != [] && first != UsageLimit ==> |tried| == 1
      ensures keys != [] && first == UsageLimit ==>
                && FirstOther(keys, benched, later, tried[0], if |tried| == 2 then Some(tried[1]) else None)
                && reply == if |tried| == 1 then Unavailable else if second == Answer then Served(tried[1]) else Raised
    {
      var owner := Client(keys, now, reachable);
      if owner == None { return Unavailable, []; }
      tried := [owner.value];
      if first == Answer { return Served(owner.value), tried; }
      if first == OtherError { return Raised, tried; }
      MarkExhausted(owner.value, now);
      var other := FindOther(keys, benched, later, owner.value);
      if other == None { return Unavailable, tried; }
      tried := tried + [other.value];
      return if second == Answer then Served(other.value) else Raised, tried;
    }

    /** A served call's usage; a database failure is swallowed and leaves a hole. */
    method Record(owner: Owner, cost: Option<real>, reachable: bool)
      modifies this`ledger
      ensures ledger == if reachable then old(ledger) + [Row(owner, cost)] else old(ledger)
      ensures forall o :: Spend(ledger, o) == Spend(old(ledger), o)
                                              + if reachable && o == owner && cost.Some? then cost.value else 0.0
    {
      if reachable {
        ghost var before := ledger;
        ledger := ledger + [Row(owner, cost)];
        assert ledger[..|ledger| - 1] == before;
      }
    }
  }

  /** The bench lasts 3600 seconds, and at their end the owner is free again. */
  lemma BenchedForAnHour(benched: map<Owner, real>, owner: Owner, other: Owner, now: real, later: real)
    requires now <= later
    ensures Exhausted(benched[owner := now + BENCH_SECONDS], owner, later) <==> later < now + 3600.0
    ensures other != owner ==>
              (Exhausted(benched[owner := now + BENCH_SECONDS], other, later) <==> Exhausted(benched, other, later))
  {
  }

  /** A benched owner is left alone for the hour: asked again only when every other key is benched. */
  lemma BenchedIsAvoided(keys: seq<Owner>, ledger: seq<Row>, benched: map<Owner, real>, owner: Owner, now: real,
                         later: real)
    requires keys != [] && now <= later < now + BENCH_SECONDS
    requires HandsOut(keys, ledger, benched[owner := now + BENCH_SECONDS], later, owner)
    ensures forall j :: 0 <= j < |keys| && keys[j] != owner ==> Exhausted(benched, keys[j], later)
  {
    var b := benched[owner := now + BENCH_SECONDS];
    assert Exhausted(b, owner, later);
    assert keys[Select(keys, ledger)] == owner;
    forall j | 0 <= j < |keys| && keys[j] != owner ensures Exhausted(benched, keys[j], later) {
      assert Exhausted(b, keys[j], later);
    }
  }
}
