/** submit_order and fetch_order_by_client_id of src/alpaca_execution.py: what is checked before anything
    is sent, and what the answer is taken to mean. Prices and sizes are reals. */
module OrderEntry {
  import opened Wrappers

  datatype Kind = Market | Limit | OtherKind(name: int)
  datatype Side = Buy | Sell | OtherSide(name: int)

  datatype Request = Request(kind: Kind, side: Side, qty: Option<real>, notional: Option<real>,
                             limit: Option<real>, hasId: bool)

  /** How an HTTP exchange ends for the caller. */
  datatype Exchange = Broken | Reply(status: nat, decodable: bool)

  /** `Raised` is every exception other than ExecutionRefused and SubmissionUncertain. */
  datatype Outcome = Accepted | Refused | Uncertain | Raised

  /** What the broker may be sent: one positive size, a limit price exactly where it belongs, an
      allowed type, and the caller's own id. */
  predicate Sendable(r: Request, allowed: set<Kind>) {
    && r.kind in allowed && !r.side.OtherSide? && r.hasId
    && (r.kind == Limit ==> r.limit.Some?) && (r.kind == Market ==> r.limit == None)
    && (r.kind == Limit ==> r.limit.value > 0.0)
    && (if r.qty.Some? then r.notional == None && r.qty.value > 0.0
        else r.notional.Some? && r.notional.value > 0.0 && r.kind == Market)
  }

  function Meaning(x: Exchange): Outcome {
    match x
    case Broken => Uncertain
    case Reply(status, decodable) =>
      if status == 401 || status == 403 || status == 422 then Refused
      else if status >= 500 then Uncertain
      else if status >= 400 then Raised
      else if decodable then Accepted else Uncertain
  }

  /** `x` is how the POST would end were it sent. */
  method SubmitOrder(r: Request, allowed: set<Kind>, paper: bool, allowLive: bool, x: Exchange)
    returns (outcome: Outcome, sent: bool)
    ensures sent <==> (paper || allowLive) && Sendable(r, allowed)
    ensures sent ==> outcome == Meaning(x)
    ensures !sent ==> outcome == if paper || allowLive then Refused else Raised
    ensures sent ==>
              && (outcome == Accepted <==> x.Reply? && x.status < 400 && x.decodable)
              && (outcome == Refused <==> x.Reply? && x.status in {401, 403, 422})
              && (outcome == Raised <==> x.Reply? && 400 <= x.status < 500 && x.status !in {401, 403, 422})
  {
    if !allowLive && !paper { return Raised, false; }
    if r.kind !in allowed { return Refused, false; }
    if r.kind == Limit && (r.limit == None || r.limit.value <= 0.0) { return Refused, false; }
    if r.kind == Market && r.limit != None { return Refused, false; }
    if r.side.OtherSide? { return Refused, false; }
    if (r.qty == None) == (r.notional == None) { return Refused, false; }
    if r.qty.Some? && r.qty.value <= 0.0 { return Refused, false; }
    if r.notional.Some? && r.notional.value <= 0.0 { return Refused, false; }
    if r.notional.Some? && r.kind != Market { return Refused, false; }
    if !r.hasId { return Refused, false; }
    sent := true;
    if x.Broken? { return Uncertain, true; }
    if x.status == 401 || x.status == 403 { return Refused, true; }
    if x.status == 422 { return Refused, true; }
    if x.status >= 500 { return Uncertain, true; }
    if x.status >= 400 { return Raised, true; }
    if !x.decodable { return Uncertain, true; }
    return Accepted, true;
  }

  /** The broker's side: an id is used for one order only, below 400 means this request made the order,
      and a 4xx means it made none. A 5xx promises nothing. */
  predicate Honest(had: bool, creates: bool, status: nat) {
    && (creates ==> !had)
    && (status < 400 ==> creates)
    && (400 <= status < 500 ==> !creates)
  }

  /** Whether the order exists after a request that the broker may have `handled`, whose reply may
      have been lost on the way back. */
  ghost predicate Possible(had: bool, has: bool, x: Exchange) {
    match x
    case Broken => had ==> has
    case Reply(status, _) => exists creates :: Honest(had, creates, status) && has == (had || creates)
  }

  /** Accepted means there is an order. Refused means there is none exactly when the id was not used
      before. Uncertain is no evasion: short of an undecodable success, both worlds remain possible for
      an unused id. */
  lemma MeaningIsSound(had: bool, has: bool, x: Exchange)
    requires Possible(had, has, x)
    ensures Meaning(x) == Accepted ==> has && !had
    ensures Meaning(x) == Refused ==> (has <==> had)
    ensures Meaning(x) == Uncertain && !had && !(x.Reply? && x.status < 400) ==>
              Possible(had, true, x) && Possible(had, false, x)
    ensures Meaning(x) == Uncertain && x.Reply? && x.status < 400 ==> has
  {
    if x.Reply? && x.status >= 500 && !had {
      assert Honest(false, true, x.status) && Honest(false, false, x.status);
    }
  }

  /** WHAT THE OUTCOME SAYS OF THE WORLD. An answer that leaves open whether the order was made, for an id not
      used before, is uncertain and never an exception; an exception means that a reply excluded the order. */
  lemma OpenIsUncertain(x: Exchange)
    ensures Possible(false, true, x) || Possible(false, false, x)
    ensures Possible(false, true, x) && Possible(false, false, x) ==> Meaning(x) == Uncertain
    ensures Meaning(x) == Uncertain <==> x.Broken? || x.status >= 500 || (x.status < 400 && !x.decodable)
    ensures Meaning(x) == Raised ==> x.Reply? && !Possible(false, true, x) && x.status !in {401, 403, 422}
    ensures Meaning(x) == Refused <==> x.Reply? && x.status in {401, 403, 422}
    ensures Meaning(x) == Accepted <==> x.Reply? && x.status < 400 && x.decodable
  {
    if x.Reply? { assert Honest(false, true, x.status) || Honest(false, false, x.status); }
    if x.Reply? && x.status < 500 { assert !(Honest(false, true, x.status) && Honest(false, false, x.status)); }
  }

  /** What is sent, by kinds: a market order for a positive number of shares or a positive sum, a limit order
      for a positive number at a positive price, and any other kind the caller lists for a positive number. */
  lemma SendableMeans(r: Request, allowed: set<Kind>)
    ensures Sendable(r, allowed) <==>
            && r.kind in allowed && r.side in {Buy, Sell} && r.hasId
            && match r.kind
               case Market =>
                 && r.limit == None
                 && ((r.notional == None && exists q :: r.qty == Some(q) && q > 0.0)
                     || (r.qty == None && exists n :: r.notional == Some(n) && n > 0.0))
               case Limit =>
                 && r.notional == None && (exists q :: r.qty == Some(q) && q > 0.0)
                 && exists p :: r.limit == Some(p) && p > 0.0
               case OtherKind(_) => r.notional == None && exists q :: r.qty == Some(q) && q > 0.0
  {
    if r.qty.Some? { assert r.qty == Some(r.qty.value); }
    if r.notional.Some? { assert r.notional == Some(r.notional.value); }
    if r.limit.Some? { assert r.limit == Some(r.limit.value); }
  }

  // ---- the lookup ----------------------------------------------------------------------------

  datatype Lookup = Found | Absent | StillUnknown

  /** `x` is how the GET ended. Only a 404 reads as absent and only a decoded success as found; everything
      else stays unknown. So whatever an honest broker holds, neither answer is ever wrong. */
  method FetchOrder(x: Exchange) returns (answer: Lookup)
    ensures answer == Absent <==> x.Reply? && x.status == 404
    ensures answer == Found <==> x.Reply? && x.status < 400 && x.decodable
    ensures forall has :: HonestLookup(has, x) ==> (answer == Absent ==> !has) && (answer == Found ==> has)
  {
    if x.Broken? { return StillUnknown; }
    if x.status == 404 { return Absent; }
    if x.status >= 400 { return StillUnknown; }
    if !x.decodable { return StillUnknown; }
    return Found;
  }

  /** No other answer than a 404 or one below 400 is bound to tell. */
  lemma OthersDoNotTell(has: bool, x: Exchange)
    ensures HonestLookup(has, x) <==> x.Broken? || (x.status == 404 && !has) || (x.status < 400 && has)
                                      || (x.status >= 400 && x.status != 404)
  {
  }

  /** A broker that replies says 404 only without such an order, and below 400 only with one. */
  predicate HonestLookup(has: bool, x: Exchange) {
    x.Reply? ==> (x.status == 404 ==> !has) && (x.status < 400 ==> has)
  }
}
