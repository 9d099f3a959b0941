/** One FMP call of src/fmp.py: up to three attempts, each paced by the gate and paid from the daily
    budget before anything is sent. */
module FmpCalls {
  import opened RateGate

  class CallBudget {
    const limit: int
    var spent: nat

    constructor (limit: int)
      ensures Valid() && this.limit == limit && spent == 0
    {
      this.limit, spent := limit, 0;
    }

    ghost predicate Valid()
      reads this
    {
      limit > 0 ==> spent <= limit
    }

    /** All or nothing; a limit of 0 is no limit. */
    method Take(n: nat) returns (ok: bool)
      requires Valid()
      modifies this`spent
      ensures Valid()
      ensures ok <==> limit <= 0 || old(spent) + n <= limit
      ensures spent == if ok then old(spent) + n else old(spent)
    {
      if limit > 0 && spent + n > limit { return false; }
      spent := spent + n;
      return true;
    }
  }

  const MAX_ATTEMPTS: nat := 3

  /** How one request would end. */
  datatype Response = NetworkError | Status(code: nat, decodable: bool)

  datatype Result = Body | Paywall | AuthError | Failed | BudgetExhausted | GateTimeout

  /** Worth another attempt, while there is one. */
  predicate Transient(r: Response) {
    r.NetworkError? || r.code in {429, 500, 502, 503, 504}
  }

  /** What the last response comes to. */
  function Verdict(r: Response): Result {
    match r
    case NetworkError => Failed
    case Status(code, decodable) =>
      if code == 402 then Paywall
      else if code == 401 || code == 403 then AuthError
      else if code < 400 && decodable then Body
      else Failed
  }

  class FmpClient {
    const gate: MinuteRateGate
    const budget: CallBudget

    constructor (gate: MinuteRateGate, budget: CallBudget)
      ensures this.gate == gate && this.budget == budget
    {
      this.gate, this.budget := gate, budget;
    }

    /** `responses[i]` is how attempt i would end; `sent` requests left the process. Each cost one unit,
        a refusal by gate or budget none; only transient failures are followed by another attempt, and the
        call ends on the first other response, on the third, or on a refusal, never earlier. */
    method Get(responses: seq<Response>) returns (result: Result, sent: nat)
      requires |responses| == MAX_ATTEMPTS && gate.Valid() && budget.Valid()
      modifies gate, budget
      ensures gate.Valid() && budget.Valid()
      ensures sent <= MAX_ATTEMPTS && budget.spent == old(budget.spent) + sent
      ensures old(gate.stamps) <= gate.stamps
      ensures gate.limit > 0 ==> |gate.stamps| >= |old(gate.stamps)| + sent
      ensures forall i :: 0 <= i < sent - 1 ==> Transient(responses[i])
      ensures result == BudgetExhausted ==> budget.limit > 0 && budget.spent == budget.limit
      ensures result == GateTimeout ==> gate.limit > 0 && |gate.recent| >= gate.limit
      ensures result == BudgetExhausted || result == GateTimeout ==>
                sent < MAX_ATTEMPTS && (sent > 0 ==> Transient(responses[sent - 1]))
      ensures result != BudgetExhausted && result != GateTimeout ==>
                sent > 0 && result == Verdict(responses[sent - 1])
                && (sent == MAX_ATTEMPTS || !Transient(responses[sent - 1]))
      ensures sent <= 3 && forall i :: 0 <= i < sent - 1 ==>
                responses[i].NetworkError? || responses[i].code in {429, 500, 502, 503, 504}
      ensures result != BudgetExhausted && result != GateTimeout ==>
                match responses[sent - 1]
                case NetworkError => result == Failed && sent == 3
                case Status(code, decodable) =>
                  && (code in {429, 500, 502, 503, 504} ==> sent == 3)
                  && (result == Paywall <==> code == 402)
                  && (result == AuthError <==> code in {401, 403})
                  && (result == Body <==> code < 400 && decodable)
                  && (result == Failed <==> (code >= 400 && code !in {401, 402, 403}) || (code < 400 && !decodable))
    {
      hide gate.Valid;
      sent := 0;
      while sent < MAX_ATTEMPTS
        invariant gate.Valid() && budget.Valid() && old(gate.stamps) <= gate.stamps
        invariant sent <= MAX_ATTEMPTS && budget.spent == old(budget.spent) + sent
        invariant gate.limit > 0 ==> |gate.stamps| >= |old(gate.stamps)| + sent
        invariant forall i :: 0 <= i < sent ==> Transient(responses[i])
        invariant sent == MAX_ATTEMPTS ==> responses[MAX_ATTEMPTS - 1].NetworkError?
      {
        var outcome, _ := gate.Acquire();
        if outcome.GaveUp? { return GateTimeout, sent; }
        var paid := budget.Take(1);
        if !paid { return BudgetExhausted, sent; }
        var r := responses[sent];
        sent := sent + 1;
        if r.NetworkError? { continue; }
        if r.code == 402 { return Paywall, sent; }
        if r.code == 401 || r.code == 403 { return AuthError, sent; }
        if Transient(r) && sent < MAX_ATTEMPTS { continue; }
        if r.code >= 400 { return Failed, sent; }
        return if r.decodable then Body else Failed, sent;
      }
      result := Failed;
    }
  }
}
