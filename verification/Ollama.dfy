/** The local model provider: one budgeted HTTP request per attempt. */
module Ollama {
  import opened Prelude
  import opened Budgets

  /** What one request brings: no usable HTTP answer, an answer outside the contract,
      or a value. */
  datatype Reply<T> = Unavailable | Malformed | Good(value: T)

  /** How the retry loop ends after `n` requests. */
  predicate Ended<T(==)>(replies: nat -> Reply<T>, n: nat, r: Result<T>) {
    && (forall k | 0 <= k < n - 1 :: replies(k).Malformed?)
    && (r.Ok? <==> n > 0 && replies(n - 1).Good?)
    && (r.Ok? ==> replies(n - 1) == Good(r.value))
  }

  /** `after` is `before` with `n` attempts of `stage` more. */
  predicate Charged(before: seq<Stage>, after: seq<Stage>, stage: Stage, n: nat) {
    before <= after && |after| == |before| + n && forall k | |before| <= k < |after| :: after[k] == stage
  }

  lemma ChargedMore(before: seq<Stage>, between: seq<Stage>, after: seq<Stage>, stage: Stage, n: nat, m: nat)
    requires Charged(before, between, stage, n) && Charged(between, after, stage, m)
    ensures Charged(before, after, stage, n + m)
  {
    forall k | |before| <= k < |after| ensures after[k] == stage { if k < |between| { assert after[k] == between[k]; } }
  }

  class OllamaProvider {
    const malformedRetries: nat
    const configured: bool
    /** `uses_request_budget`; without it the caller accounts for one request. */
    const usesBudget: bool
    /** How many chat requests have been sent. */
    var sent: nat

    constructor (malformedRetries: nat, configured: bool, usesBudget: bool)
      ensures sent == 0
    {
      this.malformedRetries, this.configured, this.usesBudget := malformedRetries, configured, usesBudget;
      sent := 0;
    }

    /** What `n` requests put on the shared budget. */
    function Charge(n: nat): nat { if usesBudget then n else 0 }

    /** A provider that accounts for its requests sends one only in time and in budget. */
    predicate MaySend(budget: RequestBudget, attempts: seq<Stage>, now: real) {
      configured && (usesBudget ==> now - budget.started < budget.deadline && |attempts| < budget.maxRequests)
    }

    /** `_generation_options`, and the request it licenses. */
    method Send(budget: RequestBudget, stage: Stage, clock: Clock) returns (ok: bool)
      requires budget.Valid()
      modifies this`sent, budget`attempts, clock
      ensures budget.Valid()
      ensures sent == old(sent) + if ok then 1 else 0
      ensures Charged(old(budget.attempts), budget.attempts, stage, Charge(if ok then 1 else 0))
      ensures clock.count >= old(clock.count)
      ensures ok <==> MaySend(budget, old(budget.attempts), clock.readings(old(clock.count)))
    {
      if !configured {
        return false;
      }
      if usesBudget {
        ok := budget.Consume(stage, clock);
        if !ok {
          return;
        }
      }
      sent := sent + 1;
      return true;
    }

    /** `generate_structured`: every one of the `n` requests sent is one attempt of the
        shared budget; only malformed answers are retried, a bounded number of times. */
    method GenerateStructured<T(==)>(budget: RequestBudget, stage: Stage, replies: nat -> Reply<T>, clock: Clock)
      returns (r: Result<T>, ghost n: nat)
      requires budget.Valid()
      modifies this`sent, budget`attempts, clock
      ensures budget.Valid()
      ensures sent == old(sent) + n && Ended(replies, n, r)
      ensures n <= if usesBudget then malformedRetries + 1 else 1
      ensures clock.count >= old(clock.count)
      ensures n > 0 <==> MaySend(budget, old(budget.attempts), clock.readings(old(clock.count)))
      ensures Charged(old(budget.attempts), budget.attempts, stage, Charge(n))
    {
      n := 0;
      ghost var may := MaySend(budget, budget.attempts, clock.readings(clock.count));
      var rounds := if usesBudget then malformedRetries + 1 else 1;
      for attempt := 0 to rounds
        invariant n == attempt && budget.Valid() && sent == old(sent) + n
        invariant Charged(old(budget.attempts), budget.attempts, stage, Charge(n))
        invariant forall k | 0 <= k < n :: replies(k).Malformed?
        invariant clock.count >= old(clock.count)
        invariant if n > 0 then may else clock.count == old(clock.count)
      {
        ghost var before := budget.attempts;
        var ok := Send(budget, stage, clock);
        ChargedMore(old(budget.attempts), before, budget.attempts, stage, Charge(n), Charge(if ok then 1 else 0));
        if !ok {
          return Err("not configured, or the shared request budget or deadline is exhausted"), n;
        }
        n := n + 1;
        match replies(attempt)
        case Unavailable => return Err("provider unavailable"), n;
        case Malformed =>
        case Good(value) => return Ok(value), n;
      }
      return Err("structured-output contract failed"), n;
    }

    /** `generate_sql_text`: a single request. */
    method GenerateSqlText<T(==)>(budget: RequestBudget, stage: Stage, replies: nat -> Reply<T>, clock: Clock)
      returns (r: Result<T>, ghost n: nat)
      requires budget.Valid()
      modifies this`sent, budget`attempts, clock
      ensures budget.Valid()
      ensures sent == old(sent) + n && Ended(replies, n, r) && n <= 1
      ensures clock.count >= old(clock.count)
      ensures n == 1 <==> MaySend(budget, old(budget.attempts), clock.readings(old(clock.count)))
      ensures Charged(old(budget.attempts), budget.attempts, stage, Charge(n))
    {
      var ok := Send(budget, stage, clock);
      if !ok {
        return Err("not configured, or the shared request budget or deadline is exhausted"), 0;
      }
      return (if replies(0).Good? then Ok(replies(0).value) else Err("unavailable or cut off")), 1;
    }
  }
}
