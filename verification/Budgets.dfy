/** The request budget every role of an invocation shares. */
module Budgets {

  const HARD_MAX := 3
  const MINIMUM_SECONDS := 1.0

  /** The readings of the monotonic clock, in order. */
  class Clock {
    const readings: nat -> real
    var count: nat

    constructor (readings: nat -> real)
      ensures count == 0
    {
      this.readings := readings;
      count := 0;
    }

    method Now() returns (t: real)
      modifies this
      ensures t == readings(old(count)) && count == old(count) + 1
    {
      t := readings(count);
      count := count + 1;
    }
  }

  /** Every reading from the `n`-th on leaves time for a request. */
  ghost predicate Ample(clock: Clock, n: nat, started: real, deadline: real) {
    forall k: nat | k >= n :: clock.readings(k) - started <= deadline - 1.0
  }

  /** The stages whose requests the budget counts. */
  datatype Stage = Draft | Critic | Repair

  class RequestBudget {
    const maxRequests: int
    const deadline: real
    const started: real
    var attempts: seq<Stage>

    constructor (maxRequests: int, deadline: real, started: real)
      ensures attempts == [] && this.maxRequests == maxRequests && this.deadline == deadline && this.started == started
    {
      this.maxRequests, this.deadline, this.started := maxRequests, deadline, started;
      attempts := [];
    }

    /** `__post_init__`. */
    predicate Admissible()
      reads this
    {
      1 <= maxRequests <= HARD_MAX && deadline > 0.0
    }

    predicate Valid()
      reads this
    {
      Admissible() && |attempts| <= maxRequests
    }

    function RemainingAt(now: real): real {
      if deadline - (now - started) > 0.0 then deadline - (now - started) else 0.0
    }

    method RemainingSeconds(clock: Clock) returns (r: real)
      modifies clock
      ensures clock.count == old(clock.count) + 1 && r == RemainingAt(clock.readings(old(clock.count)))
    {
      var now := clock.Now();
      r := RemainingAt(now);
    }

    method Check(clock: Clock) returns (ok: bool)
      modifies clock
      ensures clock.count == old(clock.count) + 1 && (ok <==> clock.readings(old(clock.count)) - started < deadline)
    {
      var remaining := RemainingSeconds(clock);
      ok := remaining > 0.0;
    }

    /** `consume`: one attempt is recorded, or none and the request must not be sent. */
    method Consume(stage: Stage, clock: Clock) returns (ok: bool)
      modifies this`attempts, clock
      ensures clock.count == old(clock.count) + 1
      ensures ok <==> clock.readings(old(clock.count)) - started < deadline && |old(attempts)| < maxRequests
      ensures attempts == if ok then old(attempts) + [stage] else old(attempts)
    {
      var inTime := Check(clock);
      if !inTime {
        return false;
      }
      if |attempts| >= maxRequests {
        return false;
      }
      attempts := attempts + [stage];
      return true;
    }

    method CanRequest(clock: Clock) returns (ok: bool)
      modifies clock
      ensures clock.count >= old(clock.count)
      ensures ok <==> |attempts| < maxRequests && clock.readings(old(clock.count)) - started <= deadline - 1.0
    {
      if |attempts| >= maxRequests {
        return false;
      }
      var remaining := RemainingSeconds(clock);
      return remaining >= MINIMUM_SECONDS;
    }
  }
}
