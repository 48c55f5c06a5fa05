/** Retrying a dispatch that fails transiently. */
module Retry {
  import opened DecimalText
  import opened Reals

  datatype DispatchResult = DispatchResult(
    recordHash: string, score: string, metrics: map<string, string>, specHash: string,
    toolDigests: map<string, string>, sidecars: map<string, string>)

  /** The exceptions a dispatch may raise, by the handler that tells them apart. */
  datatype Exception =
    | DispatchError(message: string)
    | CircuitBreakerOpen(message: string)
    | RetryExhausted(message: string)
    | Unexpected(message: string)

  /** A dispatch returns, an Exception escapes it, or it is torn down by something that is not an
      Exception, as by an interrupt. */
  datatype Outcome = Returned(result: DispatchResult) | Raised(exception: Exception) | TornDown(cause: string)

  /** What each dispatch does, by its place among all dispatches: any behaviour at all. */
  type Behaviour = nat -> Outcome

  class Dispatcher {
    const behaviour: Behaviour
    var calls: nat

    constructor (behaviour: Behaviour)
      ensures this.behaviour == behaviour && calls == 0
    {
      this.behaviour, calls := behaviour, 0;
    }

    method Dispatch() returns (o: Outcome)
      modifies this
      ensures o == behaviour(old(calls)) && calls == old(calls) + 1
    {
      o := behaviour(calls);
      calls := calls + 1;
    }
  }

  predicate IsTransient(o: Outcome) {
    o.Raised? && o.exception.DispatchError?
  }

  function Exhausted(limit: nat, last: string): string {
    "dispatch: " + Natural(limit) + " attempts exhausted, last error: " + last
  }

  const NO_ATTEMPT: string := "dispatch: unexpected retry exit"

  /** The outcome of the last n of `limit` attempts, the first of them dispatch number `start`, and the
      number of the next dispatch. */
  function Attempts(behaviour: Behaviour, start: nat, n: nat, limit: nat): (Outcome, nat)
    decreases n
  {
    if n == 0 then (Raised(RetryExhausted(NO_ATTEMPT)), start)
    else
      var o := behaviour(start);
      if !IsTransient(o) then (o, start + 1)
      else if n == 1 then (Raised(RetryExhausted(Exhausted(limit, o.exception.message))), start + 1)
      else Attempts(behaviour, start + 1, n - 1, limit)
  }

  function TwoTo(n: nat): real {
    if n == 0 then 1.0 else 2.0 * TwoTo(n - 1)
  }

  /** Exponential back-off, capped. */
  function Delay(base: real, cap: real, attempt: nat): real
    requires attempt >= 1
  {
    Min(base * TwoTo(attempt - 1), cap)
  }

  lemma {:induction false} TwoToPositive(n: nat)
    ensures TwoTo(n) >= 1.0
  {
    if n > 0 { TwoToPositive(n - 1); }
  }

  /** The first delay is the base, and each next one twice the last, as long as the cap allows. */
  lemma DelaysDouble(base: real, cap: real, attempt: nat)
    requires base >= 0.0 && cap >= 0.0 && attempt >= 1
    ensures Delay(base, cap, 1) == Min(base, cap)
    ensures Delay(base, cap, attempt + 1) == Min(2.0 * Delay(base, cap, attempt), cap)
  {
    TwoToPositive(attempt - 1);
    var x := base * TwoTo(attempt - 1);
    assert x >= 0.0;
    assert TwoTo(attempt) == 2.0 * TwoTo(attempt - 1);
    assert base * TwoTo(attempt) == 2.0 * x;
    assert base * TwoTo(0) == base;
  }

  function Limit(maxAttempts: int): nat {
    if maxAttempts < 0 then 0 else maxAttempts
  }

  /** Makes up to maxAttempts attempts and reports the delays it slept between them. */
  method RetryOnTransientError(d: Dispatcher, maxAttempts: int, base: real, cap: real)
    returns (o: Outcome, slept: seq<real>)
    modifies d
    ensures (o, d.calls) == Attempts(d.behaviour, old(d.calls), Limit(maxAttempts), Limit(maxAttempts))
    ensures d.calls > old(d.calls) ==> |slept| == d.calls - old(d.calls) - 1
    ensures forall k :: 0 <= k < |slept| ==> slept[k] == Delay(base, cap, k + 1)
  {
    slept := [];
    var attempt := 1;
    while attempt <= maxAttempts
      invariant attempt >= 1 && |slept| == attempt - 1 && d.calls == old(d.calls) + attempt - 1
      invariant forall k :: 0 <= k < |slept| ==> slept[k] == Delay(base, cap, k + 1)
      invariant attempt <= maxAttempts + 1 || maxAttempts < 0
      invariant attempt <= maxAttempts ==>
                  Attempts(d.behaviour, old(d.calls), maxAttempts, maxAttempts)
                  == Attempts(d.behaviour, d.calls, maxAttempts - attempt + 1, maxAttempts)
      invariant attempt > maxAttempts ==> attempt == 1
    {
      var outcome := d.Dispatch();
      if !IsTransient(outcome) {
        return outcome, slept;
      }
      if attempt == maxAttempts {
        return Raised(RetryExhausted(Exhausted(maxAttempts, outcome.exception.message))), slept;
      }
      slept := slept + [Delay(base, cap, attempt)];
      attempt := attempt + 1;
    }
    o := Raised(RetryExhausted(NO_ATTEMPT));
  }

  /** What the attempts amount to: at least one and at most n dispatches, all but the last of them
      transient failures; the last one's outcome unless it too is transient, and then all n were
      made and exhaustion is reported.  A DispatchError never comes out. */
  lemma {:induction false} AttemptsMeaning(behaviour: Behaviour, start: nat, n: nat, limit: nat)
    requires n >= 1
    ensures var (o, next) := Attempts(behaviour, start, n, limit);
            && start < next <= start + n
            && (forall i :: start <= i < next - 1 ==> IsTransient(behaviour(i)))
            && (if IsTransient(behaviour(next - 1)) then next == start + n && o.Raised? && o.exception.RetryExhausted?
                else o == behaviour(next - 1))
            && !IsTransient(o)
    decreases n
  {
    if n > 1 && IsTransient(behaviour(start)) { AttemptsMeaning(behaviour, start + 1, n - 1, limit); }
  }
}
