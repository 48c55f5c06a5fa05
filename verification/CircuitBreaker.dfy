/** The circuit breaker: three locked sections, and their interleavings over any number of calls. */
module CircuitBreaker {

  datatype Phase = Closed | Open | HalfOpen

  datatype Config = Config(threshold: int, timeout: real)

  datatype Breaker = Breaker(phase: Phase, failures: nat, lastFailure: real)

  const INITIAL: Breaker := Breaker(Closed, 0, 0.0)

  /** Whether a call is let through, and what asking does to the breaker. */
  function Admit(b: Breaker, c: Config, now: real): (Breaker, bool) {
    var b' := if b.phase.Open? && now - b.lastFailure >= c.timeout then b.(phase := HalfOpen) else b;
    (b', !b'.phase.Open?)
  }

  function Fail(b: Breaker, c: Config, now: real): Breaker {
    Breaker(if b.failures + 1 >= c.threshold then Open else b.phase, b.failures + 1, now)
  }

  function Succeed(b: Breaker): Breaker {
    if b.phase.HalfOpen? then b.(phase := Closed, failures := 0) else b
  }

  /** The object; each method is one section under its lock. */
  class CircuitBreaker {
    const config: Config
    var phase: Phase
    var failureCount: nat
    var lastFailureTime: real

    constructor (config: Config)
      ensures Now() == INITIAL && this.config == config
    {
      this.config, phase, failureCount, lastFailureTime := config, Closed, 0, 0.0;
    }

    ghost function Now(): Breaker
      reads this
    {
      Breaker(phase, failureCount, lastFailureTime)
    }

    method MaybeTransition(now: real)
      modifies this
      ensures Now() == Admit(old(Now()), config, now).0
    {
      if phase == Open {
        var elapsed := now - lastFailureTime;
        if elapsed >= config.timeout {
          phase := HalfOpen;
        }
      }
    }

    method Enter(now: real) returns (admitted: bool)
      modifies this
      ensures (Now(), admitted) == Admit(old(Now()), config, now)
    {
      MaybeTransition(now);
      return phase != Open;
    }

    method RecordFailure(now: real)
      modifies this
      ensures Now() == Fail(old(Now()), config, now)
    {
      failureCount := failureCount + 1;
      lastFailureTime := now;
      if failureCount >= config.threshold && phase != Open {
        phase := Open;
      }
    }

    method RecordSuccess()
      modifies this
      ensures Now() == Succeed(old(Now()))
    {
      if phase == HalfOpen {
        phase := Closed;
        failureCount := 0;
      }
    }
  }

  // ---------------------------------------------------------------- interleaved calls

  /** A call asks to enter; a call in flight fails, succeeds, or is torn down without being recorded,
      as by an exception that is not an Exception. */
  datatype Event = Ask(now: real) | Failed(now: real) | Succeeded | TornDown

  datatype System = System(breaker: Breaker, inFlight: nat)

  function Step(s: System, c: Config, e: Event): System
    requires e.Ask? || s.inFlight > 0
  {
    match e
    case Ask(now) =>
      var (b, admitted) := Admit(s.breaker, c, now);
      System(b, if admitted then s.inFlight + 1 else s.inFlight)
    case Failed(now) => System(Fail(s.breaker, c, now), s.inFlight - 1)
    case Succeeded => System(Succeed(s.breaker), s.inFlight - 1)
    case TornDown => System(s.breaker, s.inFlight - 1)
  }

  /** Only calls in flight finish. */
  predicate Possible(c: Config, es: seq<Event>)
    decreases |es|, 0
  {
    es == [] || (Possible(c, es[..|es| - 1]) && (es[|es| - 1].Ask? || After(c, es[..|es| - 1]).inFlight > 0))
  }

  function After(c: Config, es: seq<Event>): System
    requires Possible(c, es)
    decreases |es|, 1
  {
    if es == [] then System(INITIAL, 0) else Step(After(c, es[..|es| - 1]), c, es[|es| - 1])
  }

  /** The clock never runs backwards. */
  ghost predicate Clocked(es: seq<Event>) {
    forall i, j :: 0 <= i < j < |es| && (es[i].Ask? || es[i].Failed?) && (es[j].Ask? || es[j].Failed?) ==>
                     es[i].now <= es[j].now
  }

  lemma {:induction false} PossiblePrefix(c: Config, es: seq<Event>, i: nat)
    requires Possible(c, es) && i <= |es|
    ensures Possible(c, es[..i])
    decreases |es|
  {
    if i < |es| {
      PossiblePrefix(c, es[..|es| - 1], i);
      assert es[..|es| - 1][..i] == es[..i];
    } else {
      assert es[..i] == es;
    }
  }

  /** The breaker as event i finds it. */
  ghost function Before(c: Config, es: seq<Event>, i: nat): Breaker
    requires Possible(c, es) && i <= |es|
  {
    PossiblePrefix(c, es, i);
    After(c, es[..i]).breaker
  }

  /** Event i is the success that closes the breaker. */
  ghost predicate ClosesAt(c: Config, es: seq<Event>, i: nat)
    requires Possible(c, es) && i < |es|
  {
    es[i].Succeeded? && Before(c, es, i).phase.HalfOpen?
  }

  function CountFailed(es: seq<Event>): nat {
    if es == [] then 0 else CountFailed(es[..|es| - 1]) + (if es[|es| - 1].Failed? then 1 else 0)
  }

  /** Failures recorded since the breaker last closed, or since the start. */
  ghost function FailuresSinceClose(c: Config, es: seq<Event>): nat
    requires Possible(c, es)
  {
    if es == [] then 0
    else
      var k := |es| - 1;
      if ClosesAt(c, es, k) then 0 else FailuresSinceClose(c, es[..k]) + (if es[k].Failed? then 1 else 0)
  }

  lemma BeforeLast(c: Config, es: seq<Event>)
    requires Possible(c, es) && es != []
    ensures var k := |es| - 1; Before(c, es, k) == After(c, es[..k]).breaker
  {
    PossiblePrefix(c, es, |es| - 1);
  }

  /** Under every interleaving: closed exactly while fewer failures than the threshold have been
      counted, and what is counted is the failures since the last close; successes in between
      take nothing off the count. */
  lemma {:induction false} PhaseIsCount(c: Config, es: seq<Event>)
    requires c.threshold >= 1 && Possible(c, es)
    ensures var b := After(c, es).breaker;
            && (b.phase.Closed? <==> b.failures < c.threshold)
            && b.failures == FailuresSinceClose(c, es)
  {
    hide Before;
    if es != [] {
      PhaseIsCount(c, es[..|es| - 1]);
      BeforeLast(c, es);
    }
  }

  /** With a threshold below one the correspondence fails from the start, so one is exactly what it
      takes. */
  lemma ThresholdAtLeastOne(c: Config)
    ensures c.threshold >= 1 <==>
            forall es :: Possible(c, es) ==>
              (After(c, es).breaker.phase.Closed? <==> After(c, es).breaker.failures < c.threshold)
  {
    if c.threshold >= 1 {
      forall es | Possible(c, es)
        ensures After(c, es).breaker.phase.Closed? <==> After(c, es).breaker.failures < c.threshold
      {
        PhaseIsCount(c, es);
      }
    } else {
      assert Possible(c, []) && After(c, []).breaker == INITIAL;
    }
  }

  /** The last failure event, if there is one. */
  ghost predicate IsLastFailure(es: seq<Event>, j: int) {
    0 <= j < |es| && es[j].Failed? && forall i :: j < i < |es| ==> !es[i].Failed?
  }

  lemma {:induction false} LastFailureIsLatest(c: Config, es: seq<Event>, j: int)
    requires Possible(c, es) && IsLastFailure(es, j)
    ensures After(c, es).breaker.lastFailure == es[j].now
  {
    if j < |es| - 1 { LastFailureIsLatest(c, es[..|es| - 1], j); }
  }

  lemma {:induction false} OpenHasFailed(c: Config, es: seq<Event>) returns (j: int)
    requires Possible(c, es) && c.threshold >= 1 && After(c, es).breaker.phase.Open?
    ensures IsLastFailure(es, j)
  {
    var k := |es| - 1;
    if es[k].Failed? { j := k; } else { j := OpenHasFailed(c, es[..k]); }
  }

  /** A breaker that is open lets a call through exactly when the timeout has passed since every
      failure recorded so far. */
  lemma OpenAdmitsAfterTimeout(c: Config, es: seq<Event>, now: real)
    requires c.threshold >= 1 && Possible(c, es) && Clocked(es) && After(c, es).breaker.phase.Open?
    ensures Admit(After(c, es).breaker, c, now).1 <==>
            forall j :: 0 <= j < |es| && es[j].Failed? ==> es[j].now + c.timeout <= now
  {
    hide Possible, After;
    var j := OpenHasFailed(c, es);
    LastFailureIsLatest(c, es, j);
  }

  /** While half open every caller is admitted, not one trial: nothing but an outcome ends it. */
  lemma {:induction false} HalfOpenAdmitsAll(c: Config, es: seq<Event>, asks: seq<Event>)
    requires Possible(c, es) && After(c, es).breaker.phase.HalfOpen? && forall i :: 0 <= i < |asks| ==> asks[i].Ask?
    ensures Possible(c, es + asks)
    ensures After(c, es + asks) == System(After(c, es).breaker, After(c, es).inFlight + |asks|)
    decreases |asks|
  {
    if asks == [] {
      assert es + asks == es;
    } else {
      var k := |asks| - 1;
      HalfOpenAdmitsAll(c, es, asks[..k]);
      assert (es + asks)[..|es + asks| - 1] == es + asks[..k];
    }
  }

  lemma Extend(c: Config, es: seq<Event>, e: Event)
    ensures Possible(c, es) && (e.Ask? || After(c, es).inFlight > 0) ==>
              Possible(c, es + [e]) && After(c, es + [e]) == Step(After(c, es), c, e)
  {
    assert (es + [e])[..|es|] == es;
  }

  // ---------------------------------------------------------------- one caller at a time

  /** A call starts only when none is in flight. */
  ghost predicate OneAtATime(c: Config, es: seq<Event>)
    requires Possible(c, es)
  {
    es == [] || (OneAtATime(c, es[..|es| - 1]) && (es[|es| - 1].Ask? ==> After(c, es[..|es| - 1]).inFlight == 0))
  }

  /** With one caller at a time, half open is never seen between calls unless a call was torn down. */
  lemma {:induction false} HalfOpenUnseen(c: Config, es: seq<Event>)
    requires c.threshold >= 1 && Possible(c, es) && OneAtATime(c, es)
    requires forall i :: 0 <= i < |es| ==> !es[i].TornDown?
    ensures After(c, es).inFlight <= 1
    ensures After(c, es).inFlight == 0 ==> !After(c, es).breaker.phase.HalfOpen?
  {
    if es != [] {
      HalfOpenUnseen(c, es[..|es| - 1]);
      PhaseIsCount(c, es[..|es| - 1]);
    }
  }

  // ---------------------------------------------------------------- into half open and out of it

  /** n calls, one after the other, each failing. */
  function FailedCalls(n: nat, now: real): seq<Event> {
    if n == 0 then [] else FailedCalls(n - 1, now) + [Ask(now), Failed(now)]
  }

  /** A closed breaker counts the failures of such calls, and opens with the one that reaches the
      threshold. */
  lemma {:induction false} FailedCallsCount(c: Config, es: seq<Event>, n: nat, now: real)
    requires Possible(c, es) && After(c, es).breaker.phase.Closed?
    requires After(c, es).breaker.failures < c.threshold && After(c, es).breaker.failures + n <= c.threshold
    ensures Possible(c, es + FailedCalls(n, now))
    ensures var s, b := After(c, es + FailedCalls(n, now)), After(c, es).breaker;
            && s.inFlight == After(c, es).inFlight && s.breaker.failures == b.failures + n
            && s.breaker.phase == (if b.failures + n == c.threshold then Open else Closed)
            && s.breaker.lastFailure == (if n == 0 then b.lastFailure else now)
    decreases n
  {
    if n == 0 {
      assert es + FailedCalls(n, now) == es;
    } else {
      FailedCallsCount(c, es, n - 1, now);
      var before := es + FailedCalls(n - 1, now);
      hide Possible, After, FailedCalls;
      CallFails(c, before, now);
      FailedCallsStep(es, n, now);
    }
  }

  lemma FailedCallsStep(es: seq<Event>, n: nat, now: real)
    requires n > 0
    ensures es + FailedCalls(n, now) == es + FailedCalls(n - 1, now) + [Ask(now)] + [Failed(now)]
  {
  }

  /** One more call of a closed breaker, and its failure. */
  lemma CallFails(c: Config, es: seq<Event>, now: real)
    requires Possible(c, es) && After(c, es).breaker.phase.Closed?
    ensures Possible(c, es + [Ask(now)] + [Failed(now)])
    ensures After(c, es + [Ask(now)] + [Failed(now)]) ==
            System(Fail(After(c, es).breaker, c, now), After(c, es).inFlight)
  {
    hide Possible, After;
    Extend(c, es, Ask(now)); Extend(c, es + [Ask(now)], Failed(now));
  }

  /** Every breaker with a threshold of at least one can be brought to half open. */
  lemma HalfOpenReached(c: Config) returns (es: seq<Event>)
    requires c.threshold >= 1
    ensures Possible(c, es) && After(c, es).breaker.phase.HalfOpen? && After(c, es).inFlight == 1
  {
    var failed := FailedCalls(c.threshold, 0.0);
    FailedCallsCount(c, [], c.threshold, 0.0);
    assert [] + failed == failed;
    hide Possible, After, FailedCalls;
    Extend(c, failed, Ask(c.timeout));
    es := failed + [Ask(c.timeout)];
  }

  /** Half open lasts, unchanged, while calls are asked for and torn down, however many and however
      long: a trial that is torn down does not end it, and the next caller is admitted. */
  lemma {:induction false} TornDownTrial(c: Config, es: seq<Event>, tail: seq<Event>, now: real)
    requires Possible(c, es) && After(c, es).breaker.phase.HalfOpen? && Possible(c, es + tail)
    requires forall i :: 0 <= i < |tail| ==> tail[i].Ask? || tail[i].TornDown?
    ensures After(c, es + tail).breaker == After(c, es).breaker
    ensures Admit(After(c, es + tail).breaker, c, now) == (After(c, es).breaker, true)
    decreases |tail|
  {
    if tail == [] {
      assert es + tail == es;
    } else {
      var k := |tail| - 1;
      assert (es + tail)[..|es + tail| - 1] == es + tail[..k];
      TornDownTrial(c, es, tail[..k], now);
    }
  }

  /** The first outcome recorded ends half open: a success closes the breaker with the count at zero,
      a failure opens it again. */
  lemma OutcomeEndsHalfOpen(c: Config, es: seq<Event>, tail: seq<Event>, e: Event)
    requires c.threshold >= 1 && Possible(c, es) && After(c, es).breaker.phase.HalfOpen?
    requires forall i :: 0 <= i < |tail| ==> tail[i].Ask? || tail[i].TornDown?
    requires Possible(c, es + tail + [e]) && (e.Succeeded? || e.Failed?)
    ensures var b := After(c, es + tail + [e]).breaker;
            if e.Succeeded? then b.phase.Closed? && b.failures == 0 else b.phase.Open? && b.lastFailure == e.now
  {
    var all := es + tail + [e];
    assert all[..|all| - 1] == es + tail;
    TornDownTrial(c, es, tail, 0.0);
    PhaseIsCount(c, es);
    hide FailuresSinceClose;
  }
}
