/** The breaker as its documentation describes it, opening after consecutive failures, and exactly when
    the code is that breaker. */
module DocumentedBreaker {
  import opened CB = CircuitBreaker

  /** A success starts the count afresh, unless the breaker is open. */
  function DocSucceed(b: Breaker): Breaker {
    if b.phase.Open? then b else b.(phase := Closed, failures := 0)
  }

  function DocStep(s: System, c: Config, e: Event): System
    requires e.Ask? || s.inFlight > 0
  {
    if e.Succeeded? then System(DocSucceed(s.breaker), s.inFlight - 1) else Step(s, c, e)
  }

  predicate DocPossible(c: Config, es: seq<Event>)
    decreases |es|, 0
  {
    es == [] || (DocPossible(c, es[..|es| - 1]) && (es[|es| - 1].Ask? || DocAfter(c, es[..|es| - 1]).inFlight > 0))
  }

  function DocAfter(c: Config, es: seq<Event>): System
    requires DocPossible(c, es)
    decreases |es|, 1
  {
    if es == [] then System(INITIAL, 0) else DocStep(DocAfter(c, es[..|es| - 1]), c, es[|es| - 1])
  }

  // ---------------------------------------------------------------- it opens after consecutive failures

  /** Failures recorded since the last success. */
  function Consecutive(es: seq<Event>): nat {
    if es == [] then 0
    else
      var e := es[|es| - 1];
      if e.Succeeded? then 0 else Consecutive(es[..|es| - 1]) + (if e.Failed? then 1 else 0)
  }

  /** While closed it counts consecutive failures, fewer than the threshold; so that from closed it
      opens exactly with the failure that makes them reach it. */
  lemma {:induction false} ClosedCountsConsecutive(c: Config, es: seq<Event>)
    requires c.threshold >= 1 && DocPossible(c, es)
    ensures var b := DocAfter(c, es).breaker;
            && (b.phase.Closed? ==> b.failures == Consecutive(es) < c.threshold)
            && (!b.phase.Closed? ==> b.failures >= c.threshold)
  {
    if es != [] { ClosedCountsConsecutive(c, es[..|es| - 1]); }
  }

  // ---------------------------------------------------------------- where the code departs from it

  /** Event i is a success the documented breaker would start afresh from and the code ignores: the
      breaker is closed and has counted failures. */
  ghost predicate Ignored(c: Config, es: seq<Event>, i: nat)
    requires Possible(c, es) && i < |es|
  {
    es[i].Succeeded? && Before(c, es, i).phase.Closed? && Before(c, es, i).failures > 0
  }

  ghost predicate NoneIgnored(c: Config, es: seq<Event>)
    requires Possible(c, es)
  {
    forall i: nat :: i < |es| ==> !Ignored(c, es, i)
  }

  lemma IgnoredInPrefix(c: Config, es: seq<Event>, k: nat, i: nat)
    requires Possible(c, es) && i < k <= |es|
    ensures Possible(c, es[..k]) && (Ignored(c, es[..k], i) <==> Ignored(c, es, i))
  {
    hide Possible, After;
    PossiblePrefix(c, es, k); PossiblePrefix(c, es, i); PossiblePrefix(c, es[..k], i);
    assert es[..k][..i] == es[..i];
  }

  lemma NoneIgnoredPrefix(c: Config, es: seq<Event>, k: nat)
    requires Possible(c, es) && k <= |es| && NoneIgnored(c, es)
    ensures Possible(c, es[..k]) && NoneIgnored(c, es[..k])
  {
    hide Possible, After, Ignored;
    PossiblePrefix(c, es, k);
    forall i: nat | i < k ensures !Ignored(c, es[..k], i) { IgnoredInPrefix(c, es, k, i); }
  }

  /** On a run without such a success the two breakers agree in every field, all the way. */
  lemma {:induction false} AgreeUnlessIgnored(c: Config, es: seq<Event>)
    requires Possible(c, es) && NoneIgnored(c, es)
    ensures DocPossible(c, es) && DocAfter(c, es) == After(c, es)
  {
    if es != [] {
      var k := |es| - 1;
      NoneIgnoredPrefix(c, es, k);
      AgreeUnlessIgnored(c, es[..k]);
      BeforeLast(c, es);
      assert !Ignored(c, es, k);
      hide NoneIgnored, Before;
    }
  }

  ghost predicate SuccessFree(es: seq<Event>) {
    forall i :: 0 <= i < |es| ==> !es[i].Succeeded?
  }

  /** After this continuation one of the two breakers is in another phase than the other. */
  ghost predicate Diverges(c: Config, es: seq<Event>, tail: seq<Event>) {
    && SuccessFree(tail) && Possible(c, es + tail) && DocPossible(c, es + tail)
    && After(c, es + tail).breaker.phase != DocAfter(c, es + tail).breaker.phase
  }

  lemma DocExtend(c: Config, es: seq<Event>, e: Event)
    ensures DocPossible(c, es) && (e.Ask? || DocAfter(c, es).inFlight > 0) ==>
              DocPossible(c, es + [e]) && DocAfter(c, es + [e]) == DocStep(DocAfter(c, es), c, e)
  {
    assert (es + [e])[..|es|] == es;
  }

  /** Failing calls, while the documented breaker stays below its threshold. */
  lemma {:induction false} DocFailedCalls(c: Config, es: seq<Event>, n: nat, now: real)
    requires DocPossible(c, es) && DocAfter(c, es).breaker.phase.Closed?
    requires DocAfter(c, es).breaker.failures + n < c.threshold
    ensures DocPossible(c, es + FailedCalls(n, now))
    ensures var s := DocAfter(c, es + FailedCalls(n, now));
            s.breaker.phase.Closed? && s.breaker.failures == DocAfter(c, es).breaker.failures + n
    decreases n
  {
    if n == 0 {
      assert es + FailedCalls(n, now) == es;
    } else {
      DocFailedCalls(c, es, n - 1, now);
      var before := es + FailedCalls(n - 1, now);
      FailedCallsStep(es, n, now);
      hide DocPossible, DocAfter, FailedCalls;
      DocExtend(c, before, Ask(now)); DocExtend(c, before + [Ask(now)], Failed(now));
    }
  }

  lemma {:induction false} FailedCallsSuccessFree(n: nat, now: real)
    ensures SuccessFree(FailedCalls(n, now))
  {
    if n > 0 { FailedCallsSuccessFree(n - 1, now); }
  }

  /** An ignored success lets as few further failures open the code's breaker as were missing before
      it, too few for the documented one. */
  lemma IgnoredDiverges(c: Config, es: seq<Event>, e: Event)
    requires c.threshold >= 1 && Possible(c, es + [e]) && Possible(c, es) && NoneIgnored(c, es)
    requires Ignored(c, es + [e], |es|)
    ensures exists tail :: Diverges(c, es + [e], tail)
  {
    var all := es + [e];
    AgreeUnlessIgnored(c, es);
    PhaseIsCount(c, es);
    BeforeLast(c, all);
    assert all[..|es|] == es;
    hide Possible, After, DocPossible, DocAfter, NoneIgnored, FailedCalls, Before, FailuresSinceClose;
    var b := After(c, es).breaker;
    InFlightToFinish(c, es, e);
    Extend(c, es, e); DocExtend(c, es, e);
    var missing: nat := c.threshold - b.failures;
    FailedCallsCount(c, all, missing, 0.0);
    DocFailedCalls(c, all, missing, 0.0);
    FailedCallsSuccessFree(missing, 0.0);
    assert Diverges(c, all, FailedCalls(missing, 0.0));
  }

  lemma InFlightToFinish(c: Config, es: seq<Event>, e: Event)
    requires Possible(c, es + [e])
    ensures Possible(c, es) && (e.Ask? || After(c, es).inFlight > 0)
  {
    assert (es + [e])[..|es|] == es;
  }

  /** Up to the first ignored success the breakers are the same; that success, and no other event,
      is what some further failures can tell them apart by. */
  lemma DocumentedUntilIgnored(c: Config, es: seq<Event>, e: Event)
    requires c.threshold >= 1 && Possible(c, es) && Possible(c, es + [e]) && NoneIgnored(c, es)
    ensures Ignored(c, es + [e], |es|) <==> exists tail :: Diverges(c, es + [e], tail)
  {
    hide Possible, After, DocPossible, DocAfter, Ignored, NoneIgnored, Diverges;
    if Ignored(c, es + [e], |es|) {
      IgnoredDiverges(c, es, e);
    } else {
      forall tail ensures !Diverges(c, es + [e], tail) {
        NoDivergence(c, es, e, tail);
      }
    }
  }

  lemma NoDivergence(c: Config, es: seq<Event>, e: Event, tail: seq<Event>)
    requires Possible(c, es) && Possible(c, es + [e]) && NoneIgnored(c, es) && !Ignored(c, es + [e], |es|)
    ensures !Diverges(c, es + [e], tail)
  {
    var all := es + [e] + tail;
    hide Possible, After, DocPossible, DocAfter, Before;
    if Possible(c, all) && SuccessFree(tail) {
      NoneIgnoredAfter(c, es, e, tail);
      AgreeUnlessIgnored(c, all);
    }
  }

  lemma NoneIgnoredAfter(c: Config, es: seq<Event>, e: Event, tail: seq<Event>)
    requires Possible(c, es) && Possible(c, es + [e]) && NoneIgnored(c, es) && !Ignored(c, es + [e], |es|)
    requires SuccessFree(tail) && Possible(c, es + [e] + tail)
    ensures NoneIgnored(c, es + [e] + tail)
  {
    var all := es + [e] + tail;
    hide Possible, After, Before;
    forall i: nat | i < |all| ensures !Ignored(c, all, i) {
      if i < |es| {
        IgnoredInPrefix(c, all, |es|, i);
        assert all[..|es|] == es;
      } else if i == |es| {
        IgnoredInPrefix(c, all, |es| + 1, i);
        assert all[..|es| + 1] == es + [e];
      } else {
        assert all[i] == tail[i - |es| - 1];
      }
    }
  }

  /** The code opens after consecutive failures, as documented, for every run exactly when one failure
      is enough. */
  lemma DocumentedWhen(c: Config)
    requires c.threshold >= 1
    ensures c.threshold == 1 <==>
            forall es :: Possible(c, es) ==>
              DocPossible(c, es) && DocAfter(c, es).breaker.phase == After(c, es).breaker.phase
  {
    hide Possible, After, DocPossible, DocAfter;
    if c.threshold == 1 {
      forall es | Possible(c, es) ensures DocPossible(c, es) && DocAfter(c, es) == After(c, es) {
        NothingToIgnore(c, es);
        AgreeUnlessIgnored(c, es);
      }
    } else {
      NotConsecutive(c);
    }
  }

  lemma NothingToIgnore(c: Config, es: seq<Event>)
    requires c.threshold == 1 && Possible(c, es)
    ensures NoneIgnored(c, es)
  {
    hide Possible, After;
    forall i: nat | i < |es| ensures !Ignored(c, es, i) {
      PossiblePrefix(c, es, i);
      PhaseIsCount(c, es[..i]);
    }
  }

  /** A failure, and then a success that the code ignores. */
  const FAILED_THEN_SUCCEEDED: seq<Event> := [Ask(0.0), Failed(0.0), Ask(0.0), Succeeded]

  lemma AfterFailureAndSuccess(c: Config)
    requires c.threshold >= 2
    ensures Possible(c, FAILED_THEN_SUCCEEDED) && DocPossible(c, FAILED_THEN_SUCCEEDED)
    ensures After(c, FAILED_THEN_SUCCEEDED) == System(Breaker(Closed, 1, 0.0), 0)
    ensures DocAfter(c, FAILED_THEN_SUCCEEDED) == System(Breaker(Closed, 0, 0.0), 0)
  {
    var es := FAILED_THEN_SUCCEEDED;
    assert [] + [Ask(0.0)] == es[..1] && es[..1] + [Failed(0.0)] == es[..2] && es[..2] + [Ask(0.0)] == es[..3];
    assert es[..3] + [Succeeded] == es;
    NothingYet(c);
    hide Possible, After, DocPossible, DocAfter, FAILED_THEN_SUCCEEDED;
    Extend(c, [], Ask(0.0)); Extend(c, es[..1], Failed(0.0)); Extend(c, es[..2], Ask(0.0));
    Extend(c, es[..3], Succeeded);
    DocExtend(c, [], Ask(0.0)); DocExtend(c, es[..1], Failed(0.0)); DocExtend(c, es[..2], Ask(0.0));
    DocExtend(c, es[..3], Succeeded);
  }

  lemma NothingYet(c: Config)
    ensures Possible(c, []) && DocPossible(c, []) && After(c, []) == DocAfter(c, []) == System(INITIAL, 0)
  {
  }

  /** With any larger threshold some run opens the breaker with a success between its failures. */
  lemma NotConsecutive(c: Config)
    requires c.threshold >= 2
    ensures exists es :: Possible(c, es) && DocPossible(c, es) && After(c, es).breaker.phase.Open?
                         && DocAfter(c, es).breaker.phase.Closed? && Consecutive(es) < c.threshold
  {
    hide FailedCalls, Possible, After, DocPossible, DocAfter, FAILED_THEN_SUCCEEDED;
    AfterFailureAndSuccess(c);
    var es, n: nat := FAILED_THEN_SUCCEEDED, c.threshold - 1;
    FailedCallsCount(c, es, n, 0.0);
    DocFailedCalls(c, es, n, 0.0);
    ClosedCountsConsecutive(c, es + FailedCalls(n, 0.0));
  }
}
