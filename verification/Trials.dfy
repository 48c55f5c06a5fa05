/** The breaker with its calls told apart: whose outcome ends half open. */
module Trials {
  import opened CB = CircuitBreaker

  /** What a particular call does. */
  datatype Act = AskBy(id: nat, now: real) | FailedBy(id: nat, now: real) | SucceededBy(id: nat) | TornDownBy(id: nat)

  /** Each call in flight with the phase it was admitted in. */
  datatype Tracked = Tracked(breaker: Breaker, calls: map<nat, Phase>)

  const START: Tracked := Tracked(INITIAL, map[])

  /** A call asks under a name not in use; only calls in flight finish. */
  predicate CanDo(s: Tracked, a: Act) {
    if a.AskBy? then a.id !in s.calls else a.id in s.calls
  }

  function Do(s: Tracked, c: Config, a: Act): Tracked
    requires CanDo(s, a)
  {
    match a
    case AskBy(id, now) =>
      var (b, admitted) := Admit(s.breaker, c, now);
      Tracked(b, if admitted then s.calls[id := b.phase] else s.calls)
    case FailedBy(id, now) => Tracked(Fail(s.breaker, c, now), s.calls - {id})
    case SucceededBy(id) => Tracked(Succeed(s.breaker), s.calls - {id})
    case TornDownBy(id) => Tracked(s.breaker, s.calls - {id})
  }

  predicate CanPlay(s: Tracked, c: Config, acts: seq<Act>)
    decreases |acts|, 0
  {
    acts == [] || (CanPlay(s, c, acts[..|acts| - 1]) && CanDo(Play(s, c, acts[..|acts| - 1]), acts[|acts| - 1]))
  }

  function Play(s: Tracked, c: Config, acts: seq<Act>): Tracked
    requires CanPlay(s, c, acts)
    decreases |acts|, 1
  {
    if acts == [] then s else Do(Play(s, c, acts[..|acts| - 1]), c, acts[|acts| - 1])
  }

  lemma PlayExtend(s: Tracked, c: Config, acts: seq<Act>, a: Act)
    ensures CanPlay(s, c, acts + [a]) <==> CanPlay(s, c, acts) && CanDo(Play(s, c, acts), a)
    ensures CanPlay(s, c, acts + [a]) ==> Play(s, c, acts + [a]) == Do(Play(s, c, acts), c, a)
  {
    assert (acts + [a])[..|acts|] == acts;
  }

  // ---------------------------------------------------------------- the same breaker

  function Anonymous(a: Act): Event {
    match a
    case AskBy(_, now) => Ask(now)
    case FailedBy(_, now) => Failed(now)
    case SucceededBy(_) => Succeeded
    case TornDownBy(_) => TornDown
  }

  function AllAnonymous(acts: seq<Act>): seq<Event> {
    if acts == [] then [] else AllAnonymous(acts[..|acts| - 1]) + [Anonymous(acts[|acts| - 1])]
  }

  /** Names make no difference to the breaker, nor to how many calls are in flight. */
  lemma {:induction false} NamesDoNotMatter(c: Config, acts: seq<Act>)
    requires CanPlay(START, c, acts)
    ensures Possible(c, AllAnonymous(acts))
    ensures var s := Play(START, c, acts); After(c, AllAnonymous(acts)) == System(s.breaker, |s.calls|)
  {
    if acts != [] {
      var k := |acts| - 1;
      NamesDoNotMatter(c, acts[..k]);
      var s := Play(START, c, acts[..k]);
      hide Possible, After;
      Extend(c, AllAnonymous(acts[..k]), Anonymous(acts[k]));
      CountCalls(s, acts[k], Play(START, c, acts).breaker.phase);
    }
  }

  lemma CountCalls(s: Tracked, a: Act, phase: Phase)
    requires CanDo(s, a)
    ensures a.AskBy? ==> |s.calls[a.id := phase]| == |s.calls| + 1
    ensures !a.AskBy? ==> |s.calls| > 0 && |s.calls - {a.id}| == |s.calls| - 1
  {
    if !a.AskBy? {
      assert (s.calls - {a.id}).Keys == s.calls.Keys - {a.id};
    } else {
      assert s.calls[a.id := phase].Keys == s.calls.Keys + {a.id};
    }
  }

  // ---------------------------------------------------------------- whose success closes the breaker

  predicate Closes(s: Tracked, a: Act) {
    a.SucceededBy? && s.breaker.phase.HalfOpen?
  }

  /** The breaker stays away from closed all through these acts. */
  ghost predicate NotClosed(s: Tracked, c: Config, acts: seq<Act>)
    requires CanPlay(s, c, acts)
  {
    Play(s, c, acts).breaker.phase != Closed && (acts == [] || NotClosed(s, c, acts[..|acts| - 1]))
  }

  /** At its next close after s, the breaker is closed by a call that half open admitted. */
  ghost predicate ClosedByTrial(s: Tracked, c: Config, acts: seq<Act>, a: Act) {
    CanPlay(s, c, acts + [a]) && CanPlay(s, c, acts) && NotClosed(s, c, acts) && Closes(Play(s, c, acts), a) ==>
      a.id in Play(s, c, acts).calls && Play(s, c, acts).calls[a.id] == HalfOpen
  }

  /** All calls in flight were admitted in this phase. */
  ghost predicate AllFrom(s: Tracked, phase: Phase) {
    forall id :: id in s.calls ==> s.calls[id] == phase
  }

  /** Only trials are in flight, and no other call is admitted before the breaker closes. */
  lemma {:induction false} OnlyTrials(s: Tracked, c: Config, acts: seq<Act>)
    requires CanPlay(s, c, acts) && NotClosed(s, c, acts) && AllFrom(s, HalfOpen)
    ensures AllFrom(Play(s, c, acts), HalfOpen)
  {
    if acts != [] {
      OnlyTrials(s, c, acts[..|acts| - 1]);
      assert Play(s, c, acts[..|acts| - 1]).breaker.phase != Closed;
    }
  }

  lemma {:induction false} UnusedName(ids: set<nat>) returns (id: nat)
    ensures forall x :: x in ids ==> x < id
  {
    if ids == {} {
      id := 0;
    } else {
      var x :| x in ids;
      var y := UnusedName(ids - {x});
      id := if x < y then y else x + 1;
      forall z | z in ids ensures z < id { if z != x { assert z in ids - {x}; } }
    }
  }

  /** When the breaker is open, its next close is sure to come from a trial's success, whatever
      happens, exactly when no call admitted while it was closed is in flight. */
  lemma ClosingCallIsTrial(s: Tracked, c: Config)
    requires s.breaker.phase.Open?
    ensures (forall acts, a :: ClosedByTrial(s, c, acts, a)) <==> AllFrom(s, HalfOpen)
  {
    if AllFrom(s, HalfOpen) {
      forall acts, a ensures ClosedByTrial(s, c, acts, a) {
        if CanPlay(s, c, acts) && NotClosed(s, c, acts) {
          OnlyTrials(s, c, acts);
          PlayExtend(s, c, acts, a);
        }
      }
    } else {
      var stale :| stale in s.calls && s.calls[stale] != HalfOpen;
      StaleCloses(s, c, stale);
    }
  }

  /** A call from before the opening that succeeds during somebody's trial closes the breaker. */
  lemma StaleCloses(s: Tracked, c: Config, stale: nat)
    requires s.breaker.phase.Open? && stale in s.calls && s.calls[stale] != HalfOpen
    ensures exists acts, a :: !ClosedByTrial(s, c, acts, a)
  {
    var trial := UnusedName(s.calls.Keys);
    var ask, a := AskBy(trial, s.breaker.lastFailure + c.timeout), SucceededBy(stale);
    assert [ask][..0] == [] && [] + [ask] == [ask];
    PlayExtend(s, c, [], ask); PlayExtend(s, c, [ask], a);
    assert NotClosed(s, c, []);
    assert !ClosedByTrial(s, c, [ask], a);
  }

  /** Until it first opens every call in flight was admitted while closed, so that at that moment the
      condition is that no call is in flight at all. */
  lemma FirstOpening(c: Config, acts: seq<Act>)
    requires CanPlay(START, c, acts) && acts != [] && AlwaysClosed(c, acts[..|acts| - 1])
    ensures AllFrom(Play(START, c, acts), HalfOpen) <==> Play(START, c, acts).calls == map[]
  {
    CallsFromClosed(c, acts[..|acts| - 1]);
    var calls := Play(START, c, acts).calls;
    if calls != map[] {
      var id :| id in calls;
      assert calls[id] == Closed;
    }
  }

  ghost predicate AlwaysClosed(c: Config, acts: seq<Act>)
    requires CanPlay(START, c, acts)
  {
    Play(START, c, acts).breaker.phase == Closed && (acts == [] || AlwaysClosed(c, acts[..|acts| - 1]))
  }

  lemma {:induction false} CallsFromClosed(c: Config, acts: seq<Act>)
    requires CanPlay(START, c, acts) && AlwaysClosed(c, acts)
    ensures AllFrom(Play(START, c, acts), Closed)
  {
    if acts != [] {
      CallsFromClosed(c, acts[..|acts| - 1]);
      assert Play(START, c, acts[..|acts| - 1]).breaker.phase == Closed;
    }
  }
}
