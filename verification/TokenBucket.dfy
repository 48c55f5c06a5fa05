/** One token bucket as a function of the times it is asked, and what it guarantees. */
module TokenBucket {
  import opened Reals

  /** A bucket's fields. */
  datatype State = State(capacity: nat, refill: real, tokens: real, updated: real)

  /** Tokens that come in over a time span. */
  function Accrued(refill: real, span: real): real {
    span * refill
  }

  lemma AccruedAdds(refill: real, a: real, b: real)
    ensures Accrued(refill, a + b) == Accrued(refill, a) + Accrued(refill, b)
    ensures Accrued(refill, 0.0) == 0.0
    ensures refill >= 0.0 && a <= b ==> Accrued(refill, a) <= Accrued(refill, b)
  {
    if refill >= 0.0 && a <= b { assert (b - a) * refill >= 0.0; }
  }

  /** What comes in is the rate times the span. */
  lemma AccruedIsRate(refill: real, span: real)
    ensures Accrued(refill, span) == refill * span
  {
  }

  function Refilled(s: State, now: real): State {
    s.(tokens := Min(s.capacity as real, s.tokens + Accrued(s.refill, now - s.updated)), updated := now)
  }

  /** One request: refill, then take a token if there is a whole one. */
  function Ask(s: State, now: real): (State, bool) {
    var r := Refilled(s, now);
    if r.tokens >= 1.0 then (r.(tokens := r.tokens - 1.0), true) else (r, false)
  }

  function Full(capacity: nat, refill: real, created: real): State {
    State(capacity, refill, capacity as real, created)
  }

  /** The state after requests at these times. */
  function After(s: State, times: seq<real>): State {
    if times == [] then s else Ask(After(s, times[..|times| - 1]), times[|times| - 1]).0
  }

  function Answers(s: State, times: seq<real>): (bs: seq<bool>)
    ensures |bs| == |times|
  {
    seq(|times|, i requires 0 <= i < |times| => Ask(After(s, times[..i]), times[i]).1)
  }

  ghost predicate InOrder(created: real, times: seq<real>) {
    && (forall i :: 0 <= i < |times| ==> created <= times[i])
    && (forall i, j :: 0 <= i <= j < |times| ==> times[i] <= times[j])
  }

  /** How many of the answers from index j up to index i are yes. */
  function Accepted(bs: seq<bool>, j: nat, i: nat): nat
    requires j <= i <= |bs|
    decreases i - j
  {
    if i == j then 0 else Accepted(bs, j, i - 1) + (if bs[i - 1] then 1 else 0)
  }

  lemma {:induction false} AcceptedSplits(bs: seq<bool>, h: nat, j: nat, i: nat)
    requires h <= j <= i <= |bs|
    ensures Accepted(bs, h, i) == Accepted(bs, h, j) + Accepted(bs, j, i)
    decreases i - j
  {
    if j < i { AcceptedSplits(bs, h, j, i - 1); }
  }

  // ---------------------------------------------------------------- exactness

  /** What is left, at request i, of the window that began at request j. */
  function Left(s: State, times: seq<real>, j: nat, i: nat): real
    requires j <= i < |times|
  {
    s.capacity as real + Accrued(s.refill, times[i] - times[j]) - Accepted(Answers(s, times), j, i) as real
  }

  /** The tokens in the bucket when request i has refilled it. */
  function Tokens(s: State, times: seq<real>, i: nat): real
    requires i < |times|
  {
    Refilled(After(s, times[..i]), times[i]).tokens
  }

  lemma {:induction false} AfterKeeps(s: State, times: seq<real>)
    ensures After(s, times).capacity == s.capacity && After(s, times).refill == s.refill
    ensures times != [] ==> After(s, times).updated == times[|times| - 1]
    ensures times == [] ==> After(s, times) == s
  {
    if times != [] { AfterKeeps(s, times[..|times| - 1]); }
  }

  lemma TokensStep(s: State, times: seq<real>, i: nat)
    requires 0 < i < |times|
    ensures Tokens(s, times, i) ==
            Min(s.capacity as real, Tokens(s, times, i - 1) - (if Answers(s, times)[i - 1] then 1.0 else 0.0)
                                    + Accrued(s.refill, times[i] - times[i - 1]))
  {
    hide Accrued;
    assert times[..i][..i - 1] == times[..i - 1];
    AfterKeeps(s, times[..i]); AfterKeeps(s, times[..i - 1]);
  }

  /** After refilling, the bucket holds the least of what any window ending now has left. */
  lemma {:induction false} TokensAreLeastLeft(s: State, times: seq<real>, i: nat)
    requires s == Full(s.capacity, s.refill, s.updated) && s.refill >= 0.0
    requires InOrder(s.updated, times) && i < |times|
    ensures forall j :: 0 <= j <= i ==> Tokens(s, times, i) <= Left(s, times, j, i)
    ensures exists j :: 0 <= j <= i && Tokens(s, times, i) == Left(s, times, j, i)
  {
    hide Accrued, Answers, Tokens;
    AccruedAdds(s.refill, 0.0, 0.0);
    assert Left(s, times, i, i) == s.capacity as real;
    if i == 0 {
      FirstTokens(s, times);
    } else {
      TokensAreLeastLeft(s, times, i - 1);
      TokensStep(s, times, i);
      var j0 :| 0 <= j0 <= i - 1 && Tokens(s, times, i - 1) == Left(s, times, j0, i - 1);
      LeftStep(s, times, j0, i);
      forall j | 0 <= j < i ensures Tokens(s, times, i) <= Left(s, times, j, i) { LeftStep(s, times, j, i); }
    }
  }

  lemma FirstTokens(s: State, times: seq<real>)
    requires s == Full(s.capacity, s.refill, s.updated) && s.refill >= 0.0
    requires InOrder(s.updated, times) && times != []
    ensures Tokens(s, times, 0) == s.capacity as real
  {
    hide Accrued;
    assert times[..0] == [];
    AccruedAdds(s.refill, 0.0, times[0] - s.updated);
  }

  lemma LeftStep(s: State, times: seq<real>, j: nat, i: nat)
    requires j < i < |times|
    ensures Left(s, times, j, i) ==
            Left(s, times, j, i - 1) - (if Answers(s, times)[i - 1] then 1.0 else 0.0)
            + Accrued(s.refill, times[i] - times[i - 1])
  {
    hide Accrued, Answers;
    AccruedAdds(s.refill, times[i - 1] - times[j], times[i] - times[i - 1]);
    assert times[i] - times[j] == (times[i - 1] - times[j]) + (times[i] - times[i - 1]);
  }

  /** So many acceptances in so long a time keep to a capacity and a rate. */
  ghost predicate Within(capacity: nat, refill: real, count: nat, span: real) {
    count as real <= capacity as real + refill * span
  }

  lemma WithinIsLeft(s: State, times: seq<real>, j: nat, i: nat)
    requires j <= i < |times|
    ensures Within(s.capacity, s.refill, Accepted(Answers(s, times), j, i) + 1, times[i] - times[j]) <==>
            Left(s, times, j, i) >= 1.0
  {
    hide Accrued, Answers, Accepted;
    AccruedIsRate(s.refill, times[i] - times[j]);
  }

  /** Request i is admitted exactly when one more acceptance, in any window ending now, keeps to the
      capacity and the rate. */
  ghost predicate GrantedExactly(capacity: nat, refill: real, times: seq<real>, bs: seq<bool>, i: nat)
    requires i < |times| == |bs|
  {
    bs[i] <==> forall j :: 0 <= j <= i ==> Within(capacity, refill, Accepted(bs, j, i) + 1, times[i] - times[j])
  }

  /** So a full bucket admits every request. */
  lemma AnswerIsExact(s: State, times: seq<real>, i: nat)
    requires s == Full(s.capacity, s.refill, s.updated) && s.refill >= 0.0
    requires InOrder(s.updated, times) && i < |times|
    ensures GrantedExactly(s.capacity, s.refill, times, Answers(s, times), i)
  {
    GrantedWhen(s, times, i);
    hide *;
    AnswerMeans(s, times, i);
    TokensAreLeastLeft(s, times, i);
    var j0 :| 0 <= j0 <= i && Tokens(s, times, i) == Left(s, times, j0, i);
    forall j | 0 <= j <= i
      ensures Within(s.capacity, s.refill, Accepted(Answers(s, times), j, i) + 1, times[i] - times[j]) <==>
              Left(s, times, j, i) >= 1.0
    {
      WithinIsLeft(s, times, j, i);
    }
  }

  lemma GrantedWhen(s: State, times: seq<real>, i: nat)
    requires i < |times|
    ensures GrantedExactly(s.capacity, s.refill, times, Answers(s, times), i) <==>
            (Answers(s, times)[i] <==>
             forall j :: 0 <= j <= i ==>
               Within(s.capacity, s.refill, Accepted(Answers(s, times), j, i) + 1, times[i] - times[j]))
  {
    hide Answers, Within, Accepted;
  }

  lemma AnswerMeans(s: State, times: seq<real>, i: nat)
    requires i < |times|
    ensures Answers(s, times)[i] <==> Tokens(s, times, i) >= 1.0
  {
  }

  // ---------------------------------------------------------------- waiting

  lemma {:induction false} NeverOverdrawn(s: State, times: seq<real>)
    requires s == Full(s.capacity, s.refill, s.updated) && s.refill >= 0.0
    requires InOrder(s.updated, times)
    ensures After(s, times).tokens >= 0.0
    decreases |times|
  {
    hide Accrued;
    if times != [] {
      var k := |times| - 1;
      NeverOverdrawn(s, times[..k]);
      AfterKeeps(s, times[..k]);
      AccruedAdds(s.refill, 0.0, times[k] - After(s, times[..k]).updated);
    }
  }

  /** However drained, a bucket that has been left alone for as long as one token takes to come in
      says yes. */
  lemma GrantedAfterWait(s: State, times: seq<real>, i: nat)
    requires s == Full(s.capacity, s.refill, s.updated) && s.capacity >= 1 && s.refill > 0.0
    requires InOrder(s.updated, times) && i < |times|
    requires i > 0 && times[i] - times[i - 1] >= 1.0 / s.refill
    ensures Answers(s, times)[i]
  {
    hide Accrued;
    assert InOrder(s.updated, times[..i]);
    NeverOverdrawn(s, times[..i]);
    AfterKeeps(s, times[..i]);
    var span := times[i] - After(s, times[..i]).updated;
    TokenComesIn(s.refill, span);
    AnswerMeans(s, times, i);
  }

  lemma FirstGranted(s: State, times: seq<real>)
    requires s == Full(s.capacity, s.refill, s.updated) && s.capacity >= 1 && s.refill >= 0.0
    requires InOrder(s.updated, times) && times != []
    ensures Answers(s, times)[0]
  {
    hide *;
    FirstTokens(s, times);
    AnswerMeans(s, times, 0);
  }

  lemma TokenComesIn(refill: real, span: real)
    requires refill > 0.0 && span >= 1.0 / refill
    ensures Accrued(refill, span) >= 1.0
  {
    assert refill * (span - 1.0 / refill) >= 0.0;
    assert refill * (1.0 / refill) == 1.0;
  }

  // ---------------------------------------------------------------- windows of real time

  /** How many accepted requests fall into a span of time. */
  function AcceptedWithin(times: seq<real>, bs: seq<bool>, lo: real, hi: real): nat
    requires |times| == |bs|
  {
    if times == [] then 0
    else
      var k := |times| - 1;
      AcceptedWithin(times[..k], bs[..k], lo, hi) + (if bs[k] && lo <= times[k] <= hi then 1 else 0)
  }

  /** In every span of time at most the capacity, and the rate times the span, is accepted. */
  ghost predicate Respects(capacity: nat, refill: real, times: seq<real>, bs: seq<bool>)
    requires |times| == |bs|
  {
    forall lo, hi :: lo <= hi ==> Within(capacity, refill, AcceptedWithin(times, bs, lo, hi), hi - lo)
  }

  lemma {:induction false} AcceptedPrefix(bs: seq<bool>, k: nat, j: nat, i: nat)
    requires j <= i <= k <= |bs|
    ensures Accepted(bs[..k], j, i) == Accepted(bs, j, i)
    decreases i - j
  {
    if j < i { AcceptedPrefix(bs, k, j, i - 1); }
  }

  /** A span that ends no earlier than the last request catches the requests from some index on. */
  lemma {:induction false} WithinIsSuffix(times: seq<real>, bs: seq<bool>, lo: real, hi: real) returns (j: nat)
    requires |times| == |bs|
    requires forall a, b :: 0 <= a <= b < |times| ==> times[a] <= times[b]
    requires times != [] ==> times[|times| - 1] <= hi
    ensures j <= |times| && AcceptedWithin(times, bs, lo, hi) == Accepted(bs, j, |bs|)
    ensures forall a :: 0 <= a < j ==> times[a] < lo
    ensures forall a :: j <= a < |times| ==> lo <= times[a]
  {
    if times == [] {
      j := 0;
    } else {
      var k := |times| - 1;
      j := WithinIsSuffix(times[..k], bs[..k], lo, hi);
      AcceptedPrefix(bs, k, j, k);
      if lo > times[k] {
        assert forall a :: 0 <= a < k ==> times[..k][a] == times[a];
        if j < k { assert false; }
        j := |times|;
      }
    }
  }

  /** What the bucket accepts respects the rate in every span of time. */
  lemma {:induction false} BucketRespects(s: State, times: seq<real>)
    requires s == Full(s.capacity, s.refill, s.updated) && s.refill >= 0.0
    requires InOrder(s.updated, times)
    ensures Respects(s.capacity, s.refill, times, Answers(s, times))
    decreases |times|
  {
    hide Accrued, Answers, AcceptedWithin, Within;
    forall lo, hi | lo <= hi
      ensures Within(s.capacity, s.refill, AcceptedWithin(times, Answers(s, times), lo, hi), hi - lo)
    {
      if times == [] {
        NoneWithin(lo, hi);
        WithinLonger(s.capacity, s.refill, 0, 0.0, hi - lo);
      } else {
        var k := |times| - 1;
        BucketRespects(s, times[..k]);
        AnswersPrefix(s, times, k);
        WithinStep(times, Answers(s, times), lo, hi);
        if Answers(s, times)[k] && lo <= times[k] <= hi {
          var j := WithinIsSuffix(times, Answers(s, times), lo, hi);
          AnswerIsExact(s, times, k);
          WithinLonger(s.capacity, s.refill, Accepted(Answers(s, times), j, k) + 1, times[k] - times[j], hi - lo);
        }
      }
    }
  }

  /** What a span allows a longer one allows, and nothing at all is always allowed. */
  lemma WithinLonger(capacity: nat, refill: real, count: nat, a: real, b: real)
    requires refill >= 0.0 && a <= b
    ensures Within(capacity, refill, count, a) ==> Within(capacity, refill, count, b)
    ensures Within(capacity, refill, 0, 0.0)
  {
    assert refill * (b - a) >= 0.0;
  }

  lemma WithinFewer(capacity: nat, refill: real, few: nat, many: nat, span: real)
    requires few <= many && Within(capacity, refill, many, span)
    ensures Within(capacity, refill, few, span)
  {
  }

  lemma NoneWithin(lo: real, hi: real)
    ensures AcceptedWithin([], [], lo, hi) == 0
  {
  }

  lemma WithinStep(times: seq<real>, bs: seq<bool>, lo: real, hi: real)
    requires |times| == |bs| > 0
    ensures var k := |times| - 1;
            AcceptedWithin(times, bs, lo, hi) == AcceptedWithin(times[..k], bs[..k], lo, hi)
                                                 + (if bs[k] && lo <= times[k] <= hi then 1 else 0)
  {
  }

  lemma AnswersPrefix(s: State, times: seq<real>, k: nat)
    requires k <= |times|
    ensures Answers(s, times[..k]) == Answers(s, times)[..k]
  {
    hide Ask, After;
    forall i | 0 <= i < k ensures Answers(s, times[..k])[i] == Answers(s, times)[i] {
      assert times[..k][..i] == times[..i];
    }
  }

  // ---------------------------------------------------------------- optimality

  /** The span from request j to request i holds at least the acceptances between them. */
  lemma {:induction false} BetweenIsWithin(times: seq<real>, bs: seq<bool>, j: nat, i: nat, lo: real, hi: real)
    requires |times| == |bs| && j <= i <= |times|
    requires forall k :: j <= k < i ==> lo <= times[k] <= hi
    ensures Accepted(bs, j, i) <= AcceptedWithin(times, bs, lo, hi)
    decreases |times|
  {
    if times != [] {
      var k := |times| - 1;
      if i <= k {
        AcceptedPrefix(bs, k, j, i);
        BetweenIsWithin(times[..k], bs[..k], j, i, lo, hi);
      } else if j <= k {
        AcceptedPrefix(bs, k, j, k);
        BetweenIsWithin(times[..k], bs[..k], j, k, lo, hi);
      }
    }
  }

  /** No way of answering that respects the rate has, after any number of requests, accepted more
      than the bucket. */
  lemma {:induction false} BucketIsOptimal(s: State, times: seq<real>, bs: seq<bool>, n: nat)
    requires s == Full(s.capacity, s.refill, s.updated) && s.refill >= 0.0
    requires InOrder(s.updated, times) && |bs| == |times| && n <= |times|
    requires Respects(s.capacity, s.refill, times, bs)
    ensures Accepted(bs, 0, n) <= Accepted(Answers(s, times), 0, n)
    decreases n
  {
    hide Accrued, Answers, AcceptedWithin, Within;
    if n > 0 {
      var i, mine := n - 1, Answers(s, times);
      BucketIsOptimal(s, times, bs, i);
      if bs[i] && !mine[i] {
        AnswerIsExact(s, times, i);
        var j :| 0 <= j <= i && !Within(s.capacity, s.refill, Accepted(mine, j, i) + 1, times[i] - times[j]);
        BucketIsOptimal(s, times, bs, j);
        BetweenIsWithin(times, bs, j, n, times[j], times[i]);
        AcceptedSplits(bs, 0, j, n);
        AcceptedSplits(mine, 0, j, i);
        if Accepted(mine, j, i) + 1 <= Accepted(bs, j, n) {
          WithinFewer(s.capacity, s.refill, Accepted(mine, j, i) + 1,
                      AcceptedWithin(times, bs, times[j], times[i]), times[i] - times[j]);
        }
      }
    }
  }
}
