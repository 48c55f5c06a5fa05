/** The rate limiter: one token bucket for each tenant and bucket name, created when first asked. */
module RateLimiter {
  import opened Reals
  import opened TokenBucket

  type Key = (string, string)

  /** Refill rate and capacity by bucket name. */
  function Defaults(name: string): (real, nat) {
    if name == "score" then (5.0, 10)
    else if name == "records" then (50.0, 100)
    else if name == "audit" then (10.0, 20)
    else (10.0, 20)
  }

  function Fresh(key: Key, created: real): State {
    Full(Defaults(key.1).1, Defaults(key.1).0, created)
  }

  /** One call: the clock is read once if the bucket is created, and once to refill it. */
  datatype Request = Request(key: Key, created: real, now: real)

  type View = map<Key, State>

  function BucketFor(view: View, key: Key, created: real): State {
    if key in view then view[key] else Fresh(key, created)
  }

  function Serve(view: View, r: Request): (View, bool) {
    var (s, answer) := Ask(BucketFor(view, r.key, r.created), r.now);
    (view[r.key := s], answer)
  }

  class Bucket {
    const capacity: nat
    const refillPerSec: real
    var tokens: real
    var updated: real

    constructor (capacity: nat, refill: real, created: real)
      ensures Now() == Full(capacity, refill, created)
    {
      this.capacity, this.refillPerSec, tokens, updated := capacity, refill, capacity as real, created;
    }

    function Now(): State
      reads this
    {
      State(capacity, refillPerSec, tokens, updated)
    }

    /** The part of a call that works on one bucket: refill, then take a token if there is one. */
    method Take(now: real) returns (allowed: bool)
      modifies this
      ensures (Now(), allowed) == Ask(old(Now()), now)
    {
      hide Accrued;
      var elapsed := now - updated;
      tokens := Min(capacity as real, tokens + Accrued(refillPerSec, elapsed));
      updated := now;
      if tokens >= 1.0 {
        tokens := tokens - 1.0;
        return true;
      }
      return false;
    }
  }

  class RateLimiter {
    var buckets: map<Key, Bucket>
    ghost var seen: View

    /** No two keys share a bucket, and `seen` is what the buckets hold. */
    ghost predicate Valid()
      reads this, buckets.Values
    {
      && buckets.Keys == seen.Keys
      && (forall k :: k in buckets ==> buckets[k].Now() == seen[k])
      && (forall k, l :: k in buckets && l in buckets && k != l ==> buckets[k] != buckets[l])
    }

    constructor ()
      ensures Valid() && seen == map[]
    {
      buckets, seen := map[], map[];
    }

    method GetBucket(key: Key, created: real) returns (bucket: Bucket)
      requires Valid()
      modifies this
      ensures Valid() && key in buckets && buckets[key] == bucket
      ensures seen == old(seen)[key := BucketFor(old(seen), key, created)]
      ensures key in old(buckets) ==> buckets == old(buckets)
      ensures key !in old(buckets) ==> fresh(bucket) && buckets == old(buckets)[key := bucket]
    {
      if key in buckets {
        assert seen == seen[key := seen[key]];
        return buckets[key];
      }
      var (refill, capacity) := Defaults(key.1);
      bucket := new Bucket(capacity, refill, created);
      buckets := buckets[key := bucket];
      seen := seen[key := bucket.Now()];
    }

    method TakeFrom(key: Key, now: real) returns (allowed: bool)
      requires Valid() && key in buckets
      modifies this, buckets[key]
      ensures Valid() && buckets == old(buckets)
      ensures var (s, answer) := Ask(old(seen)[key], now); seen == old(seen)[key := s] && allowed == answer
    {
      hide Ask;
      ghost var before := seen;
      allowed := buckets[key].Take(now);
      forall k | k in buckets && k != key ensures buckets[k].Now() == before[k] { }
      seen := before[key := buckets[key].Now()];
      forall k | k in buckets ensures buckets[k].Now() == seen[k] { }
    }

    lemma HasKey()
      requires Valid()
      ensures buckets.Keys == seen.Keys
    {
    }

    /** Answers as the key's own bucket would, and leaves every other bucket alone. */
    method Allow(key: Key, created: real, now: real) returns (allowed: bool)
      requires Valid()
      modifies this, buckets.Values
      ensures Valid()
      ensures (seen, allowed) == Serve(old(seen), Request(key, created, now))
    {
      hide Ask, BucketFor, Defaults, Full, Valid;
      var bucket := GetBucket(key, created);
      ghost var found := seen;
      HasKey();
      allowed := TakeFrom(key, now);
      UpdatedTwice(old(seen), key, found[key], seen[key]);
    }
  }

  lemma UpdatedTwice<K, V>(m: map<K, V>, k: K, v: V, w: V)
    ensures m[k := v][k := w] == m[k := w]
  {
  }

  // ---------------------------------------------------------------- runs over many keys

  function ViewAfter(rs: seq<Request>): View {
    if rs == [] then map[] else Serve(ViewAfter(rs[..|rs| - 1]), rs[|rs| - 1]).0
  }

  /** The answer to request i of a run. */
  function Answer(rs: seq<Request>, i: nat): bool
    requires i < |rs|
  {
    Serve(ViewAfter(rs[..i]), rs[i]).1
  }

  /** The times at which a key is asked. */
  function TimesOf(rs: seq<Request>, key: Key): seq<real> {
    if rs == [] then []
    else
      var k := |rs| - 1;
      TimesOf(rs[..k], key) + (if rs[k].key == key then [rs[k].now] else [])
  }

  /** When a key's bucket is created: at its first request. */
  function CreatedAt(rs: seq<Request>, key: Key): real
    requires TimesOf(rs, key) != []
  {
    var k := |rs| - 1;
    if TimesOf(rs[..k], key) != [] then CreatedAt(rs[..k], key) else rs[k].created
  }

  /** A key's bucket depends on nothing but its own requests. */
  lemma {:induction false} OwnRequestsOnly(rs: seq<Request>, key: Key)
    ensures key in ViewAfter(rs) <==> TimesOf(rs, key) != []
    ensures key in ViewAfter(rs) ==> ViewAfter(rs)[key] == After(Fresh(key, CreatedAt(rs, key)), TimesOf(rs, key))
  {
    hide Ask, Defaults, Fresh, After;
    if rs != [] {
      var k := |rs| - 1;
      OwnRequestsOnly(rs[..k], key);
      TimesOfStep(rs, key);
      if rs[k].key == key {
        var s, before := Fresh(key, CreatedAt(rs, key)), TimesOf(rs[..k], key);
        AfterStep(s, before, rs[k].now);
        AfterKeeps(s, []);
      }
    }
  }

  lemma AfterStep(s: State, times: seq<real>, now: real)
    ensures After(s, times + [now]) == Ask(After(s, times), now).0
  {
    assert (times + [now])[..|times|] == times;
  }

  lemma TimesOfStep(rs: seq<Request>, key: Key)
    requires rs != []
    ensures var k := |rs| - 1;
            && TimesOf(rs, key) == (if rs[k].key == key then TimesOf(rs[..k], key) + [rs[k].now]
                                    else TimesOf(rs[..k], key))
            && (TimesOf(rs, key) != [] ==>
                CreatedAt(rs, key) == if TimesOf(rs[..k], key) != [] then CreatedAt(rs[..k], key) else rs[k].created)
  {
  }

  /** The clock never runs backwards. */
  ghost predicate Clocked(rs: seq<Request>) {
    && (forall i :: 0 <= i < |rs| ==> rs[i].created <= rs[i].now)
    && (forall i, j :: 0 <= i < j < |rs| ==> rs[i].now <= rs[j].created)
  }

  lemma {:induction false} OwnTimesInOrder(rs: seq<Request>, key: Key)
    requires Clocked(rs)
    ensures TimesOf(rs, key) != [] ==> InOrder(CreatedAt(rs, key), TimesOf(rs, key))
    ensures forall i :: 0 <= i < |TimesOf(rs, key)| ==> rs != [] && TimesOf(rs, key)[i] <= rs[|rs| - 1].now
  {
    hide TimesOf, CreatedAt, InOrder;
    NoTimes(key);
    if rs != [] {
      var k := |rs| - 1;
      var before := TimesOf(rs[..k], key);
      OwnTimesInOrder(rs[..k], key);
      TimesOfStep(rs, key);
      assert k > 0 ==> rs[..k][k - 1] == rs[k - 1] && rs[k - 1].now <= rs[k].created;
      if rs[k].key == key {
        InOrderAppend(if before == [] then rs[k].created else CreatedAt(rs[..k], key), before, rs[k].now);
      }
    }
  }

  lemma NoTimes(key: Key)
    ensures TimesOf([], key) == []
  {
  }

  lemma InOrderAppend(created: real, times: seq<real>, now: real)
    requires times != [] ==> InOrder(created, times)
    requires forall i :: 0 <= i < |times| ==> times[i] <= now
    requires times == [] ==> created <= now
    ensures InOrder(created, times + [now])
  {
    if times != [] { assert created <= times[0]; }
  }

  lemma RatesPositive(name: string)
    ensures Defaults(name).0 > 0.0 && Defaults(name).1 >= 1
  {
  }

  lemma FreshIsFull(key: Key, created: real)
    ensures var s := Fresh(key, created);
            && s == Full(s.capacity, s.refill, s.updated) && s.refill >= 0.0 && s.updated == created
            && (s.refill, s.capacity) == Defaults(key.1)
  {
  }

  /** The last answer of a run is the last answer of its key's own requests. */
  lemma AnswerOfKey(rs: seq<Request>)
    requires rs != []
    ensures var key := rs[|rs| - 1].key; var times := TimesOf(rs, key);
            times != [] && Answer(rs, |rs| - 1) == Answers(Fresh(key, CreatedAt(rs, key)), times)[|times| - 1]
  {
    hide Ask, After, Defaults, Fresh;
    var k := |rs| - 1;
    var key := rs[k].key;
    OwnRequestsOnly(rs[..k], key);
    TimesOfStep(rs, key);
    var before := TimesOf(rs[..k], key);
    assert (before + [rs[k].now])[..|before|] == before;
    AfterKeeps(Fresh(key, CreatedAt(rs, key)), []);
  }

  /** The answers a key is given in a run. */
  function OwnAnswers(rs: seq<Request>, key: Key): seq<bool> {
    if rs == [] then []
    else
      var k := |rs| - 1;
      OwnAnswers(rs[..k], key) + (if rs[k].key == key then [Answer(rs, k)] else [])
  }

  lemma {:induction false} OwnAnswersAreAnswers(rs: seq<Request>, key: Key)
    ensures |OwnAnswers(rs, key)| == |TimesOf(rs, key)|
    ensures TimesOf(rs, key) != [] ==>
              OwnAnswers(rs, key) == Answers(Fresh(key, CreatedAt(rs, key)), TimesOf(rs, key))
  {
    hide Answer, Answers, TimesOf, CreatedAt, Fresh;
    NoTimes(key);
    if rs != [] {
      var k := |rs| - 1;
      OwnAnswersAreAnswers(rs[..k], key);
      TimesOfStep(rs, key);
      var before, times := TimesOf(rs[..k], key), TimesOf(rs, key);
      if rs[k].key == key {
        AnswerOfKey(rs);
        var s := Fresh(key, CreatedAt(rs, key));
        AnswersPrefix(s, times, |before|);
        assert times[..|before|] == before;
        var all := Answers(s, times);
        assert all == all[..|before|] + [all[|before|]];
        assert before == [] ==> all[..0] == [];
      }
    }
  }

  /** In any run over any keys the last request is admitted exactly when, for every earlier request of
      its own key and itself, one more acceptance since then keeps to the key's capacity and rate. */
  lemma AllowIsExact(rs: seq<Request>)
    requires rs != [] && Clocked(rs)
    ensures var key := rs[|rs| - 1].key;
            var times, mine, n := TimesOf(rs, key), OwnAnswers(rs, key), |TimesOf(rs, key)| - 1;
            && |mine| == |times| > 0 && mine[n] == Answer(rs, |rs| - 1)
            && GrantedExactly(Defaults(key.1).1, Defaults(key.1).0, times, mine, n)
  {
    var k := |rs| - 1;
    var key := rs[k].key;
    FreshIsFull(key, CreatedAt(rs, key));
    hide *;
    OwnTimesInOrder(rs, key);
    AnswerOfKey(rs);
    OwnAnswersAreAnswers(rs, key);
    AnswerIsExact(Fresh(key, CreatedAt(rs, key)), TimesOf(rs, key), |TimesOf(rs, key)| - 1);
  }

  /** A key left alone for as long as one token takes to come in is granted its next request, however
      much it asked before; and so is its first request. */
  lemma AllowedAfterWait(rs: seq<Request>)
    requires rs != [] && Clocked(rs)
    requires var key := rs[|rs| - 1].key; var times := TimesOf(rs, key);
             |times| > 1 ==> times[|times| - 1] - times[|times| - 2] >= 1.0 / Defaults(key.1).0
    ensures Answer(rs, |rs| - 1)
  {
    var k := |rs| - 1;
    var key := rs[k].key;
    FreshIsFull(key, CreatedAt(rs, key));
    RatesPositive(key.1);
    hide *;
    OwnTimesInOrder(rs, key);
    AnswerOfKey(rs);
    var s, times := Fresh(key, CreatedAt(rs, key)), TimesOf(rs, key);
    if |times| > 1 { GrantedAfterWait(s, times, |times| - 1); } else { FirstGranted(s, times); }
  }

  lemma RunRespects(rs: seq<Request>, key: Key)
    requires Clocked(rs) && TimesOf(rs, key) != []
    ensures |OwnAnswers(rs, key)| == |TimesOf(rs, key)|
    ensures Respects(Defaults(key.1).1, Defaults(key.1).0, TimesOf(rs, key), OwnAnswers(rs, key))
  {
    OwnTimesInOrder(rs, key);
    OwnAnswersAreAnswers(rs, key);
    FreshIsFull(key, CreatedAt(rs, key));
    hide *;
    BucketRespects(Fresh(key, CreatedAt(rs, key)), TimesOf(rs, key));
  }

  /** In any run over any keys, what one key is granted respects its rate in every span of time, and
      no other way of answering its requests that does has ever granted more of them. */
  lemma RunIsOptimal(rs: seq<Request>, key: Key, bs: seq<bool>, n: nat)
    requires Clocked(rs) && TimesOf(rs, key) != []
    requires |bs| == |TimesOf(rs, key)| && n <= |bs|
    requires Respects(Defaults(key.1).1, Defaults(key.1).0, TimesOf(rs, key), bs)
    ensures |OwnAnswers(rs, key)| == |TimesOf(rs, key)|
    ensures Respects(Defaults(key.1).1, Defaults(key.1).0, TimesOf(rs, key), OwnAnswers(rs, key))
    ensures Accepted(bs, 0, n) <= Accepted(OwnAnswers(rs, key), 0, n)
  {
    RunRespects(rs, key);
    OwnTimesInOrder(rs, key);
    OwnAnswersAreAnswers(rs, key);
    FreshIsFull(key, CreatedAt(rs, key));
    hide *;
    BucketIsOptimal(Fresh(key, CreatedAt(rs, key)), TimesOf(rs, key), bs, n);
  }

  /** The capacities and rates by bucket name. */
  lemma NamedRates(rs: seq<Request>)
    requires rs != [] && Clocked(rs)
    ensures var key := rs[|rs| - 1].key;
            var times, mine, n := TimesOf(rs, key), OwnAnswers(rs, key), |TimesOf(rs, key)| - 1;
            && |mine| == |times| > 0 && mine[n] == Answer(rs, |rs| - 1)
            && (key.1 == "score" ==> GrantedExactly(10, 5.0, times, mine, n))
            && (key.1 == "records" ==> GrantedExactly(100, 50.0, times, mine, n))
            && (key.1 !in {"score", "records"} ==> GrantedExactly(20, 10.0, times, mine, n))
  {
    hide GrantedExactly, OwnAnswers, TimesOf, Answer, Clocked;
    AllowIsExact(rs);
  }

  /** In any span of time a tenant's "score" requests are granted at most 10 and 5 a second, its
      "records" requests at most 100 and 50 a second, and any other at most 20 and 10 a second. */
  lemma NamedLimits(rs: seq<Request>, key: Key, lo: real, hi: real)
    requires Clocked(rs) && lo <= hi
    ensures |OwnAnswers(rs, key)| == |TimesOf(rs, key)|
    ensures var granted := AcceptedWithin(TimesOf(rs, key), OwnAnswers(rs, key), lo, hi) as real;
            && (key.1 == "score" ==> granted <= 10.0 + 5.0 * (hi - lo))
            && (key.1 == "records" ==> granted <= 100.0 + 50.0 * (hi - lo))
            && (key.1 !in {"score", "records"} ==> granted <= 20.0 + 10.0 * (hi - lo))
  {
    hide TimesOf, OwnAnswers, AcceptedWithin;
    OwnAnswersAreAnswers(rs, key);
    if TimesOf(rs, key) == [] {
      NoneWithin(lo, hi);
    } else {
      RunRespects(rs, key);
    }
  }
}
