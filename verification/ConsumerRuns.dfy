/** One consumer over a queue, a job store, records, audits and a breaker: a step as a function of
    everything it reads, and what all runs keep. */
module ConsumerRuns {
  import opened Wrappers
  import opened Timestamps
  import opened Repos
  import opened Retry
  import CB = CircuitBreaker

  datatype World = World(
    queue: seq<JobId>, jobs: map<JobId, JobView>, records: map<string, ScoreRecord>, audits: seq<Entry>, nextId: nat,
    breaker: CB.Breaker, calls: nat)

  /** The clock readings of one step: when the breaker is asked, when a failure is recorded, and
      when the audit event is made. */
  datatype Clock = Clock(ask: real, fail: real, audit: Timestamp)

  const MAX_ATTEMPTS: nat := 3

  const OPEN_MESSAGE: string := "circuit breaker 'dispatch' is open; fast-failing"

  // ---------------------------------------------------------------- one step

  function Audit(w: World, actor: string, action: string, id: JobId, payload: map<string, string>, ts: Timestamp): World
    requires id in w.jobs
  {
    w.(audits := w.audits + [Entry(w.nextId, actor, action, id, w.jobs[id].tenant, ts, payload)],
       nextId := w.nextId + 1)
  }

  /** The job goes to the back of the queue and stays RUNNING in the store. */
  function Requeue(w: World, id: JobId, message: string): World
    requires id in w.jobs
  {
    w.(jobs := w.jobs[id := w.jobs[id].(error := Some(message))], queue := w.queue + [id])
  }

  function Reject(w: World, id: JobId, message: string): World
    requires id in w.jobs
  {
    w.(jobs := w.jobs[id := w.jobs[id].(status := Failed, error := Some(message))])
  }

  function RecordOf(j: JobView, r: DispatchResult): ScoreRecord {
    ScoreRecord(r.recordHash, j.commitSha, j.repoUrl, r.specHash, r.score, r.metrics, r.toolDigests, j.tenant)
  }

  /** The record under its hash. */
  function Stored(w: World, id: JobId, r: DispatchResult): World
    requires id in w.jobs
  {
    w.(records := w.records[r.recordHash := RecordOf(w.jobs[id], r)])
  }

  function Completed(w: World, id: JobId, r: DispatchResult): World
    requires id in w.jobs
  {
    w.(jobs := w.jobs[id := w.jobs[id].(status := Succeeded, recordHash := Some(r.recordHash), score := Some(r.score),
                                        sidecars := Some(r.sidecars), error := None)])
  }

  function Accept(w: World, id: JobId, r: DispatchResult, ts: Timestamp): World
    requires id in w.jobs
  {
    Audit(Completed(Stored(w, id, r), id, r), "worker", "score.succeeded", id, map["record_hash" := r.recordHash], ts)
  }

  /** What a raised exception does to its job. */
  function Handle(w: World, id: JobId, e: Exception, ts: Timestamp): World
    requires id in w.jobs
  {
    match e
    case CircuitBreakerOpen(m) => Requeue(w, id, m)
    case RetryExhausted(m) =>
      Audit(Reject(w, id, m), "worker", "score.failed", id, map["reason" := "retry_exhausted", "error" := m], ts)
    case DispatchError(m) =>
      Audit(Reject(w, id, m), "worker", "score.failed", id, map["reason" := "dispatch", "error" := m], ts)
    case Unexpected(m) => Reject(w, id, "unexpected: " + m)
  }

  /** The job is marked RUNNING. */
  function Started(w: World, id: JobId): World
    requires id in w.jobs
  {
    w.(jobs := w.jobs[id := w.jobs[id].(status := Running)])
  }

  /** The dispatch goes through the breaker, which may refuse it. */
  function Called(w: World, c: CB.Config, behaviour: Behaviour, clock: Clock): (World, Outcome) {
    var (b, admitted) := CB.Admit(w.breaker, c, clock.ask);
    if !admitted then (w.(breaker := b), Raised(CircuitBreakerOpen(OPEN_MESSAGE)))
    else
      var (o, calls) := Attempts(behaviour, w.calls, MAX_ATTEMPTS, MAX_ATTEMPTS);
      (w.(breaker := Recorded(b, c, o, clock.fail), calls := calls), o)
  }

  /** What the breaker records of a dispatch: nothing, when it is torn down. */
  function Recorded(b: CB.Breaker, c: CB.Config, o: Outcome, now: real): CB.Breaker {
    match o
    case Returned(_) => CB.Succeed(b)
    case Raised(_) => CB.Fail(b, c, now)
    case TornDown(_) => b
  }

  /** The dispatch has returned or raised; if it was torn down no handler runs, and the job stays
      RUNNING and out of the queue. */
  function Finish(w: World, id: JobId, o: Outcome, ts: Timestamp): World
    requires id in w.jobs
  {
    match o
    case Returned(r) => Accept(w, id, r, ts)
    case Raised(e) => Handle(w, id, e, ts)
    case TornDown(_) => w
  }

  /** A job that has left the queue is worked on. */
  function Process(w: World, c: CB.Config, behaviour: Behaviour, id: JobId, clock: Clock): World
    requires id in w.jobs
  {
    var (w', o) := Called(Started(w, id), c, behaviour, clock);
    Finish(w', id, o, clock.audit)
  }

  function Rest(w: World): World
    requires w.queue != []
  {
    w.(queue := w.queue[1..])
  }

  // ---------------------------------------------------------------- runs

  /** A job is submitted under a new identifier, or the consumer runs once. */
  datatype Action =
    | Submit(id: JobId, tenant: string, repoUrl: string, commitSha: string, actor: string, ts: Timestamp)
    | RunOnce(clock: Clock)

  function Apply(w: World, c: CB.Config, behaviour: Behaviour, a: Action): World {
    match a
    case Submit(id, tenant, repoUrl, commitSha, actor, ts) =>
      Audit(w.(jobs := w.jobs[id := Submitted(tenant, repoUrl, commitSha)], queue := w.queue + [id]),
            actor, "score.create", id, map["repo_url" := repoUrl, "commit_sha" := commitSha], ts)
    case RunOnce(clock) =>
      if w.queue == [] then w
      else if w.queue[0] !in w.jobs then Rest(w)
      else Process(Rest(w), c, behaviour, w.queue[0], clock)
  }

  const EMPTY: World := World([], map[], map[], [], 1, CB.INITIAL, 0)

  function After(c: CB.Config, behaviour: Behaviour, actions: seq<Action>): World {
    if actions == [] then EMPTY
    else
      var k := |actions| - 1;
      Apply(After(c, behaviour, actions[..k]), c, behaviour, actions[k])
  }

  /** The job, if any, whose dispatch is torn down in this step. */
  function TornBy(w: World, c: CB.Config, behaviour: Behaviour, a: Action): set<JobId> {
    if a.RunOnce? && w.queue != [] && w.queue[0] in w.jobs && CB.Admit(w.breaker, c, a.clock.ask).1
       && Attempts(behaviour, w.calls, MAX_ATTEMPTS, MAX_ATTEMPTS).0.TornDown?
    then {w.queue[0]} else {}
  }

  /** The jobs whose dispatch was torn down in a run. */
  function Torn(c: CB.Config, behaviour: Behaviour, actions: seq<Action>): set<JobId> {
    if actions == [] then {}
    else
      var k := |actions| - 1;
      Torn(c, behaviour, actions[..k]) + TornBy(After(c, behaviour, actions[..k]), c, behaviour, actions[k])
  }

  function Submits(actions: seq<Action>): nat {
    if actions == [] then 0
    else Submits(actions[..|actions| - 1]) + (if actions[|actions| - 1].Submit? then 1 else 0)
  }

  predicate IsNew(w: World, a: Action) {
    a.Submit? ==> a.id !in w.jobs
  }

  /** Every submission comes under an identifier not used before. */
  ghost predicate FreshIds(c: CB.Config, behaviour: Behaviour, actions: seq<Action>) {
    forall k :: 0 <= k < |actions| ==> IsNew(After(c, behaviour, actions[..k]), actions[k])
  }

  predicate Terminal(j: JobView) {
    j.status.Succeeded? || j.status.Failed?
  }

  ghost predicate Distinct(ids: seq<JobId>) {
    forall i, j :: 0 <= i < j < |ids| ==> ids[i] != ids[j]
  }

  /** What is in the queue is there once, stored, and not terminal. */
  ghost predicate QueueSound(w: World) {
    && Distinct(w.queue)
    && (forall id :: id in w.queue ==> id in w.jobs && !Terminal(w.jobs[id]))
  }

  /** Every stored job is one of three things, and only one: in the queue, and there once; terminal; or
      one of these, whose dispatch was torn down. */
  ghost predicate Settled(w: World, torn: set<JobId>) {
    && QueueSound(w)
    && (forall id :: id in torn ==> id in w.jobs && !Terminal(w.jobs[id]) && id !in w.queue)
    && (forall id :: id in w.jobs && id !in torn && !Terminal(w.jobs[id]) ==> id in w.queue)
  }

  // ---------------------------------------------------------------- no job is lost or duplicated

  lemma SubmitKeeps(w: World, torn: set<JobId>, c: CB.Config, behaviour: Behaviour, a: Action)
    requires Settled(w, torn) && a.Submit? && IsNew(w, a)
    ensures Settled(Apply(w, c, behaviour, a), torn)
  {
  }

  /** A job that has left the queue and is none of the three yet. */
  ghost predicate InHand(w: World, torn: set<JobId>, id: JobId) {
    && QueueSound(w) && id !in w.queue && id in w.jobs && !Terminal(w.jobs[id]) && id !in torn
    && (forall x :: x in torn ==> x in w.jobs && !Terminal(w.jobs[x]) && x !in w.queue)
    && (forall x :: x in w.jobs && x != id && x !in torn && !Terminal(w.jobs[x]) ==> x in w.queue)
  }

  lemma StartedInHand(w: World, torn: set<JobId>)
    requires Settled(w, torn) && w.queue != []
    ensures w.queue[0] in w.jobs && InHand(Started(Rest(w), w.queue[0]), torn, w.queue[0])
  {
    assert forall x :: x in w.queue[1..] ==> x in w.queue;
    assert forall x :: x in w.queue && x != w.queue[0] ==> x in w.queue[1..];
  }

  lemma RequeueSettles(w: World, torn: set<JobId>, id: JobId, message: string)
    requires InHand(w, torn, id)
    ensures Settled(Requeue(w, id, message), torn)
  {
  }

  /** A terminal status for the job in hand. */
  lemma TerminalSettles(w: World, w': World, torn: set<JobId>, id: JobId, j: JobView)
    requires InHand(w, torn, id) && Terminal(j) && w'.queue == w.queue && w'.jobs == w.jobs[id := j]
    ensures Settled(w', torn)
  {
  }

  lemma TornSettles(w: World, torn: set<JobId>, id: JobId)
    requires InHand(w, torn, id)
    ensures Settled(w, torn + {id})
  {
  }

  lemma FinishSettles(w: World, torn: set<JobId>, id: JobId, o: Outcome, ts: Timestamp)
    requires InHand(w, torn, id)
    ensures Settled(Finish(w, id, o, ts), if o.TornDown? then torn + {id} else torn)
  {
    hide InHand, Settled, RecordOf;
    HandIsJob(w, torn, id);
    var w' := Finish(w, id, o, ts);
    if o.TornDown? {
      TornSettles(w, torn, id);
    } else if o.Raised? && o.exception.CircuitBreakerOpen? {
      RequeueSettles(w, torn, id, o.exception.message);
    } else {
      TerminalSettles(w, w', torn, id, w'.jobs[id]);
    }
  }

  lemma HandIsJob(w: World, torn: set<JobId>, id: JobId)
    requires InHand(w, torn, id)
    ensures id in w.jobs
  {
  }

  lemma NothingTorn(torn: set<JobId>)
    ensures torn + {} == torn
  {
  }

  /** Each step leaves every job one of the three, and tears at most the one it dispatches. */
  lemma ApplySettles(w: World, torn: set<JobId>, c: CB.Config, behaviour: Behaviour, a: Action)
    requires Settled(w, torn) && IsNew(w, a)
    ensures Settled(Apply(w, c, behaviour, a), torn + TornBy(w, c, behaviour, a))
  {
    NothingTorn(torn);
    hide CB.Admit, Attempts, Settled, Process;
    if a.Submit? {
      SubmitKeeps(w, torn, c, behaviour, a);
    } else if w.queue != [] {
      ProcessSettles(w, torn, c, behaviour, a.clock);
    }
  }

  lemma ProcessSettles(w: World, torn: set<JobId>, c: CB.Config, behaviour: Behaviour, clock: Clock)
    requires Settled(w, torn) && w.queue != []
    ensures w.queue[0] in w.jobs
    ensures Settled(Process(Rest(w), c, behaviour, w.queue[0], clock), torn + TornBy(w, c, behaviour, RunOnce(clock)))
  {
    StartedInHand(w, torn);
    NothingTorn(torn);
    hide CB.Admit, CB.Fail, CB.Succeed, Attempts, Finish, InHand, Started, Settled, Recorded;
    var id := w.queue[0];
    var (w', o) := Called(Started(Rest(w), id), c, behaviour, clock);
    StartedKeeps(Rest(w), id);
    InHandFrame(Started(Rest(w), id), torn, w'.breaker, w'.calls, id);
    FinishSettles(w', torn, id, o, clock.audit);
  }

  lemma StartedKeeps(w: World, id: JobId)
    requires id in w.jobs
    ensures Started(w, id).breaker == w.breaker && Started(w, id).calls == w.calls
    ensures Started(w, id).jobs.Keys == w.jobs.Keys
  {
  }

  lemma InHandFrame(w: World, torn: set<JobId>, b: CB.Breaker, calls: nat, id: JobId)
    requires InHand(w, torn, id)
    ensures InHand(w.(breaker := b, calls := calls), torn, id)
  {
  }

  lemma FreshIdsPrefix(c: CB.Config, behaviour: Behaviour, actions: seq<Action>, n: nat)
    requires n <= |actions| && FreshIds(c, behaviour, actions)
    ensures FreshIds(c, behaviour, actions[..n])
  {
    hide After, IsNew;
    forall k | 0 <= k < n ensures IsNew(After(c, behaviour, actions[..n][..k]), actions[..n][k]) {
      assert actions[..n][..k] == actions[..k];
    }
  }

  /** Over every run each stored job is in the queue exactly once, terminal, or had its dispatch torn
      down, and only one of these. */
  lemma {:induction false} RunSettles(c: CB.Config, behaviour: Behaviour, actions: seq<Action>)
    requires FreshIds(c, behaviour, actions)
    ensures Settled(After(c, behaviour, actions), Torn(c, behaviour, actions))
  {
    hide Apply, TornBy, IsNew;
    if actions != [] {
      var k := |actions| - 1;
      FreshIdsPrefix(c, behaviour, actions, k);
      RunSettles(c, behaviour, actions[..k]);
      hide Settled;
      ApplySettles(After(c, behaviour, actions[..k]), Torn(c, behaviour, actions[..k]), c, behaviour, actions[k]);
    }
  }

  /** A dispatcher that is never torn down. */
  ghost predicate NeverTears(behaviour: Behaviour) {
    forall n :: !behaviour(n).TornDown?
  }

  lemma {:induction false} NoneTorn(c: CB.Config, behaviour: Behaviour, actions: seq<Action>)
    requires NeverTears(behaviour)
    ensures Torn(c, behaviour, actions) == {}
  {
    hide Attempts, CB.Admit;
    if actions != [] {
      var k := |actions| - 1;
      NoneTorn(c, behaviour, actions[..k]);
      AttemptsMeaning(behaviour, After(c, behaviour, actions[..k]).calls, MAX_ATTEMPTS, MAX_ATTEMPTS);
    }
  }

  /** With such a dispatcher each is in the queue exactly once or terminal, and never both. */
  lemma NoJobIsLost(c: CB.Config, behaviour: Behaviour, actions: seq<Action>)
    requires FreshIds(c, behaviour, actions) && NeverTears(behaviour)
    ensures var w := After(c, behaviour, actions);
            && Distinct(w.queue) && (forall id :: id in w.queue ==> id in w.jobs)
            && forall id :: id in w.jobs ==> (id in w.queue <==> !Terminal(w.jobs[id]))
  {
    RunSettles(c, behaviour, actions);
    NoneTorn(c, behaviour, actions);
    hide After, Torn;
  }

  /** A step adds the submitted job to those stored and forgets none. */
  lemma JobsAfter(w: World, c: CB.Config, behaviour: Behaviour, a: Action)
    ensures Apply(w, c, behaviour, a).jobs.Keys == w.jobs.Keys + (if a.Submit? then {a.id} else {})
  {
    hide CB.Admit, Attempts, Recorded, RecordOf, Finish, Started;
    if a.RunOnce? && w.queue != [] && w.queue[0] in w.jobs {
      var id := w.queue[0];
      StartedKeeps(Rest(w), id);
      FinishKeepsJobs(Called(Started(Rest(w), id), c, behaviour, a.clock).0, id,
                      Called(Started(Rest(w), id), c, behaviour, a.clock).1, a.clock.audit);
    }
  }

  lemma FinishKeepsJobs(w: World, id: JobId, o: Outcome, ts: Timestamp)
    requires id in w.jobs
    ensures Finish(w, id, o, ts).jobs.Keys == w.jobs.Keys
  {
    hide RecordOf;
  }

  lemma OneMore(ids: set<JobId>, id: JobId)
    requires id !in ids
    ensures |ids + {id}| == |ids| + 1
  {
  }

  /** As many jobs are stored as were submitted. */
  lemma {:induction false} SubmittedAreStored(c: CB.Config, behaviour: Behaviour, actions: seq<Action>)
    requires FreshIds(c, behaviour, actions)
    ensures |After(c, behaviour, actions).jobs| == Submits(actions)
  {
    hide Apply;
    if actions != [] {
      var k := |actions| - 1;
      var w, w' := After(c, behaviour, actions[..k]), After(c, behaviour, actions);
      FreshIdsPrefix(c, behaviour, actions, k);
      SubmittedAreStored(c, behaviour, actions[..k]);
      JobsAfter(w, c, behaviour, actions[k]);
      assert IsNew(w, actions[k]);
      assert |w.jobs| == |w.jobs.Keys| && |w'.jobs| == |w'.jobs.Keys|;
      if actions[k].Submit? { OneMore(w.jobs.Keys, actions[k].id); } else { assert w'.jobs.Keys == w.jobs.Keys; }
    }
  }

  lemma AfterStep(c: CB.Config, behaviour: Behaviour, actions: seq<Action>)
    requires actions != []
    ensures var n := |actions| - 1;
            After(c, behaviour, actions) == Apply(After(c, behaviour, actions[..n]), c, behaviour, actions[n])
  {
    hide Apply;
  }

  lemma {:induction false} SubmittedStored(c: CB.Config, behaviour: Behaviour, actions: seq<Action>, k: nat)
    requires k < |actions| && actions[k].Submit?
    ensures actions[k].id in After(c, behaviour, actions).jobs
    decreases |actions|
  {
    var n := |actions| - 1;
    AfterStep(c, behaviour, actions);
    hide Apply, After;
    JobsAfter(After(c, behaviour, actions[..n]), c, behaviour, actions[n]);
    if k < n { SubmittedStored(c, behaviour, actions[..n], k); }
  }

  /** A job once submitted stays stored, through every continuation, as exactly one of the three. */
  lemma SubmittedStays(c: CB.Config, behaviour: Behaviour, actions: seq<Action>, k: nat)
    requires FreshIds(c, behaviour, actions) && k < |actions| && actions[k].Submit?
    ensures var w, torn, id := After(c, behaviour, actions), Torn(c, behaviour, actions), actions[k].id;
            && id in w.jobs
            && (id in w.queue <==> !Terminal(w.jobs[id]) && id !in torn)
            && (id in torn ==> !Terminal(w.jobs[id]))
  {
    hide After, Torn, FreshIds;
    RunSettles(c, behaviour, actions);
    SubmittedStored(c, behaviour, actions, k);
  }

  ghost function WithStatus(w: World, status: Status): set<JobId> {
    set id | id in w.jobs && w.jobs[id].status == status
  }

  lemma {:induction false} SetOfDistinct(ids: seq<JobId>) returns (s: set<JobId>)
    requires Distinct(ids)
    ensures s == (set id | id in ids) && |s| == |ids|
  {
    if ids == [] {
      s := {};
    } else {
      var k := |ids| - 1;
      var t := SetOfDistinct(ids[..k]);
      assert ids[k] !in t;
      s := t + {ids[k]};
      assert ids == ids[..k] + [ids[k]];
      forall id ensures id in s <==> id in ids {
        assert id in t <==> id in ids[..k];
      }
    }
  }

  lemma FourParts(whole: set<JobId>, a: set<JobId>, b: set<JobId>, c: set<JobId>, d: set<JobId>)
    requires whole == a + b + c + d && a !! b && a !! c && a !! d && b !! c && b !! d && c !! d
    ensures |whole| == |a| + |b| + |c| + |d|
  {
    assert |a + b| == |a| + |b|;
    assert |a + b + c| == |a + b| + |c|;
  }

  lemma OneOfFour(w: World, torn: set<JobId>, id: JobId)
    requires Settled(w, torn)
    ensures id in w.jobs <==>
            id in w.queue || id in WithStatus(w, Succeeded) || id in WithStatus(w, Failed) || id in torn
    ensures !(id in w.queue && id in WithStatus(w, Succeeded)) && !(id in w.queue && id in WithStatus(w, Failed))
    ensures !(id in w.queue && id in torn) && !(id in WithStatus(w, Succeeded) && id in WithStatus(w, Failed))
    ensures !(id in WithStatus(w, Succeeded) && id in torn) && !(id in WithStatus(w, Failed) && id in torn)
  {
  }

  lemma JobsAddUp(w: World, torn: set<JobId>)
    requires Settled(w, torn)
    ensures |w.jobs| == |w.queue| + |WithStatus(w, Succeeded)| + |WithStatus(w, Failed)| + |torn|
  {
    SettledQueue(w, torn);
    hide WithStatus, Settled, Distinct;
    var queued := SetOfDistinct(w.queue);
    var ok, failed := WithStatus(w, Succeeded), WithStatus(w, Failed);
    forall id
      ensures id in w.jobs <==> id in queued || id in ok || id in failed || id in torn
      ensures !(id in queued && (id in ok || id in failed || id in torn))
      ensures !(id in ok && (id in failed || id in torn)) && !(id in failed && id in torn)
    {
      OneOfFour(w, torn, id);
    }
    assert w.jobs.Keys == queued + ok + failed + torn;
    FourParts(w.jobs.Keys, queued, ok, failed, torn);
    assert |w.jobs| == |w.jobs.Keys|;
  }

  lemma SettledQueue(w: World, torn: set<JobId>)
    requires Settled(w, torn)
    ensures Distinct(w.queue)
  {
  }

  /** After every run the jobs submitted are the queued ones, the succeeded ones, the failed ones and
      those whose dispatch was torn down, each counted once. */
  lemma RunAddsUp(c: CB.Config, behaviour: Behaviour, actions: seq<Action>)
    requires FreshIds(c, behaviour, actions)
    ensures var w := After(c, behaviour, actions);
            Submits(actions) ==
            |w.queue| + |WithStatus(w, Succeeded)| + |WithStatus(w, Failed)| + |Torn(c, behaviour, actions)|
  {
    hide After, Torn, Settled, WithStatus, FreshIds;
    RunSettles(c, behaviour, actions);
    SubmittedAreStored(c, behaviour, actions);
    JobsAddUp(After(c, behaviour, actions), Torn(c, behaviour, actions));
  }
}
