/** What one run of the consumer does, told by the dispatches it makes, and what the audit log says of
    the jobs after every run. */
module ConsumerSteps {
  import opened Wrappers
  import opened Repos
  import opened Retry
  import opened ConsumerRuns
  import opened DecimalText
  import CB = CircuitBreaker

  ghost predicate RaisesDispatchError(o: Outcome) {
    o.Raised? && o.exception.DispatchError?
  }

  /** The dispatch, of at most three from number k on, that settles the matter: the first that raises no
      DispatchError, or else the third. */
  ghost function Settling(behaviour: Behaviour, k: nat): nat {
    if !RaisesDispatchError(behaviour(k)) then k
    else if !RaisesDispatchError(behaviour(k + 1)) then k + 1
    else k + 2
  }

  lemma ThreeAttempts(behaviour: Behaviour, k: nat)
    ensures var n := Settling(behaviour, k);
            && Attempts(behaviour, k, MAX_ATTEMPTS, MAX_ATTEMPTS).1 == n + 1
            && Attempts(behaviour, k, MAX_ATTEMPTS, MAX_ATTEMPTS).0 ==
               if RaisesDispatchError(behaviour(n))
               then Raised(RetryExhausted("dispatch: 3 attempts exhausted, last error: "
                                          + behaviour(n).exception.message))
               else behaviour(n)
  {
    ExhaustedAfterThree(behaviour(k)); ExhaustedAfterThree(behaviour(k + 1)); ExhaustedAfterThree(behaviour(k + 2));
    hide Exhausted, RaisesDispatchError, IsTransient;
    AttemptsStep(behaviour, k, 3); AttemptsStep(behaviour, k + 1, 2); AttemptsStep(behaviour, k + 2, 1);
  }

  lemma ExhaustedAfterThree(o: Outcome)
    ensures RaisesDispatchError(o) ==>
              Exhausted(3, o.exception.message) ==
              "dispatch: 3 attempts exhausted, last error: " + o.exception.message
    ensures IsTransient(o) <==> RaisesDispatchError(o)
  {
    ThreeInWords();
    hide Natural;
    assert Natural(3) == "3";
  }

  lemma ThreeInWords()
    ensures Natural(3) == "3"
    ensures "dispatch: " + "3" + " attempts exhausted, last error: " == "dispatch: 3 attempts exhausted, last error: "
  {
  }

  lemma AttemptsStep(behaviour: Behaviour, k: nat, n: nat)
    requires n >= 1
    ensures var o := behaviour(k);
            Attempts(behaviour, k, n, 3) ==
            if !IsTransient(o) then (o, k + 1)
            else if n == 1 then (Raised(RetryExhausted(Exhausted(3, o.exception.message))), k + 1)
            else Attempts(behaviour, k + 1, n - 1, 3)
  {
  }

  /** The breaker lets this run dispatch the job at the head of the queue. */
  ghost predicate Dispatches(w: World, c: CB.Config, clock: Clock) {
    w.queue != [] && w.queue[0] in w.jobs && CB.Admit(w.breaker, c, clock.ask).1
  }

  /** Nothing but the head of the queue, its job, the records and the log has changed. */
  ghost predicate Ends(w: World, w': World, requeued: bool, job: JobView, stored: map<string, ScoreRecord>,
                       logged: seq<Entry>)
    requires w.queue != []
  {
    && w'.queue == w.queue[1..] + (if requeued then [w.queue[0]] else [])
    && w'.jobs == w.jobs[w.queue[0] := job]
    && w'.records == stored
    && w'.audits == w.audits + logged && w'.nextId == w.nextId + |logged|
  }

  /** A run that dispatches, told by the outcome of the settling dispatch. */
  lemma RunOnceTold(w: World, c: CB.Config, behaviour: Behaviour, clock: Clock)
    requires Dispatches(w, c, clock)
    ensures var id, n, w' := w.queue[0], Settling(behaviour, w.calls), Apply(w, c, behaviour, RunOnce(clock));
            var j := w.jobs[id].(status := Running);
            && w'.calls == n + 1
            && match behaviour(n)
               case Returned(r) =>
                 Ends(w, w', false,
                      j.(status := Succeeded, recordHash := Some(r.recordHash), score := Some(r.score),
                         sidecars := Some(r.sidecars), error := None),
                      w.records[r.recordHash := ScoreRecord(r.recordHash, j.commitSha, j.repoUrl, r.specHash, r.score,
                                                            r.metrics, r.toolDigests, j.tenant)],
                      [Entry(w.nextId, "worker", "score.succeeded", id, j.tenant, clock.audit,
                             map["record_hash" := r.recordHash])])
               case Raised(DispatchError(m)) =>
                 var text := "dispatch: 3 attempts exhausted, last error: " + m;
                 Ends(w, w', false, j.(status := Failed, error := Some(text)), w.records,
                      [Entry(w.nextId, "worker", "score.failed", id, j.tenant, clock.audit,
                             map["reason" := "retry_exhausted", "error" := text])])
               case Raised(RetryExhausted(m)) =>
                 Ends(w, w', false, j.(status := Failed, error := Some(m)), w.records,
                      [Entry(w.nextId, "worker", "score.failed", id, j.tenant, clock.audit,
                             map["reason" := "retry_exhausted", "error" := m])])
               case Raised(CircuitBreakerOpen(m)) =>
                 Ends(w, w', true, j.(error := Some(m)), w.records, [])
               case Raised(Unexpected(m)) =>
                 Ends(w, w', false, j.(status := Failed, error := Some("unexpected: " + m)), w.records, [])
               case TornDown(_) =>
                 Ends(w, w', false, j, w.records, [])
  {
    ThreeAttempts(behaviour, w.calls);
    hide Attempts, Settling, CB.Admit, Recorded;
  }

  /** A run that the breaker refuses puts the job back, RUNNING, and costs no dispatch. */
  lemma RefusedTold(w: World, c: CB.Config, behaviour: Behaviour, clock: Clock)
    requires w.queue != [] && w.queue[0] in w.jobs && !CB.Admit(w.breaker, c, clock.ask).1
    ensures var id, w' := w.queue[0], Apply(w, c, behaviour, RunOnce(clock));
            && w'.calls == w.calls
            && Ends(w, w', true, w.jobs[id].(status := Running,
                                             error := Some("circuit breaker 'dispatch' is open; fast-failing")),
                    w.records, [])
  {
    hide CB.Admit, Attempts;
  }

  /** A submission stores a queued job, puts it at the back of the queue and logs who made it. */
  lemma SubmitTold(w: World, c: CB.Config, behaviour: Behaviour, a: Action)
    requires a.Submit?
    ensures Apply(w, c, behaviour, a) ==
            w.(jobs := w.jobs[a.id := JobView(a.tenant, a.repoUrl, a.commitSha, Queued, None, None, None, None)],
               queue := w.queue + [a.id],
               audits := w.audits + [Entry(w.nextId, a.actor, "score.create", a.id, a.tenant, a.ts,
                                           map["repo_url" := a.repoUrl, "commit_sha" := a.commitSha])],
               nextId := w.nextId + 1)
  {
  }

  /** A job that is dispatched succeeds exactly when one of three dispatches returns and those before it
      raise DispatchErrors; when all three do, and only then, all three are made and the retries are
      exhausted. */
  lemma SucceedsWithinThree(w: World, c: CB.Config, behaviour: Behaviour, clock: Clock)
    requires Dispatches(w, c, clock)
    ensures var w', k := Apply(w, c, behaviour, RunOnce(clock)), w.calls;
            var first, second, third := behaviour(k), behaviour(k + 1), behaviour(k + 2);
            && w.queue[0] in w'.jobs
            && (w'.jobs[w.queue[0]].status == Succeeded <==>
                || first.Returned?
                || (RaisesDispatchError(first) && second.Returned?)
                || (RaisesDispatchError(first) && RaisesDispatchError(second) && third.Returned?))
            && (w'.calls == k + 3 <==> RaisesDispatchError(first) && RaisesDispatchError(second))
            && (RaisesDispatchError(first) && RaisesDispatchError(second) && RaisesDispatchError(third) <==>
                w'.calls == k + 3 && RaisesDispatchError(behaviour(w'.calls - 1)))
            && (w'.calls == k + 3 && RaisesDispatchError(behaviour(w'.calls - 1)) ==>
                w'.jobs[w.queue[0]].status == Failed
                && w'.jobs[w.queue[0]].error ==
                   Some("dispatch: 3 attempts exhausted, last error: " + third.exception.message))
  {
    RunOnceTold(w, c, behaviour, clock);
    hide Apply, CB.Admit;
  }

  // ---------------------------------------------------------------- what the log says

  /** The event is about a stored job, under that job's tenant, and says of it what is so. */
  ghost predicate Says(w: World, e: Entry) {
    && e.target in w.jobs
    && var j := w.jobs[e.target];
       && e.tenant == j.tenant
       && (e.action == "score.create" ==> e.payload == map["repo_url" := j.repoUrl, "commit_sha" := j.commitSha])
       && (e.action == "score.succeeded" ==>
             e.actor == "worker" && j.status == Succeeded && j.recordHash.Some?
             && e.payload == map["record_hash" := j.recordHash.value])
       && (e.action == "score.failed" ==>
             e.actor == "worker" && j.status == Failed && j.error.Some?
             && e.payload == map["reason" := "retry_exhausted", "error" := j.error.value])
  }

  ghost predicate LogTrue(w: World) {
    forall i :: 0 <= i < |w.audits| ==> Says(w, w.audits[i])
  }

  /** A job that is not terminal may change, all but what it was submitted with. */
  lemma StillSays(w: World, w': World, id: JobId, e: Entry)
    requires Says(w, e) && id in w'.jobs && w'.jobs == w.jobs[id := w'.jobs[id]]
    requires id in w.jobs ==>
               var j, j' := w.jobs[id], w'.jobs[id];
               !Terminal(j) && j'.tenant == j.tenant && j'.repoUrl == j.repoUrl && j'.commitSha == j.commitSha
    ensures Says(w', e)
  {
  }

  lemma LogGrows(w: World, w': World, id: JobId, logged: seq<Entry>)
    requires LogTrue(w) && w'.audits == w.audits + logged
    requires id in w'.jobs && w'.jobs == w.jobs[id := w'.jobs[id]]
    requires id in w.jobs ==>
               var j, j' := w.jobs[id], w'.jobs[id];
               !Terminal(j) && j'.tenant == j.tenant && j'.repoUrl == j.repoUrl && j'.commitSha == j.commitSha
    requires forall i :: 0 <= i < |logged| ==> Says(w', logged[i])
    ensures LogTrue(w')
  {
    hide Says;
    forall i | 0 <= i < |w'.audits| ensures Says(w', w'.audits[i]) {
      if i < |w.audits| {
        StillSays(w, w', id, w.audits[i]);
      } else {
        assert w'.audits[i] == logged[i - |w.audits|];
      }
    }
  }

  lemma RunKeepsLog(w: World, c: CB.Config, behaviour: Behaviour, clock: Clock)
    requires w.queue != [] && w.queue[0] in w.jobs && !Terminal(w.jobs[w.queue[0]]) && LogTrue(w)
    ensures LogTrue(Apply(w, c, behaviour, RunOnce(clock)))
  {
    if CB.Admit(w.breaker, c, clock.ask).1 {
      RunOnceTold(w, c, behaviour, clock);
    } else {
      RefusedTold(w, c, behaviour, clock);
    }
    hide LogTrue, CB.Admit, Apply, Settling;
    var w' := Apply(w, c, behaviour, RunOnce(clock));
    LogGrows(w, w', w.queue[0], w'.audits[|w.audits|..]);
  }

  lemma StepKeepsLog(w: World, c: CB.Config, behaviour: Behaviour, a: Action)
    requires QueueSound(w) && IsNew(w, a) && LogTrue(w)
    ensures LogTrue(Apply(w, c, behaviour, a))
  {
    hide LogTrue, CB.Admit, Process;
    var w' := Apply(w, c, behaviour, a);
    if a.Submit? {
      LogGrows(w, w', a.id, w'.audits[|w.audits|..]);
    } else if w.queue != [] {
      assert w.queue[0] in w.queue;
      RunKeepsLog(w, c, behaviour, a.clock);
    }
  }

  /** After every run each event of the log carries the tenant of its job and says of it what is so:
      what it was submitted with, the hash it succeeded with, or the error it failed with. */
  lemma {:induction false} LogIsTrue(c: CB.Config, behaviour: Behaviour, actions: seq<Action>)
    requires FreshIds(c, behaviour, actions)
    ensures LogTrue(After(c, behaviour, actions))
  {
    hide Apply, IsNew, QueueSound, LogTrue;
    if actions == [] {
      EmptyLog();
    } else {
      var k := |actions| - 1;
      FreshIdsPrefix(c, behaviour, actions, k);
      LogIsTrue(c, behaviour, actions[..k]);
      RunSettles(c, behaviour, actions[..k]);
      SettledQueueSound(After(c, behaviour, actions[..k]), Torn(c, behaviour, actions[..k]));
      StepKeepsLog(After(c, behaviour, actions[..k]), c, behaviour, actions[k]);
    }
  }

  lemma EmptyLog()
    ensures LogTrue(EMPTY)
  {
  }

  lemma SettledQueueSound(w: World, torn: set<JobId>)
    requires Settled(w, torn)
    ensures QueueSound(w)
  {
  }
}
