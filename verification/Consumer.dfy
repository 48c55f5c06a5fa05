/** The job consumer as an object over its queue, stores, breaker and dispatcher, refining the steps of
    ConsumerRuns. */
module Consumer {
  import opened Wrappers
  import opened Timestamps
  import opened Repos
  import opened Retry
  import opened ConsumerRuns
  import CB = CircuitBreaker

  function Ids(items: seq<Job>): seq<JobId>
  {
    seq(|items|, i requires 0 <= i < |items| => items[i].id)
  }

  function Views(jobs: map<JobId, Job>): map<JobId, JobView>
    reads jobs.Values
  {
    map id | id in jobs :: jobs[id].Now()
  }

  /** Each job is stored under its own identifier. */
  ghost predicate Filed(jobs: map<JobId, Job>) {
    forall id :: id in jobs ==> jobs[id].id == id
  }

  /** The job object is the one the store holds under its identifier, if it holds one. */
  ghost predicate IsStored(jobs: map<JobId, Job>, job: Job) {
    job.id in jobs ==> jobs[job.id] == job
  }

  /** Queue and store share their job objects. */
  ghost predicate Shared(items: seq<Job>, jobs: map<JobId, Job>) {
    Filed(jobs) && forall i :: 0 <= i < |items| ==> IsStored(jobs, items[i])
  }

  lemma SharedPut(items: seq<Job>, jobs: map<JobId, Job>, job: Job)
    requires Shared(items, jobs) && IsStored(jobs, job)
    ensures Shared(items + [job], jobs) && Ids(items + [job]) == Ids(items) + [job.id]
  {
  }

  lemma FiledWhenShared(items: seq<Job>, jobs: map<JobId, Job>)
    requires Shared(items, jobs)
    ensures Filed(jobs)
  {
  }

  lemma Alone(jobs: map<JobId, Job>, job: Job)
    requires Filed(jobs)
    ensures forall id :: id in jobs && id != job.id ==> jobs[id] != job
  {
    forall id | id in jobs && id != job.id ensures jobs[id] != job { assert jobs[id].id == id; }
  }

  lemma ViewsAt(jobs: map<JobId, Job>)
    ensures Views(jobs).Keys == jobs.Keys && forall id :: id in jobs ==> Views(jobs)[id] == jobs[id].Now()
  {
  }

  /** One job has changed. */
  lemma ViewsUpdated(jobs: map<JobId, Job>, job: Job, before: map<JobId, JobView>)
    requires before.Keys == jobs.Keys && job.id in jobs && jobs[job.id] == job
    requires forall id :: id in jobs && id != job.id ==> jobs[id].Now() == before[id]
    ensures Views(jobs) == before[job.id := job.Now()]
  {
  }

  lemma ViewsSame(jobs: map<JobId, Job>, before: map<JobId, JobView>)
    requires before.Keys == jobs.Keys && forall id :: id in jobs ==> jobs[id].Now() == before[id]
    ensures Views(jobs) == before
  {
  }

  /** A job is marked failed and saved. */
  method SaveFailed(jobs: InMemoryJobRepo, job: Job, message: string)
    requires Filed(jobs.jobs) && job.id in jobs.jobs && jobs.jobs[job.id] == job
    modifies jobs, job
    ensures jobs.jobs == old(jobs.jobs)
    ensures var views := old(Views(jobs.jobs));
            && job.id in views
            && Views(jobs.jobs) == views[job.id := views[job.id].(status := Failed, error := Some(message))]
  {
    hide Filed, Views;
    Alone(jobs.jobs, job);
    ViewsAt(jobs.jobs);
    job.Fail(message);
    var _ := jobs.Update(job);
    assert jobs.jobs == old(jobs.jobs);
    ViewsUpdated(jobs.jobs, job, old(Views(jobs.jobs)));
  }

  /** A job gets its results and is saved. */
  method SaveSucceeded(jobs: InMemoryJobRepo, job: Job, r: DispatchResult)
    requires Filed(jobs.jobs) && job.id in jobs.jobs && jobs.jobs[job.id] == job
    modifies jobs, job
    ensures jobs.jobs == old(jobs.jobs)
    ensures var views := old(Views(jobs.jobs));
            && job.id in views
            && Views(jobs.jobs) ==
               views[job.id := views[job.id].(status := Succeeded, recordHash := Some(r.recordHash),
                                              score := Some(r.score), sidecars := Some(r.sidecars), error := None)]
  {
    hide Filed, Views;
    Alone(jobs.jobs, job);
    ViewsAt(jobs.jobs);
    job.Succeed(r.recordHash, r.score, r.sidecars);
    var _ := jobs.Update(job);
    assert jobs.jobs == old(jobs.jobs);
    ViewsUpdated(jobs.jobs, job, old(Views(jobs.jobs)));
  }

  /** A job gets an error and is saved, with the status it has. */
  method SaveError(jobs: InMemoryJobRepo, job: Job, message: string)
    requires Filed(jobs.jobs) && job.id in jobs.jobs && jobs.jobs[job.id] == job
    modifies jobs, job
    ensures jobs.jobs == old(jobs.jobs)
    ensures var views := old(Views(jobs.jobs));
            job.id in views && Views(jobs.jobs) == views[job.id := views[job.id].(error := Some(message))]
  {
    hide Filed, Views;
    Alone(jobs.jobs, job);
    ViewsAt(jobs.jobs);
    job.error := Some(message);
    var _ := jobs.Update(job);
    assert jobs.jobs == old(jobs.jobs);
    ViewsUpdated(jobs.jobs, job, old(Views(jobs.jobs)));
  }

  /** What a dispatch lets escape past the breaker, the retries and the consumer's handlers. */
  function Escaping(o: Outcome): Option<string> {
    if o.TornDown? then Some(o.cause) else None
  }

  lemma TornWhen(w: World, c: CB.Config, behaviour: Behaviour, clock: Clock)
    ensures TornBy(w, c, behaviour, ConsumerRuns.RunOnce(clock)) != {} <==>
            w.queue != [] && w.queue[0] in w.jobs
            && Escaping(Called(Started(Rest(w), w.queue[0]), c, behaviour, clock).1).Some?
  {
    hide CB.Admit, Attempts;
  }

  class JobConsumer {
    const source: InMemoryQueue
    const dispatcher: Dispatcher
    const jobs: InMemoryJobRepo
    const records: InMemoryRecordRepo
    const audits: InMemoryAuditRepo
    const dispatchCb: CB.CircuitBreaker

    constructor (source: InMemoryQueue, dispatcher: Dispatcher, jobs: InMemoryJobRepo, records: InMemoryRecordRepo,
                 audits: InMemoryAuditRepo, breaker: Option<CB.CircuitBreaker>)
      ensures this.source == source && this.dispatcher == dispatcher && this.jobs == jobs
      ensures this.records == records && this.audits == audits
      ensures match breaker
              case Some(b) => dispatchCb == b
              case None =>
                fresh(dispatchCb) && dispatchCb.config == CB.Config(5, 30.0) && dispatchCb.Now() == CB.INITIAL
    {
      this.source, this.dispatcher, this.jobs, this.records, this.audits := source, dispatcher, jobs, records, audits;
      if breaker.Some? {
        dispatchCb := breaker.value;
      } else {
        dispatchCb := new CB.CircuitBreaker(CB.Config(5, 30.0));
      }
    }

    ghost predicate Valid()
      reads source, jobs, audits, audits.events
    {
      audits.Valid() && Shared(source.items, jobs.jobs)
    }

    ghost function State(): World
      reads source, dispatcher, jobs, jobs.jobs.Values, records, audits, audits.events, dispatchCb
    {
      World(Ids(source.items), Views(jobs.jobs), records.records, audits.Log(), audits.nextId, dispatchCb.Now(),
            dispatcher.calls)
    }

    /** The job is stored, and no other is stored under its identifier. */
    ghost predicate Holds(job: Job)
      reads jobs
    {
      job.id in jobs.jobs && jobs.jobs[job.id] == job
    }

    /** Appends an event about the job. */
    method Report(job: Job, actor: string, action: string, payload: map<string, string>, ts: Timestamp)
      requires Valid() && Holds(job)
      modifies audits
      ensures Valid() && Holds(job)
      ensures State() == Audit(old(State()), actor, action, job.id, payload, ts)
    {
      hide Shared, Ids, InMemoryAuditRepo.Valid, InMemoryAuditRepo.Log;
      var event := new AuditEvent(actor, action, job.id, job.tenant, ts, payload);
      audits.Append(event);
    }

    /** False when the store does not know the job: the KeyError leaves everything as it was. */
    method MarkRunning(job: Job) returns (known: bool)
      requires Valid() && IsStored(jobs.jobs, job)
      modifies job, jobs
      ensures Valid() && known == (job.id in old(State()).jobs) && (known ==> Holds(job))
      ensures State() == if known then Started(old(State()), job.id) else old(State())
    {
      hide Shared, Filed, Ids, Views, InMemoryAuditRepo.Valid, InMemoryAuditRepo.Log;
      FiledWhenShared(source.items, jobs.jobs);
      Alone(jobs.jobs, job);
      ViewsAt(jobs.jobs);
      job.status := Running;
      known := jobs.Update(job);
      assert jobs.jobs == old(jobs.jobs);
      if known {
        ViewsUpdated(jobs.jobs, job, old(Views(jobs.jobs)));
      } else {
        ViewsSame(jobs.jobs, old(Views(jobs.jobs)));
      }
    }

    method Requeue(job: Job, message: string)
      requires Valid() && Holds(job)
      modifies job, jobs, source
      ensures Valid()
      ensures State() == ConsumerRuns.Requeue(old(State()), job.id, message)
    {
      hide Shared, Filed, Ids, Views, InMemoryAuditRepo.Valid, InMemoryAuditRepo.Log;
      FiledWhenShared(source.items, jobs.jobs);
      SharedPut(source.items, jobs.jobs, job);
      SaveError(jobs, job, message);
      source.Put(job);
    }

    method Reject(job: Job, message: string)
      requires Valid() && Holds(job)
      modifies job, jobs
      ensures Valid() && Holds(job)
      ensures State() == ConsumerRuns.Reject(old(State()), job.id, message)
    {
      hide Shared, Filed, Ids, Views, InMemoryAuditRepo.Valid, InMemoryAuditRepo.Log;
      FiledWhenShared(source.items, jobs.jobs);
      SaveFailed(jobs, job, message);
    }

    method StoreRecord(job: Job, r: DispatchResult)
      requires Valid() && Holds(job)
      modifies records
      ensures Valid() && Holds(job)
      ensures State() == Stored(old(State()), job.id, r)
    {
      hide Shared, Ids, InMemoryAuditRepo.Valid, InMemoryAuditRepo.Log;
      records.Upsert(ScoreRecord(r.recordHash, job.commitSha, job.repoUrl, r.specHash, r.score, r.metrics,
                                 r.toolDigests, job.tenant));
    }

    method Complete(job: Job, r: DispatchResult)
      requires Valid() && Holds(job)
      modifies job, jobs
      ensures Valid() && Holds(job)
      ensures State() == Completed(old(State()), job.id, r)
    {
      hide Shared, Filed, Ids, Views, InMemoryAuditRepo.Valid, InMemoryAuditRepo.Log;
      FiledWhenShared(source.items, jobs.jobs);
      SaveSucceeded(jobs, job, r);
    }

    /** The dispatch, through the breaker and with retries, a second before the second attempt and two
        before the third; a refusal comes out as the exception the breaker raises. */
    method Dispatch(clock: Clock) returns (o: Outcome, slept: seq<real>)
      requires Valid()
      modifies dispatchCb, dispatcher
      ensures Valid()
      ensures dispatcher.calls == old(dispatcher.calls) ==> slept == []
      ensures dispatcher.calls == old(dispatcher.calls) + 1 ==> slept == []
      ensures dispatcher.calls == old(dispatcher.calls) + 2 ==> slept == [1.0]
      ensures dispatcher.calls == old(dispatcher.calls) + 3 ==> slept == [1.0, 2.0]
      ensures (State(), o) == Called(old(State()), dispatchCb.config, dispatcher.behaviour, clock)
    {
      hide CB.Admit, CB.Fail, CB.Succeed, Attempts, Delay, Shared, Ids, Views, InMemoryAuditRepo.Valid,
        InMemoryAuditRepo.Log;
      var admitted := dispatchCb.Enter(clock.ask);
      if !admitted {
        return Raised(CircuitBreakerOpen(OPEN_MESSAGE)), [];
      }
      DelaysDouble(1.0, 4.0, 1);
      AttemptsMeaning(dispatcher.behaviour, dispatcher.calls, 3, 3);
      o, slept := RetryOnTransientError(dispatcher, 3, 1.0, 4.0);
      match o
      case Raised(_) => dispatchCb.RecordFailure(clock.fail);
      case Returned(_) => dispatchCb.RecordSuccess();
      case TornDown(_) =>
    }

    /** Whatever tears the dispatch down escapes, past every handler; so does the KeyError for a job the
        store does not know. */
    method Process(job: Job, clock: Clock) returns (known: bool, escaped: Option<string>)
      requires Valid() && IsStored(jobs.jobs, job)
      modifies job, source, dispatcher, jobs, records, audits, dispatchCb
      ensures Valid() && known == (job.id in old(State()).jobs)
      ensures escaped == if !known then None else
                var w := Started(old(State()), job.id);
                Escaping(Called(w, dispatchCb.config, dispatcher.behaviour, clock).1)
      ensures State() == if !known then old(State()) else
                ConsumerRuns.Process(old(State()), dispatchCb.config, dispatcher.behaviour, job.id, clock)
    {
      hide State, Valid, Holds, Audit, RecordOf, ConsumerRuns.Requeue, ConsumerRuns.Reject, Stored, Completed, Called,
        Started;
      escaped := None;
      known := MarkRunning(job);
      if !known { return; }
      var o, _ := Dispatch(clock);
      match o
      case Returned(r) =>
        StoreRecord(job, r);
        Complete(job, r);
        Report(job, "worker", "score.succeeded", map["record_hash" := r.recordHash], clock.audit);
      case Raised(CircuitBreakerOpen(message)) =>
        Requeue(job, message);
      case Raised(RetryExhausted(message)) =>
        Reject(job, message);
        Report(job, "worker", "score.failed", map["reason" := "retry_exhausted", "error" := message], clock.audit);
      case Raised(DispatchError(message)) =>
        Reject(job, message);
        Report(job, "worker", "score.failed", map["reason" := "dispatch", "error" := message], clock.audit);
      case Raised(Unexpected(shown)) =>
        Reject(job, "unexpected: " + shown);
      case TornDown(cause) =>
        escaped := Some(cause);
    }

    /** Processes at most one job, refining the step that ConsumerRuns reasons about. */
    method RunOnce(clock: Clock) returns (taken: Option<Job>, escaped: Option<string>)
      requires Valid()
      modifies source, source.items, dispatcher, jobs, records, audits, dispatchCb
      ensures Valid()
      ensures State() == Apply(old(State()), dispatchCb.config, dispatcher.behaviour, ConsumerRuns.RunOnce(clock))
      ensures taken == if old(source.items) == [] then None else Some(old(source.items)[0])
      ensures escaped.Some? <==>
              TornBy(old(State()), dispatchCb.config, dispatcher.behaviour, ConsumerRuns.RunOnce(clock)) != {}
    {
      hide State, Valid, ConsumerRuns.Process, Called, Started, TornBy;
      ghost var before := State();
      escaped := None;
      taken := Take();
      TornWhen(before, dispatchCb.config, dispatcher.behaviour, clock);
      if taken.None? { return; }
      var known;
      known, escaped := Process(taken.value, clock);
    }

    method Take() returns (taken: Option<Job>)
      requires Valid()
      modifies source
      ensures Valid()
      ensures taken == if old(source.items) == [] then None else Some(old(source.items)[0])
      ensures taken.Some? ==> IsStored(jobs.jobs, taken.value)
      ensures taken.Some? ==> old(State()).queue != [] && old(State()).queue[0] == taken.value.id
      ensures State() == if taken.None? then old(State()) else Rest(old(State()))
      ensures taken.None? ==> old(State()).queue == []
    {
      hide Views, InMemoryAuditRepo.Valid, InMemoryAuditRepo.Log;
      taken := source.Get();
      if taken.Some? {
        assert Ids(source.items) == old(Ids(source.items))[1..];
      }
    }
  }

  // ---------------------------------------------------------------- submission, into the same stores

  method Create(consumer: JobConsumer, job: Job)
    requires consumer.Valid() && job.id !in consumer.jobs.jobs
    requires forall i :: 0 <= i < |consumer.source.items| ==> consumer.source.items[i].id != job.id
    modifies consumer.jobs
    ensures consumer.Valid() && consumer.Holds(job)
    ensures var w := old(consumer.State()); consumer.State() == w.(jobs := w.jobs[job.id := job.Now()])
  {
    hide Ids, Views, InMemoryAuditRepo.Valid, InMemoryAuditRepo.Log;
    ghost var before := Views(consumer.jobs.jobs);
    ViewsAt(consumer.jobs.jobs);
    consumer.jobs.Create(job);
    ViewsUpdated(consumer.jobs.jobs, job, before[job.id := job.Now()]);
  }

  method Enqueue(consumer: JobConsumer, job: Job)
    requires consumer.Valid() && consumer.Holds(job)
    modifies consumer.source
    ensures consumer.Valid()
    ensures var w := old(consumer.State()); consumer.State() == w.(queue := w.queue + [job.id])
  {
    hide Ids, Views, Shared, InMemoryAuditRepo.Valid, InMemoryAuditRepo.Log;
    SharedPut(consumer.source.items, consumer.jobs.jobs, job);
    consumer.source.Put(job);
  }

  /** A job is created, reported and put on the queue. */
  method Submit(consumer: JobConsumer, id: JobId, tenant: string, repoUrl: string, commitSha: string, actor: string,
                ts: Timestamp) returns (job: Job)
    requires consumer.Valid() && id !in consumer.jobs.jobs
    requires forall i :: 0 <= i < |consumer.source.items| ==> consumer.source.items[i].id != id
    modifies consumer.source, consumer.jobs, consumer.audits
    ensures consumer.Valid()
    ensures forall c, behaviour ::
              consumer.State()
              == Apply(old(consumer.State()), c, behaviour, Action.Submit(id, tenant, repoUrl, commitSha, actor, ts))
  {
    hide JobConsumer.State, JobConsumer.Valid, JobConsumer.Holds;
    job := new Job(id, tenant, repoUrl, commitSha);
    Create(consumer, job);
    consumer.Report(job, actor, "score.create", map["repo_url" := repoUrl, "commit_sha" := commitSha], ts);
    Enqueue(consumer, job);
  }
}
