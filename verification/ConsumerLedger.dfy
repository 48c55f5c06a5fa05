/** Accounts over all runs of the consumer: dispatches, breaker failures, audit events and records. */
module ConsumerLedger {
  import opened Wrappers
  import opened Timestamps
  import opened Repos
  import opened Retry
  import opened ConsumerRuns
  import CB = CircuitBreaker

  /** What has happened so far: what the breaker has seen, how many jobs were requeued because the
      dispatcher itself raised CircuitBreakerOpen, and which jobs failed in which of two ways. */
  datatype Ledger = Ledger(events: seq<CB.Event>, bounced: nat, exhausted: set<JobId>, unexpected: set<JobId>)

  /** What one step does, seen from outside. */
  datatype Deed = Nothing | Refused(id: JobId) | Dispatched(id: JobId, outcome: Outcome)

  function DeedOf(w: World, c: CB.Config, behaviour: Behaviour, a: Action): Deed {
    if a.Submit? || w.queue == [] || w.queue[0] !in w.jobs then Nothing
    else if !CB.Admit(w.breaker, c, a.clock.ask).1 then Refused(w.queue[0])
    else Dispatched(w.queue[0], Attempts(behaviour, w.calls, MAX_ATTEMPTS, MAX_ATTEMPTS).0)
  }

  predicate Succeeds(d: Deed) {
    d.Dispatched? && d.outcome.Returned?
  }

  /** The retries ran out (or, what never happens, a DispatchError came through). */
  predicate Exhausts(d: Deed) {
    d.Dispatched? && d.outcome.Raised? && (d.outcome.exception.RetryExhausted? || d.outcome.exception.DispatchError?)
  }

  predicate Breaks(d: Deed) {
    d.Dispatched? && d.outcome.Raised? && d.outcome.exception.Unexpected?
  }

  predicate Bounces(d: Deed) {
    d.Dispatched? && d.outcome.Raised? && d.outcome.exception.CircuitBreakerOpen?
  }

  /** What the breaker sees of a step. */
  function Told(d: Deed, clock: Clock): seq<CB.Event> {
    match d
    case Nothing => []
    case Refused(_) => [CB.Ask(clock.ask)]
    case Dispatched(_, o) => [CB.Ask(clock.ask), OutcomeEvent(o, clock)]
  }

  function OutcomeEvent(o: Outcome, clock: Clock): CB.Event {
    match o
    case Returned(_) => CB.Succeeded
    case Raised(_) => CB.Failed(clock.fail)
    case TornDown(_) => CB.TornDown
  }

  function Note(l: Ledger, d: Deed, a: Action): Ledger {
    Ledger(if a.RunOnce? then l.events + Told(d, a.clock) else l.events,
           if Bounces(d) then l.bounced + 1 else l.bounced,
           if Exhausts(d) then l.exhausted + {d.id} else l.exhausted,
           if Breaks(d) then l.unexpected + {d.id} else l.unexpected)
  }

  function History(c: CB.Config, behaviour: Behaviour, actions: seq<Action>): Ledger {
    if actions == [] then Ledger([], 0, {}, {})
    else
      var k := |actions| - 1;
      Note(History(c, behaviour, actions[..k]),
           DeedOf(After(c, behaviour, actions[..k]), c, behaviour, actions[k]), actions[k])
  }

  // ---------------------------------------------------------------- dispatches per job taken

  /** A job taken from the queue costs no dispatch exactly when the breaker refuses it, and otherwise
      between one and three; it goes back to the queue exactly when the breaker refused it or the
      last dispatch raised CircuitBreakerOpen itself; a DispatchError never reaches the consumer. */
  lemma DispatchesPerJob(w: World, c: CB.Config, behaviour: Behaviour, clock: Clock)
    requires QueueSound(w) && w.queue != []
    ensures w.queue[0] in w.jobs
    ensures var d, w' := DeedOf(w, c, behaviour, RunOnce(clock)), Apply(w, c, behaviour, RunOnce(clock));
            && !d.Nothing?
            && w.calls <= w'.calls <= w.calls + 3
            && (w'.calls == w.calls <==> d.Refused?)
            && (d.Dispatched? ==> !(d.outcome.Raised? && d.outcome.exception.DispatchError?))
            && (w.queue[0] in w'.queue <==>
                d.Refused? || (d.outcome.Raised? && d.outcome.exception.CircuitBreakerOpen?))
            && (w.queue[0] in w'.queue ==> w'.jobs[w.queue[0]].status == Running)
  {
    hide Attempts, CB.Admit, CB.Fail, CB.Succeed;
    AttemptsMeaning(behaviour, w.calls, MAX_ATTEMPTS, MAX_ATTEMPTS);
  }

  // ---------------------------------------------------------------- the accounts

  /** How many audit events report this action on this job. */
  function Reports(log: seq<Entry>, action: string, id: JobId): nat {
    if log == [] then 0
    else
      var k := |log| - 1;
      Reports(log[..k], action, id) + (if log[k].action == action && log[k].target == id then 1 else 0)
  }

  /** One success event for each succeeded job, one failure event for each exhausted one, numbered
      from one. */
  ghost predicate Balanced(log: seq<Entry>, nextId: nat, succeeded: set<JobId>, exhausted: set<JobId>) {
    && (forall id :: Reports(log, "score.succeeded", id) == if id in succeeded then 1 else 0)
    && (forall id :: Reports(log, "score.failed", id) == if id in exhausted then 1 else 0)
    && (forall i :: 0 <= i < |log| ==> log[i].id == i + 1)
    && nextId == |log| + 1
  }

  ghost predicate AuditsBalance(w: World, l: Ledger) {
    Balanced(w.audits, w.nextId, WithStatus(w, Succeeded), l.exhausted)
  }

  ghost predicate FailuresBalance(w: World, l: Ledger) {
    FailuresSplit(WithStatus(w, Failed), l)
  }

  ghost predicate BreakerTold(c: CB.Config, w: World, l: Ledger) {
    && CB.Possible(c, l.events)
    && CB.After(c, l.events) == CB.System(w.breaker, 0)
    && CB.OneAtATime(c, l.events)
  }

  /** The record under this hash is the one this succeeded job had written. */
  ghost predicate Owns(w: World, id: JobId, hash: string) {
    && id in w.jobs && w.jobs[id].status == Succeeded && w.jobs[id].recordHash == Some(hash)
    && hash in w.records
    && var j, record := w.jobs[id], w.records[hash];
       && record.recordHash == hash && record.tenant == j.tenant && record.repoUrl == j.repoUrl
       && record.commitSha == j.commitSha && Some(record.score) == j.score
  }

  /** Every succeeded job has a record under its hash, and every record is some succeeded job's. */
  ghost predicate RecordsStored(w: World) {
    && (forall id :: id in WithStatus(w, Succeeded) ==>
          w.jobs[id].recordHash.Some? && w.jobs[id].recordHash.value in w.records)
    && (forall hash :: hash in w.records ==> exists id :: Owns(w, id, hash))
  }

  // ---- audits

  lemma ReportsAppend(log: seq<Entry>, e: Entry, action: string, id: JobId)
    ensures Reports(log + [e], action, id) ==
            Reports(log, action, id) + (if e.action == action && e.target == id then 1 else 0)
  {
    assert (log + [e])[..|log|] == log;
  }

  /** What a step adds to the audit log. */
  function Audited(w: World, c: CB.Config, behaviour: Behaviour, a: Action): seq<(string, JobId)> {
    if a.Submit? then [("score.create", a.id)] else AuditedBy(DeedOf(w, c, behaviour, a))
  }

  function AuditedBy(d: Deed): seq<(string, JobId)> {
    if Succeeds(d) then [("score.succeeded", d.id)] else if Exhausts(d) then [("score.failed", d.id)] else []
  }

  /** The log has grown by these events, numbered on. */
  ghost predicate Grown(w: World, w': World, added: seq<(string, JobId)>) {
    && |added| <= 1 && w'.nextId == w.nextId + |added|
    && |w'.audits| == |w.audits| + |added| && w'.audits[..|w.audits|] == w.audits
    && (added != [] ==>
          var e := w'.audits[|w.audits|];
          e.id == w.nextId && e.action == added[0].0 && e.target == added[0].1)
  }

  lemma FinishAudits(w: World, id: JobId, o: Outcome, ts: Timestamp)
    requires id in w.jobs
    ensures Grown(w, Finish(w, id, o, ts), AuditedBy(Dispatched(id, o)))
  {
    hide RecordOf;
  }

  lemma StepAudits(w: World, c: CB.Config, behaviour: Behaviour, a: Action)
    ensures Grown(w, Apply(w, c, behaviour, a), Audited(w, c, behaviour, a))
  {
    if a.RunOnce? && w.queue != [] && w.queue[0] in w.jobs {
      var id := w.queue[0];
      var (b, admitted) := CB.Admit(w.breaker, c, a.clock.ask);
      if admitted {
        var (o, calls) := Attempts(behaviour, w.calls, MAX_ATTEMPTS, MAX_ATTEMPTS);
        var b' := Recorded(b, c, o, a.clock.fail);
        hide Attempts, CB.Admit, Recorded, Finish;
        FinishAudits(Started(Rest(w), id).(breaker := b', calls := calls), id, o, a.clock.audit);
      }
    }
  }

  function StatusAfter(d: Deed): Status
    requires !d.Nothing?
  {
    if d.Refused? then Running
    else if d.outcome.TornDown? then Running
    else if d.outcome.Returned? then Succeeded
    else if d.outcome.exception.CircuitBreakerOpen? then Running
    else Failed
  }

  lemma FinishJob(w: World, id: JobId, o: Outcome, ts: Timestamp)
    requires id in w.jobs && w.jobs[id].status == Running
    ensures var w' := Finish(w, id, o, ts);
            && id in w'.jobs && w'.jobs == w.jobs[id := w'.jobs[id]]
            && w'.jobs[id].status == StatusAfter(Dispatched(id, o))
  {
    hide RecordOf;
  }

  /** The one job a step changes, and the status it leaves it with. */
  lemma StepJob(w: World, c: CB.Config, behaviour: Behaviour, a: Action)
    ensures var w', d := Apply(w, c, behaviour, a), DeedOf(w, c, behaviour, a);
            && (a.Submit? ==>
                  a.id in w'.jobs && w'.jobs == w.jobs[a.id := w'.jobs[a.id]] && w'.jobs[a.id].status == Queued)
            && (!a.Submit? && d.Nothing? ==> w'.jobs == w.jobs)
            && (!d.Nothing? ==>
                  d.id in w.queue && d.id in w.jobs && d.id in w'.jobs
                  && w'.jobs == w.jobs[d.id := w'.jobs[d.id]] && w'.jobs[d.id].status == StatusAfter(d))
  {
    if a.RunOnce? && w.queue != [] && w.queue[0] in w.jobs {
      var id := w.queue[0];
      assert id in w.queue;
      var (b, admitted) := CB.Admit(w.breaker, c, a.clock.ask);
      if admitted {
        var (o, calls) := Attempts(behaviour, w.calls, MAX_ATTEMPTS, MAX_ATTEMPTS);
        var b' := Recorded(b, c, o, a.clock.fail);
        hide Attempts, CB.Admit, Recorded, Finish;
        FinishJob(Started(Rest(w), id).(breaker := b', calls := calls), id, o, a.clock.audit);
      }
    }
  }

  lemma StepKeepsTerminal(w: World, c: CB.Config, behaviour: Behaviour, a: Action, id: JobId)
    requires QueueSound(w) && IsNew(w, a) && id in w.jobs && Terminal(w.jobs[id])
    ensures id in Apply(w, c, behaviour, a).jobs && Apply(w, c, behaviour, a).jobs[id] == w.jobs[id]
  {
    hide Apply, DeedOf;
    StepJob(w, c, behaviour, a);
  }

  lemma StatusUpdate(w: World, w': World, id: JobId, status: Status)
    requires id in w'.jobs && w'.jobs == w.jobs[id := w'.jobs[id]]
    requires id in w.jobs ==> w.jobs[id].status != status
    ensures WithStatus(w', status) == WithStatus(w, status) + (if w'.jobs[id].status == status then {id} else {})
    ensures id !in WithStatus(w, status)
  {
  }

  /** The job a deed makes succeed or fail joins those that have. */
  ghost predicate Moved(w: World, w': World, d: Deed) {
    && WithStatus(w', Succeeded) == (if Succeeds(d) then WithStatus(w, Succeeded) + {d.id}
                                     else WithStatus(w, Succeeded))
    && WithStatus(w', Failed) == (if Exhausts(d) || Breaks(d) then WithStatus(w, Failed) + {d.id}
                                  else WithStatus(w, Failed))
    && (d.Dispatched? ==> d.id !in WithStatus(w, Succeeded) && d.id !in WithStatus(w, Failed))
  }

  /** Which jobs a step makes succeed or fail. */
  lemma StepStatus(w: World, c: CB.Config, behaviour: Behaviour, a: Action)
    requires QueueSound(w) && IsNew(w, a)
    ensures Moved(w, Apply(w, c, behaviour, a), DeedOf(w, c, behaviour, a))
  {
    hide Apply, DeedOf;
    StepJob(w, c, behaviour, a);
    DeedIsOfRun(w, c, behaviour, a);
    var w', d := Apply(w, c, behaviour, a), DeedOf(w, c, behaviour, a);
    if a.Submit? {
      StatusUpdate(w, w', a.id, Succeeded); StatusUpdate(w, w', a.id, Failed);
    } else if !d.Nothing? {
      StatusUpdate(w, w', d.id, Succeeded); StatusUpdate(w, w', d.id, Failed);
    }
  }

  lemma BalancedCreate(log: seq<Entry>, nextId: nat, succeeded: set<JobId>, exhausted: set<JobId>, e: Entry)
    requires Balanced(log, nextId, succeeded, exhausted) && e.id == nextId
    requires e.action == "score.create"
    ensures Balanced(log + [e], nextId + 1, succeeded, exhausted)
  {
    hide Reports;
    ActionsDiffer();
    forall id ensures Reports(log + [e], "score.succeeded", id) == Reports(log, "score.succeeded", id)
      ensures Reports(log + [e], "score.failed", id) == Reports(log, "score.failed", id)
    {
      ReportsAppend(log, e, "score.succeeded", id); ReportsAppend(log, e, "score.failed", id);
    }
  }

  lemma BalancedSuccess(log: seq<Entry>, nextId: nat, succeeded: set<JobId>, exhausted: set<JobId>, e: Entry)
    requires Balanced(log, nextId, succeeded, exhausted) && e.id == nextId
    requires e.action == "score.succeeded" && e.target !in succeeded
    ensures Balanced(log + [e], nextId + 1, succeeded + {e.target}, exhausted)
  {
    hide Reports;
    ActionsDiffer();
    forall id
      ensures Reports(log + [e], "score.succeeded", id) ==
              Reports(log, "score.succeeded", id) + (if id == e.target then 1 else 0)
      ensures Reports(log + [e], "score.failed", id) == Reports(log, "score.failed", id)
    {
      ReportsAppend(log, e, "score.succeeded", id); ReportsAppend(log, e, "score.failed", id);
    }
  }

  lemma BalancedFailure(log: seq<Entry>, nextId: nat, succeeded: set<JobId>, exhausted: set<JobId>, e: Entry)
    requires Balanced(log, nextId, succeeded, exhausted) && e.id == nextId
    requires e.action == "score.failed" && e.target !in exhausted
    ensures Balanced(log + [e], nextId + 1, succeeded, exhausted + {e.target})
  {
    hide Reports;
    ActionsDiffer();
    forall id ensures Reports(log + [e], "score.succeeded", id) == Reports(log, "score.succeeded", id)
      ensures Reports(log + [e], "score.failed", id) ==
              Reports(log, "score.failed", id) + (if id == e.target then 1 else 0)
    {
      ReportsAppend(log, e, "score.succeeded", id); ReportsAppend(log, e, "score.failed", id);
    }
  }

  /** How a step's additions are accounted for. */
  lemma GrownBalanced(w: World, w': World, d: Deed, succeeded: set<JobId>, exhausted: set<JobId>)
    requires Balanced(w.audits, w.nextId, succeeded, exhausted) && Grown(w, w', AuditedBy(d))
    requires d.Dispatched? ==> d.id !in succeeded && d.id !in exhausted
    ensures Balanced(w'.audits, w'.nextId, if Succeeds(d) then succeeded + {d.id} else succeeded,
                     if Exhausts(d) then exhausted + {d.id} else exhausted)
  {
    hide Balanced;
    if AuditedBy(d) == [] {
      assert w'.audits == w.audits;
    } else {
      var e := w'.audits[|w.audits|];
      assert w'.audits == w.audits + [e];
      if Succeeds(d) {
        BalancedSuccess(w.audits, w.nextId, succeeded, exhausted, e);
      } else {
        BalancedFailure(w.audits, w.nextId, succeeded, exhausted, e);
      }
    }
  }

  lemma StepKeepsAudits(w: World, l: Ledger, c: CB.Config, behaviour: Behaviour, a: Action)
    requires QueueSound(w) && IsNew(w, a) && AuditsBalance(w, l) && FailuresBalance(w, l)
    ensures AuditsBalance(Apply(w, c, behaviour, a), Note(l, DeedOf(w, c, behaviour, a), a))
  {
    hide Apply, DeedOf, QueueSound, IsNew, Moved, Grown, AuditsBalance, FailuresBalance, Note, AuditedBy;
    StepAudits(w, c, behaviour, a);
    StepStatus(w, c, behaviour, a);
    DeedIsOfRun(w, c, behaviour, a);
    AuditsFollow(w, Apply(w, c, behaviour, a), l, DeedOf(w, c, behaviour, a), a, Audited(w, c, behaviour, a));
  }

  lemma AuditsFollow(w: World, w': World, l: Ledger, d: Deed, a: Action, added: seq<(string, JobId)>)
    requires AuditsBalance(w, l) && FailuresBalance(w, l) && Moved(w, w', d) && Grown(w, w', added)
    requires added == if a.Submit? then [("score.create", a.id)] else AuditedBy(d)
    requires !d.Nothing? ==> a.RunOnce?
    ensures AuditsBalance(w', Note(l, d, a))
  {
    hide Balanced, WithStatus, CB.CountFailed, Told, AuditedBy;
    var succeeded := WithStatus(w, Succeeded);
    if a.Submit? {
      var e := w'.audits[|w.audits|];
      assert w'.audits == w.audits + [e];
      BalancedCreate(w.audits, w.nextId, succeeded, l.exhausted, e);
    } else {
      GrownBalanced(w, w', d, succeeded, l.exhausted);
    }
  }

  lemma ActionsDiffer()
    ensures "score.succeeded" != "score.failed" && "score.create" != "score.failed"
            && "score.create" != "score.succeeded"
  {
    assert |"score.succeeded"| == 15 && |"score.failed"| == 12 && |"score.create"| == 12;
    assert "score.failed"[6] == 'f' && "score.create"[6] == 'c';
  }

  lemma DeedIsOfRun(w: World, c: CB.Config, behaviour: Behaviour, a: Action)
    ensures !DeedOf(w, c, behaviour, a).Nothing? ==> a.RunOnce?
  {
  }

  // ---- failures

  lemma CountFailedAppend(es: seq<CB.Event>, e: CB.Event)
    ensures CB.CountFailed(es + [e]) == CB.CountFailed(es) + (if e.Failed? then 1 else 0)
  {
    assert (es + [e])[..|es|] == es;
  }

  lemma CountFailedTwo(es: seq<CB.Event>, d: CB.Event, e: CB.Event)
    ensures CB.CountFailed(es + [d, e]) ==
            CB.CountFailed(es) + (if d.Failed? then 1 else 0) + (if e.Failed? then 1 else 0)
  {
    assert es + [d, e] == (es + [d]) + [e];
    CountFailedAppend(es, d); CountFailedAppend(es + [d], e);
  }

  lemma ToldCounts(l: Ledger, d: Deed, a: Action)
    requires !d.Nothing? ==> a.RunOnce?
    ensures CB.CountFailed(Note(l, d, a).events) ==
            CB.CountFailed(l.events) + (if d.Dispatched? && d.outcome.Raised? then 1 else 0)
  {
    hide CB.CountFailed, Exhausts, Breaks, Bounces;
    match d
    case Nothing => assert l.events + [] == l.events;
    case Refused(_) => CountFailedAppend(l.events, CB.Ask(a.clock.ask));
    case Dispatched(_, o) =>
      CountFailedTwo(l.events, CB.Ask(a.clock.ask), OutcomeEvent(o, a.clock));
  }

  /** The failed jobs, told apart by how they failed. */
  ghost predicate FailuresSplit(failed: set<JobId>, l: Ledger) {
    && failed == l.exhausted + l.unexpected && l.exhausted !! l.unexpected
    && CB.CountFailed(l.events) == |failed| + l.bounced
  }

  lemma SplitStep(failed: set<JobId>, l: Ledger, d: Deed, a: Action)
    requires FailuresSplit(failed, l) && (!d.Nothing? ==> a.RunOnce?) && (d.Dispatched? ==> d.id !in failed)
    ensures FailuresSplit(if Exhausts(d) || Breaks(d) then failed + {d.id} else failed, Note(l, d, a))
  {
    hide CB.CountFailed, Told;
    ToldCounts(l, d, a);
  }

  lemma StepKeepsFailures(w: World, l: Ledger, c: CB.Config, behaviour: Behaviour, a: Action)
    requires QueueSound(w) && IsNew(w, a) && FailuresBalance(w, l)
    ensures FailuresBalance(Apply(w, c, behaviour, a), Note(l, DeedOf(w, c, behaviour, a), a))
  {
    hide *;
    StepStatus(w, c, behaviour, a);
    DeedIsOfRun(w, c, behaviour, a);
    FailuresFollow(w, Apply(w, c, behaviour, a), l, DeedOf(w, c, behaviour, a), a);
  }

  lemma FailuresFollow(w: World, w': World, l: Ledger, d: Deed, a: Action)
    requires FailuresBalance(w, l) && Moved(w, w', d) && (!d.Nothing? ==> a.RunOnce?)
    ensures FailuresBalance(w', Note(l, d, a))
  {
    hide FailuresSplit, WithStatus, Note, Exhausts, Breaks, Succeeds;
    SplitStep(WithStatus(w, Failed), l, d, a);
  }

  // ---- the breaker

  lemma StepBreaker(w: World, c: CB.Config, behaviour: Behaviour, a: Action)
    ensures var b', d := Apply(w, c, behaviour, a).breaker, DeedOf(w, c, behaviour, a);
            && (d.Nothing? ==> b' == w.breaker)
            && (d.Refused? ==> a.RunOnce? && CB.Admit(w.breaker, c, a.clock.ask) == (b', false))
            && (d.Dispatched? ==>
                  a.RunOnce? && CB.Admit(w.breaker, c, a.clock.ask).1
                  && b' == Recorded(CB.Admit(w.breaker, c, a.clock.ask).0, c, d.outcome, a.clock.fail))
  {
    hide Attempts, CB.Admit, CB.Fail, CB.Succeed, RecordOf;
  }

  lemma ExtendOneAtATime(c: CB.Config, es: seq<CB.Event>, e: CB.Event)
    requires CB.Possible(c, es) && CB.OneAtATime(c, es)
    requires if e.Ask? then CB.After(c, es).inFlight == 0 else CB.After(c, es).inFlight > 0
    ensures CB.Possible(c, es + [e]) && CB.OneAtATime(c, es + [e])
    ensures CB.After(c, es + [e]) == CB.Step(CB.After(c, es), c, e)
  {
    CB.Extend(c, es, e);
    assert (es + [e])[..|es|] == es;
  }

  lemma StepKeepsBreaker(w: World, l: Ledger, c: CB.Config, behaviour: Behaviour, a: Action)
    requires BreakerTold(c, w, l)
    ensures BreakerTold(c, Apply(w, c, behaviour, a), Note(l, DeedOf(w, c, behaviour, a), a))
  {
    StepBreaker(w, c, behaviour, a);
    var b', d := Apply(w, c, behaviour, a).breaker, DeedOf(w, c, behaviour, a);
    hide Apply, DeedOf, CB.Possible, CB.After, CB.OneAtATime, CB.Admit, CB.Fail, CB.Succeed, Exhausts, Breaks, Bounces;
    if d.Nothing? {
      assert l.events + [] == l.events;
    } else {
      var ask := CB.Ask(a.clock.ask);
      ExtendOneAtATime(c, l.events, ask);
      if d.Dispatched? {
        var e := OutcomeEvent(d.outcome, a.clock);
        ExtendOneAtATime(c, l.events + [ask], e);
        assert l.events + [ask, e] == (l.events + [ask]) + [e];
      }
    }
  }

  // ---- records

  /** A job that had not succeeded changes, and no record: the owners stay. */
  lemma OwnersStay(w: World, w': World, id: JobId)
    requires RecordsStored(w) && (id in w.jobs ==> w.jobs[id].status != Succeeded)
    requires w'.records == w.records && id in w'.jobs && w'.jobs == w.jobs[id := w'.jobs[id]]
    requires w'.jobs[id].status != Succeeded
    ensures RecordsStored(w')
  {
    forall hash | hash in w'.records ensures exists x :: Owns(w', x, hash) {
      var x :| Owns(w, x, hash);
      assert Owns(w', x, hash);
    }
  }

  lemma AcceptRecords(w: World, id: JobId, r: DispatchResult, ts: Timestamp)
    requires id in w.jobs && w.jobs[id].status != Succeeded && RecordsStored(w)
    ensures RecordsStored(Accept(w, id, r, ts))
  {
    var w' := Accept(w, id, r, ts);
    forall hash | hash in w'.records ensures exists x :: Owns(w', x, hash) {
      if hash == r.recordHash {
        assert Owns(w', id, hash);
      } else {
        var x :| Owns(w, x, hash);
        assert Owns(w', x, hash);
      }
    }
  }

  lemma FinishRecords(w: World, id: JobId, o: Outcome, ts: Timestamp)
    requires id in w.jobs && w.jobs[id].status == Running && RecordsStored(w)
    ensures RecordsStored(Finish(w, id, o, ts))
  {
    hide RecordsStored, RecordOf;
    if o.Returned? {
      AcceptRecords(w, id, o.result, ts);
    } else {
      OwnersStay(w, Finish(w, id, o, ts), id);
    }
  }

  lemma StepKeepsRecords(w: World, c: CB.Config, behaviour: Behaviour, a: Action)
    requires QueueSound(w) && IsNew(w, a) && RecordsStored(w)
    ensures RecordsStored(Apply(w, c, behaviour, a))
  {
    hide Attempts, CB.Admit, CB.Fail, CB.Succeed, Finish, RecordsStored;
    if a.Submit? {
      OwnersStay(w, Apply(w, c, behaviour, a), a.id);
    } else if w.queue == [] {
    } else {
      var id := w.queue[0];
      assert id in w.queue;
      var started := Started(Rest(w), id);
      OwnersStay(w, started, id);
      var (w', o) := Called(started, c, behaviour, a.clock);
      RecordsFrame(started, w');
      FinishRecords(w', id, o, a.clock.audit);
    }
  }

  lemma RecordsFrame(w: World, w': World)
    requires RecordsStored(w) && w'.records == w.records && w'.jobs == w.jobs
    ensures RecordsStored(w')
  {
    assert WithStatus(w', Succeeded) == WithStatus(w, Succeeded);
    forall hash | hash in w'.records ensures exists x :: Owns(w', x, hash) {
      var x :| Owns(w, x, hash);
      assert Owns(w', x, hash);
    }
  }

  // ---------------------------------------------------------------- over all runs

  ghost predicate Accounts(c: CB.Config, w: World, l: Ledger) {
    AuditsBalance(w, l) && FailuresBalance(w, l) && BreakerTold(c, w, l) && RecordsStored(w)
  }

  lemma StepKeepsAccounts(w: World, l: Ledger, c: CB.Config, behaviour: Behaviour, a: Action)
    requires Accounts(c, w, l) && QueueSound(w) && IsNew(w, a)
    ensures Accounts(c, Apply(w, c, behaviour, a), Note(l, DeedOf(w, c, behaviour, a), a))
  {
    hide Apply, Note, DeedOf, AuditsBalance, FailuresBalance, BreakerTold, RecordsStored, QueueSound, IsNew;
    StepKeepsAudits(w, l, c, behaviour, a);
    StepKeepsFailures(w, l, c, behaviour, a);
    StepKeepsBreaker(w, l, c, behaviour, a);
    StepKeepsRecords(w, c, behaviour, a);
  }

  lemma EmptyAccounts(c: CB.Config)
    ensures Accounts(c, EMPTY, Ledger([], 0, {}, {}))
  {
    assert WithStatus(EMPTY, Failed) == {} && WithStatus(EMPTY, Succeeded) == {};
  }

  lemma RunQueueSound(c: CB.Config, behaviour: Behaviour, actions: seq<Action>)
    requires FreshIds(c, behaviour, actions)
    ensures QueueSound(After(c, behaviour, actions))
  {
    RunSettles(c, behaviour, actions);
    hide After, Torn, FreshIds, QueueSound;
  }

  /** The accounts balance after every run: each succeeded job has exactly one score.succeeded event and
      a record under its hash, and every record is the work of a succeeded job; score.failed events are
      exactly those of the jobs whose retries were exhausted, and failing otherwise leaves none; the
      failures the breaker has counted are the failed jobs and the requeues the dispatcher itself caused;
      and the breaker has seen one complete call at a time. */
  lemma {:induction false} AccountsBalance(c: CB.Config, behaviour: Behaviour, actions: seq<Action>)
    requires FreshIds(c, behaviour, actions)
    ensures Accounts(c, After(c, behaviour, actions), History(c, behaviour, actions))
  {
    hide Apply, Note, DeedOf, Accounts, IsNew, QueueSound;
    if actions == [] {
      EmptyAccounts(c);
    } else {
      var k := |actions| - 1;
      FreshIdsPrefix(c, behaviour, actions, k);
      AccountsBalance(c, behaviour, actions[..k]);
      RunQueueSound(c, behaviour, actions[..k]);
      StepKeepsAccounts(After(c, behaviour, actions[..k]), History(c, behaviour, actions[..k]), c, behaviour,
                        actions[k]);
    }
  }

  /** A job that is terminal after some run is as it was after every continuation of that run. */
  lemma {:induction false} TerminalIsForGood(c: CB.Config, behaviour: Behaviour, actions: seq<Action>,
                                             more: seq<Action>, id: JobId)
    requires FreshIds(c, behaviour, actions + more)
    requires id in After(c, behaviour, actions).jobs && Terminal(After(c, behaviour, actions).jobs[id])
    ensures var w, w' := After(c, behaviour, actions), After(c, behaviour, actions + more);
            id in w'.jobs && w'.jobs[id] == w.jobs[id]
    decreases |more|
  {
    hide Apply, IsNew;
    if more == [] {
      assert actions + more == actions;
    } else {
      var k := |more| - 1;
      var all := actions + more;
      var n := |all| - 1;
      assert all[..n] == actions + more[..k] && all[n] == more[k];
      FreshIdsPrefix(c, behaviour, all, n);
      TerminalIsForGood(c, behaviour, actions, more[..k], id);
      RunQueueSound(c, behaviour, all[..n]);
      StepKeepsTerminal(After(c, behaviour, all[..n]), c, behaviour, all[n], id);
    }
  }

  ghost predicate NoneTornDown(es: seq<CB.Event>) {
    forall i :: 0 <= i < |es| ==> !es[i].TornDown?
  }

  lemma DeedTears(w: World, c: CB.Config, behaviour: Behaviour, a: Action)
    ensures var d := DeedOf(w, c, behaviour, a);
            TornBy(w, c, behaviour, a) == if d.Dispatched? && d.outcome.TornDown? then {d.id} else {}
  {
    hide CB.Admit, Attempts;
  }

  lemma {:induction false} NothingTornDown(c: CB.Config, behaviour: Behaviour, actions: seq<Action>)
    requires Torn(c, behaviour, actions) == {}
    ensures NoneTornDown(History(c, behaviour, actions).events)
  {
    hide DeedOf, TornBy, Apply, Bounces, Exhausts, Breaks;
    if actions != [] {
      var k := |actions| - 1;
      NothingTornDown(c, behaviour, actions[..k]);
      DeedTears(After(c, behaviour, actions[..k]), c, behaviour, actions[k]);
    }
  }

  /** Between steps the consumer's breaker is never half open, as long as no dispatch has been torn
      down. */
  lemma BreakerNeverHalfOpen(c: CB.Config, behaviour: Behaviour, actions: seq<Action>)
    requires c.threshold >= 1 && FreshIds(c, behaviour, actions) && Torn(c, behaviour, actions) == {}
    ensures !After(c, behaviour, actions).breaker.phase.HalfOpen?
  {
    hide AuditsBalance, FailuresBalance, RecordsStored, CB.Possible, CB.After, CB.OneAtATime, After, History, Torn;
    AccountsBalance(c, behaviour, actions);
    NothingTornDown(c, behaviour, actions);
    CB.HalfOpenUnseen(c, History(c, behaviour, actions).events);
  }

  /** Exactly: a dispatch leaves it half open when and only when half open admitted it and it was torn
      down. */
  lemma HalfOpenAfterDispatch(c: CB.Config, behaviour: Behaviour, actions: seq<Action>, clock: Clock)
    requires c.threshold >= 1 && FreshIds(c, behaviour, actions)
    requires DeedOf(After(c, behaviour, actions), c, behaviour, RunOnce(clock)).Dispatched?
    ensures var w := After(c, behaviour, actions);
            Apply(w, c, behaviour, RunOnce(clock)).breaker.phase.HalfOpen? <==>
              CB.Admit(w.breaker, c, clock.ask).0.phase.HalfOpen?
              && DeedOf(w, c, behaviour, RunOnce(clock)).outcome.TornDown?
  {
    hide AuditsBalance, FailuresBalance, RecordsStored, CB.Possible, CB.After, CB.OneAtATime, After, History, Apply,
      DeedOf;
    AccountsBalance(c, behaviour, actions);
    CB.PhaseIsCount(c, History(c, behaviour, actions).events);
    StepBreaker(After(c, behaviour, actions), c, behaviour, RunOnce(clock));
  }

  /** A dispatcher that never raises CircuitBreakerOpen itself. */
  ghost predicate NeverBounces(behaviour: Behaviour) {
    forall n :: !(behaviour(n).Raised? && behaviour(n).exception.CircuitBreakerOpen?)
  }

  /** With such a dispatcher the breaker's failures are exactly the failed jobs. */
  lemma FailuresAreFailedJobs(c: CB.Config, behaviour: Behaviour, actions: seq<Action>)
    requires FreshIds(c, behaviour, actions) && NeverBounces(behaviour)
    ensures CB.CountFailed(History(c, behaviour, actions).events) == |WithStatus(After(c, behaviour, actions), Failed)|
  {
    AccountsBalance(c, behaviour, actions);
    NoBounce(c, behaviour, actions);
  }

  /** With such a dispatcher a job goes back to the queue exactly when it cost no dispatch. */
  lemma RequeuedCostsNothing(w: World, c: CB.Config, behaviour: Behaviour, clock: Clock)
    requires QueueSound(w) && w.queue != [] && NeverBounces(behaviour)
    ensures var w' := Apply(w, c, behaviour, RunOnce(clock)); w.queue[0] in w'.queue <==> w'.calls == w.calls
  {
    hide Apply, Attempts, CB.Admit;
    DispatchesPerJob(w, c, behaviour, clock);
    AttemptsMeaning(behaviour, w.calls, MAX_ATTEMPTS, MAX_ATTEMPTS);
  }

  lemma {:induction false} NoBounce(c: CB.Config, behaviour: Behaviour, actions: seq<Action>)
    requires NeverBounces(behaviour)
    ensures History(c, behaviour, actions).bounced == 0
  {
    hide Attempts, CB.Admit;
    if actions != [] {
      var k := |actions| - 1;
      NoBounce(c, behaviour, actions[..k]);
      var w := After(c, behaviour, actions[..k]);
      AttemptsMeaning(behaviour, w.calls, MAX_ATTEMPTS, MAX_ATTEMPTS);
    }
  }
}
