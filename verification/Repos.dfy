/** The in-memory queue and repositories, and the objects they hold. */
module Repos {
  import opened Wrappers
  import opened Timestamps

  type JobId = string

  datatype Status = Queued | Running | Succeeded | Failed

  /** What a job shows to readers of the store. */
  datatype JobView = JobView(
    tenant: string, repoUrl: string, commitSha: string, status: Status, recordHash: Option<string>,
    score: Option<string>, error: Option<string>, sidecars: Option<map<string, string>>)

  class Job {
    const id: JobId
    const tenant: string
    const repoUrl: string
    const commitSha: string
    var status: Status
    var recordHash: Option<string>
    var score: Option<string>
    var error: Option<string>
    var sidecars: Option<map<string, string>>

    constructor (id: JobId, tenant: string, repoUrl: string, commitSha: string)
      ensures this.id == id && Now() == Submitted(tenant, repoUrl, commitSha)
    {
      this.id, this.tenant, this.repoUrl, this.commitSha := id, tenant, repoUrl, commitSha;
      status, recordHash, score, error, sidecars := Queued, None, None, None, None;
    }

    function Now(): JobView
      reads this
    {
      JobView(tenant, repoUrl, commitSha, status, recordHash, score, error, sidecars)
    }

    method Fail(message: string)
      modifies this
      ensures Now() == old(Now()).(status := Failed, error := Some(message))
    {
      status := Failed;
      error := Some(message);
    }

    method Succeed(recordHash: string, score: string, sidecars: map<string, string>)
      modifies this
      ensures Now() == old(Now()).(status := Succeeded, recordHash := Some(recordHash), score := Some(score),
                                   sidecars := Some(sidecars), error := None)
    {
      status := Succeeded;
      this.recordHash := Some(recordHash);
      this.score := Some(score);
      this.sidecars := Some(sidecars);
      error := None;
    }
  }

  function Submitted(tenant: string, repoUrl: string, commitSha: string): JobView {
    JobView(tenant, repoUrl, commitSha, Queued, None, None, None, None)
  }

  datatype ScoreRecord = ScoreRecord(
    recordHash: string, commitSha: string, repoUrl: string, specHash: string, score: string,
    metrics: map<string, string>, toolDigests: map<string, string>, tenant: string)

  class InMemoryQueue {
    var items: seq<Job>

    constructor ()
      ensures items == []
    {
      items := [];
    }

    method Put(job: Job)
      modifies this
      ensures items == old(items) + [job]
    {
      items := items + [job];
    }

    /** None when the queue stays empty. */
    method Get() returns (job: Option<Job>)
      modifies this
      ensures old(items) == [] ==> job == None && items == []
      ensures old(items) != [] ==> job == Some(old(items)[0]) && items == old(items)[1..]
    {
      if items == [] { return None; }
      job := Some(items[0]);
      items := items[1..];
    }
  }

  class InMemoryJobRepo {
    var jobs: map<JobId, Job>

    constructor ()
      ensures jobs == map[]
    {
      jobs := map[];
    }

    method Create(job: Job)
      modifies this
      ensures jobs == old(jobs)[job.id := job]
    {
      jobs := jobs[job.id := job];
    }

    /** False stands for the KeyError an unknown job raises. */
    method Update(job: Job) returns (known: bool)
      modifies this
      ensures known <==> job.id in old(jobs)
      ensures jobs == if known then old(jobs)[job.id := job] else old(jobs)
    {
      if job.id !in jobs { return false; }
      jobs := jobs[job.id := job];
      return true;
    }
  }

  class InMemoryRecordRepo {
    var records: map<string, ScoreRecord>

    constructor ()
      ensures records == map[]
    {
      records := map[];
    }

    method Upsert(record: ScoreRecord)
      modifies this
      ensures records == old(records)[record.recordHash := record]
    {
      records := records[record.recordHash := record];
    }
  }

  // ---------------------------------------------------------------- audit events

  datatype Entry = Entry(
    id: nat, actor: string, action: string, target: string, tenant: string, ts: Timestamp, payload: map<string, string>)

  class AuditEvent {
    var id: nat
    const actor: string
    const action: string
    const target: string
    const tenant: string
    const ts: Timestamp
    const payload: map<string, string>

    constructor (actor: string, action: string, target: string, tenant: string, ts: Timestamp,
                 payload: map<string, string>)
      ensures Shown() == Entry(0, actor, action, target, tenant, ts, payload)
    {
      this.id, this.actor, this.action, this.target := 0, actor, action, target;
      this.tenant, this.ts, this.payload := tenant, ts, payload;
    }

    function Shown(): Entry
      reads this
    {
      Entry(id, actor, action, target, tenant, ts, payload)
    }
  }

  predicate Matches(e: Entry, tsIso: string, tenant: Option<string>) {
    !TextLess(IsoFormat(e.ts), tsIso) && (tenant.Some? ==> e.tenant == tenant.value)
  }

  /** The events not before a cutoff text, of one tenant if one is given, in their order. */
  function SinceOf(log: seq<Entry>, tsIso: string, tenant: Option<string>): seq<Entry> {
    if log == [] then []
    else
      var k := |log| - 1;
      SinceOf(log[..k], tsIso, tenant) + (if Matches(log[k], tsIso, tenant) then [log[k]] else [])
  }

  ghost predicate Increasing(log: seq<Entry>) {
    forall i, j :: 0 <= i < j < |log| ==> log[i].id < log[j].id
  }

  function Shows(events: seq<AuditEvent>): (log: seq<Entry>)
    reads events
    ensures |log| == |events| && forall i :: 0 <= i < |events| ==> log[i] == events[i].Shown()
  {
    if events == [] then [] else Shows(events[..|events| - 1]) + [events[|events| - 1].Shown()]
  }

  class InMemoryAuditRepo {
    var events: seq<AuditEvent>
    var nextId: nat

    function Log(): seq<Entry>
      reads this, events
    {
      Shows(events)
    }

    /** Identifiers increase, and the next one is larger than all of them. */
    ghost predicate Valid()
      reads this, events
    {
      Increasing(Log()) && forall i :: 0 <= i < |events| ==> events[i].id < nextId
    }

    constructor ()
      ensures Valid() && events == [] && nextId == 1
    {
      events, nextId := [], 1;
    }

    method Place(event: AuditEvent)
      modifies this, event
      ensures events == old(events) + [event] && nextId == old(nextId) + 1
      ensures event.Shown() == old(event.Shown()).(id := old(nextId))
    {
      event.id := nextId;
      nextId := nextId + 1;
      events := events + [event];
    }

    /** Numbers and appends an event.  Identifiers go on increasing exactly when the event is not in
        the list already: appending the same object again renumbers its earlier place too. */
    method Append(event: AuditEvent)
      requires Valid()
      modifies this, event
      ensures events == old(events) + [event] && nextId == old(nextId) + 1
      ensures event !in old(events) ==> Valid() && Log() == old(Log()) + [old(event.Shown()).(id := old(nextId))]
      ensures Increasing(Log()) <==> event !in old(events)
    {
      ghost var before, earlier := Log(), events;
      hide Shows, Increasing;
      Place(event);
      if event !in earlier {
        AppendedLog(before, earlier, event);
      } else {
        RepeatedEvent(earlier, event);
      }
    }

    method Since(tsIso: string, tenant: Option<string>) returns (found: seq<AuditEvent>)
      ensures Shows(found) == SinceOf(Log(), tsIso, tenant)
      ensures forall e :: e in found ==> e in events
    {
      hide TextLess, IsoFormat, Shows;
      found := [];
      ghost var log := Log();
      ShowsNone();
      for i := 0 to |events|
        invariant forall e :: e in found ==> e in events
        invariant Shows(found) == SinceOf(log[..i], tsIso, tenant)
      {
        var e := events[i];
        assert log[..i + 1][..i] == log[..i] && log[i] == e.Shown();
        ShowsAppend(found, e);
        if !TextLess(IsoFormat(e.ts), tsIso) && (tenant.Some? ==> e.tenant == tenant.value) {
          found := found + [e];
        }
      }
      assert log[..|events|] == log;
    }
  }

  lemma IdsOf(log: seq<Entry>, events: seq<AuditEvent>, bound: nat)
    requires log == Shows(events) && forall i :: 0 <= i < |events| ==> events[i].id < bound
    ensures forall i :: 0 <= i < |log| ==> log[i].id < bound
  {
  }

  lemma IncreasingAppend(log: seq<Entry>, e: Entry)
    requires Increasing(log) && forall i :: 0 <= i < |log| ==> log[i].id < e.id
    ensures Increasing(log + [e])
  {
  }

  lemma TwiceIsNotIncreasing(log: seq<Entry>, i: nat, j: nat)
    requires i < j < |log| && log[i].id == log[j].id
    ensures !Increasing(log)
  {
  }

  /** A new event with a larger identifier than all earlier ones. */
  lemma AppendedLog(before: seq<Entry>, earlier: seq<AuditEvent>, event: AuditEvent)
    requires Shows(earlier) == before && Increasing(before)
    requires forall i :: 0 <= i < |earlier| ==> earlier[i].id < event.id
    ensures Shows(earlier + [event]) == before + [event.Shown()] && Increasing(Shows(earlier + [event]))
    ensures forall i :: 0 <= i <= |earlier| ==> (earlier + [event])[i].id < event.id + 1
  {
    IdsOf(before, earlier, event.id);
    ShowsAppend(earlier, event);
    hide Shows, Increasing;
    IncreasingAppend(before, event.Shown());
  }

  /** The same object again, in two places with one identifier. */
  lemma RepeatedEvent(earlier: seq<AuditEvent>, event: AuditEvent)
    requires event in earlier
    ensures !Increasing(Shows(earlier + [event]))
  {
    hide Shows, Increasing;
    TwiceIsNotIncreasing(Shows(earlier + [event]), IndexOf(earlier, event), |earlier|);
  }

  lemma ShowsNone()
    ensures Shows([]) == []
  {
  }

  lemma ShowsAppend(events: seq<AuditEvent>, e: AuditEvent)
    ensures Shows(events + [e]) == Shows(events) + [e.Shown()]
  {
    assert (events + [e])[..|events|] == events;
  }

  function IndexOf<T(==)>(xs: seq<T>, x: T): (i: nat)
    requires x in xs
    ensures i < |xs| && xs[i] == x
  {
    if xs[0] == x then 0 else 1 + IndexOf(xs[1..], x)
  }

  // ---------------------------------------------------------------- what `since` returns

  lemma {:induction false} SinceMember(log: seq<Entry>, tsIso: string, tenant: Option<string>, e: Entry)
    ensures e in SinceOf(log, tsIso, tenant) <==>
            e in log && !TextLess(IsoFormat(e.ts), tsIso) && (tenant == None || tenant == Some(e.tenant))
  {
    hide TextLess, IsoFormat;
    if log != [] {
      var k := |log| - 1;
      SinceMember(log[..k], tsIso, tenant, e);
      assert log == log[..k] + [log[k]];
    }
  }

  lemma {:induction false} SinceIncreasing(log: seq<Entry>, tsIso: string, tenant: Option<string>)
    requires Increasing(log)
    ensures Increasing(SinceOf(log, tsIso, tenant))
  {
    hide Matches;
    if log != [] {
      var k := |log| - 1;
      SinceIncreasing(log[..k], tsIso, tenant);
      var before := SinceOf(log[..k], tsIso, tenant);
      forall i | 0 <= i < |before| ensures before[i].id < log[k].id {
        SinceMember(log[..k], tsIso, tenant, before[i]);
      }
    }
  }

  /** For a cutoff given as a timestamp's own text: exactly the tenant's events at or after that
      instant, with strictly increasing identifiers. */
  lemma SinceIsChronological(log: seq<Entry>, cut: Timestamp, tenant: Option<string>)
    requires Increasing(log) && Timestamps.Valid(cut) && forall i :: 0 <= i < |log| ==> Timestamps.Valid(log[i].ts)
    ensures Increasing(SinceOf(log, IsoFormat(cut), tenant))
    ensures forall e :: e in SinceOf(log, IsoFormat(cut), tenant) <==>
              e in log && Instant(e.ts) >= Instant(cut) && (tenant.Some? ==> e.tenant == tenant.value)
  {
    hide IsoFormat, Instant, TextLess, SinceOf, Timestamps.Valid;
    SinceIncreasing(log, IsoFormat(cut), tenant);
    forall e
      ensures e in SinceOf(log, IsoFormat(cut), tenant) <==>
              e in log && Instant(e.ts) >= Instant(cut) && (tenant.Some? ==> e.tenant == tenant.value)
    {
      SinceMember(log, IsoFormat(cut), tenant, e);
      if e in log {
        assert Timestamps.Valid(e.ts);
        IsoOrderIsTimeOrder(e.ts, cut);
      }
    }
  }

  /** For a cutoff written with Z: the events of the cutoff's own instant are missed, and where it has
      no fraction those of its whole second, however late in that second they are. */
  lemma SinceZuluMissesASecond(log: seq<Entry>, cut: Timestamp, tenant: Option<string>)
    requires Timestamps.Valid(cut) && forall i :: 0 <= i < |log| ==> Timestamps.Valid(log[i].ts)
    ensures forall e :: e in SinceOf(log, Zulu(cut), tenant) <==>
              e in log && Instant(e.ts) >= Instant(cut) + (if cut.micro == 0 then 1000000 else 1)
              && (tenant.Some? ==> e.tenant == tenant.value)
  {
    hide IsoFormat, Instant, TextLess, SinceOf, Timestamps.Valid, Zulu;
    forall e
      ensures e in SinceOf(log, Zulu(cut), tenant) <==>
              e in log && Instant(e.ts) >= Instant(cut) + (if cut.micro == 0 then 1000000 else 1)
              && (tenant.Some? ==> e.tenant == tenant.value)
    {
      SinceMember(log, Zulu(cut), tenant, e);
      if e in log {
        assert Timestamps.Valid(e.ts);
        ZuluCutoff(e.ts, cut);
      }
    }
  }
}
