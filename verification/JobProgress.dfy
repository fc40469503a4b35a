/** Progress of the queue under one worker at a time: what it uses up, and that every job ends. */
module JobProgress {
  import opened Optional
  import opened JobTable
  import opened JobQueue
  import opened JobProtocol
  import opened JobSafety

  predicate IsUnfinished(job: Job) {
    job.status == Pending || job.status == Running
  }

  function Remaining(job: Job): nat {
    if IsUnfinished(job) && job.attempts < Limit(job) then Limit(job) - job.attempts else 0
  }

  ghost function SumRemaining(t: Table, ids: set<string>): nat
    requires ids <= t.Keys
  {
    if ids == {} then 0
    else
      var id :| id in ids;
      Remaining(t[id]) + SumRemaining(t, ids - {id})
  }

  /** The attempts left over all unfinished jobs. */
  ghost function Work(t: Table): nat {
    SumRemaining(t, t.Keys)
  }

  lemma {:induction false} SumWithout(t: Table, ids: set<string>, id: string)
    requires ids <= t.Keys && id in ids
    ensures SumRemaining(t, ids) == Remaining(t[id]) + SumRemaining(t, ids - {id})
    decreases |ids|
  {
    var pick :| pick in ids && SumRemaining(t, ids) == Remaining(t[pick]) + SumRemaining(t, ids - {pick});
    if pick != id {
      SumWithout(t, ids - {pick}, id);
      SumWithout(t, ids - {id}, pick);
      assert ids - {pick} - {id} == ids - {id} - {pick};
    }
  }

  lemma {:induction false} SumUnchanged(t: Table, u: Table, ids: set<string>)
    requires ids <= t.Keys && ids <= u.Keys && forall id :: id in ids ==> t[id] == u[id]
    ensures SumRemaining(t, ids) == SumRemaining(u, ids)
    decreases |ids|
  {
    if ids != {} {
      var id :| id in ids;
      SumWithout(t, ids, id);
      SumWithout(u, ids, id);
      SumUnchanged(t, u, ids - {id});
    }
  }

  /** Every pending job has an attempt left; with no crashed worker, nothing is left running. */
  ghost predicate Workable(t: Table) {
    forall id :: id in t ==> t[id].status != Running && (t[id].status == Pending ==> t[id].attempts < Limit(t[id]))
  }

  lemma ProcessedOneJob(t: Table, id: string, handlers: Handlers, worker: string, now: int, later: int)
    requires Workable(t) && IsNext(t, id, now)
    ensures var u := Processed(t, id, handlers, worker, now, later);
            && Workable(u) && u.Keys == t.Keys
            && (forall k :: k in t && k != id ==> u[k] == t[k])
            && Remaining(u[id]) < Remaining(t[id])
  {
    OtherJobsStay(t, id, handlers, worker, now, later);
    ProcessedRow(t, id, handlers, worker, now, later);
  }

  lemma OtherJobsStay(t: Table, id: string, handlers: Handlers, worker: string, now: int, later: int)
    requires IsNext(t, id, now)
    ensures var u := Processed(t, id, handlers, worker, now, later);
            u.Keys == t.Keys && forall k :: k in t && k != id ==> u[k] == t[k]
  {
  }

  lemma ProcessedRow(t: Table, id: string, handlers: Handlers, worker: string, now: int, later: int)
    requires IsNext(t, id, now) && t[id].attempts < Limit(t[id])
    ensures var u := Processed(t, id, handlers, worker, now, later);
            && id in u && u[id].status != Running && (u[id].status == Pending ==> u[id].attempts < Limit(u[id]))
            && Remaining(u[id]) < Remaining(t[id])
  {
  }

  /** Each job a serial worker processes uses up at least one of the remaining attempts. */
  lemma ProcessingDecreasesWork(t: Table, id: string, handlers: Handlers, worker: string, now: int, later: int)
    requires Workable(t) && IsNext(t, id, now)
    ensures var u := Processed(t, id, handlers, worker, now, later);
            Workable(u) && Work(u) < Work(t)
  {
    var u := Processed(t, id, handlers, worker, now, later);
    ProcessedOneJob(t, id, handlers, worker, now, later);
    SumWithout(t, t.Keys, id);
    SumWithout(u, u.Keys, id);
    SumUnchanged(t, u, t.Keys - {id});
  }

  lemma {:induction false} NoWorkNothingPending(t: Table, ids: set<string>)
    requires Workable(t) && ids <= t.Keys
    ensures SumRemaining(t, ids) == 0 <==> forall id :: id in ids ==> !IsUnfinished(t[id])
    decreases |ids|
  {
    if ids != {} {
      var id :| id in ids;
      SumWithout(t, ids, id);
      NoWorkNothingPending(t, ids - {id});
    }
  }

  ghost predicate AllFinished(t: Table) {
    forall id :: id in t ==> !IsUnfinished(t[id])
  }

  /** The tables a serial worker goes through, one processed job after another. */
  ghost predicate IsSerialRun(ts: seq<Table>) {
    |ts| > 0 && forall i :: 0 <= i < |ts| - 1 ==> Follows(ts[i], ts[i + 1])
  }

  ghost predicate Follows(t: Table, u: Table) {
    exists id, handlers: Handlers, worker, now, later ::
      IsNext(t, id, now) && u == Processed(t, id, handlers, worker, now, later)
  }

  /** A serial worker processes at most as many jobs as there are attempts left, and when none is
      left every job has succeeded or was given up. */
  lemma {:induction false} SerialRunsEnd(ts: seq<Table>)
    requires IsSerialRun(ts) && Workable(ts[0])
    ensures |ts| - 1 + Work(ts[|ts| - 1]) <= Work(ts[0]) && Workable(ts[|ts| - 1])
    ensures Work(ts[|ts| - 1]) == 0 <==> AllFinished(ts[|ts| - 1])
    decreases |ts|
  {
    var n := |ts| - 1;
    if n > 0 {
      SerialPrefix(ts);
      SerialRunsEnd(ts[..n]);
      assert Follows(ts[n - 1], ts[n - 1 + 1]);
      FollowingDecreasesWork(ts[n - 1], ts[n]);
    }
    NoWorkNothingPending(ts[n], ts[n].Keys);
  }

  lemma FollowingDecreasesWork(t: Table, u: Table)
    requires Workable(t) && Follows(t, u)
    ensures Workable(u) && Work(u) < Work(t)
  {
    var id, handlers: Handlers, worker, now, later :|
      IsNext(t, id, now) && u == Processed(t, id, handlers, worker, now, later);
    ProcessingDecreasesWork(t, id, handlers, worker, now, later);
  }

  /** The claim query finds a job. */
  ghost predicate HasNext(t: Table, now: int) {
    exists k :: IsNext(t, k, now)
  }

  /** While a workable table holds an unfinished job there is a time from which a worker that looks for a
      job finds one. */
  lemma SomeJobFallsDue(t: Table, id: string) returns (since: int)
    requires Workable(t) && id in t && IsUnfinished(t[id])
    ensures forall now :: now >= since ==> HasNext(t, now)
  {
    since := t[id].runAfter;
    forall now | now >= since
      ensures HasNext(t, now)
    {
      var k := SomeDueIsNext(t, t.Keys, id, now);
      assert IsNext(t, k, now);
    }
  }

  ghost predicate CanGoOn(t: Table) {
    exists u :: Follows(t, u)
  }

  /** A serial worker can process another job, sooner or later, exactly while one is unfinished. */
  lemma GoesOnIffUnfinished(t: Table)
    requires Workable(t)
    ensures CanGoOn(t) <==> !AllFinished(t)
  {
    if !AllFinished(t) {
      var id :| id in t && IsUnfinished(t[id]);
      var since := SomeJobFallsDue(t, id);
      assert HasNext(t, since);
      var k :| IsNext(t, k, since);
      var handlers: Handlers := map[];
      assert Follows(t, Processed(t, k, handlers, "w", since, since));
    }
  }

  /** An unfinished job stays unfinished, succeeds or is dead-lettered; a finished one stays as it is. */
  ghost predicate Settles(t: Table, u: Table) {
    forall id :: id in t ==> id in u && if IsUnfinished(t[id]) then IsUnfinished(u[id]) || IsTerminal(u[id]) else u[id] == t[id]
  }

  lemma ProcessingSettles(t: Table, u: Table)
    requires Workable(t) && Follows(t, u)
    ensures Settles(t, u)
  {
    var id, handlers: Handlers, worker, now, later :|
      IsNext(t, id, now) && u == Processed(t, id, handlers, worker, now, later);
    ProcessedOneJob(t, id, handlers, worker, now, later);
    ProcessedStatus(t, id, handlers, worker, now, later);
  }

  lemma ProcessedStatus(t: Table, id: string, handlers: Handlers, worker: string, now: int, later: int)
    requires Workable(t) && IsNext(t, id, now)
    ensures var u := Processed(t, id, handlers, worker, now, later);
            id in u && (u[id].status == Pending || IsTerminal(u[id]))
  {
  }

  lemma {:induction false} SerialRunsSettle(ts: seq<Table>)
    requires IsSerialRun(ts) && Workable(ts[0])
    ensures Settles(ts[0], ts[|ts| - 1]) && Workable(ts[|ts| - 1])
    decreases |ts|
  {
    var n := |ts| - 1;
    if n > 0 {
      SerialPrefix(ts);
      SerialRunsSettle(ts[..n]);
      assert Follows(ts[n - 1], ts[n - 1 + 1]);
      ProcessingSettles(ts[n - 1], ts[n]);
      FollowingDecreasesWork(ts[n - 1], ts[n]);
    }
  }

  lemma SerialPrefix(ts: seq<Table>)
    requires IsSerialRun(ts) && |ts| > 1
    ensures IsSerialRun(ts[..|ts| - 1])
  {
    var init := ts[..|ts| - 1];
    forall i | 0 <= i < |init| - 1
      ensures Follows(init[i], init[i + 1])
    {
      assert Follows(ts[i], ts[i + 1]);
    }
  }

  /** A serial worker that goes on as long as there is a job for it gets there within as many jobs as
      there are attempts, and then every job that was unfinished has succeeded or is dead-lettered. */
  lemma AllJobsEnd(ts: seq<Table>)
    requires IsSerialRun(ts) && Workable(ts[0]) && !CanGoOn(ts[|ts| - 1])
    ensures |ts| - 1 <= Work(ts[0])
    ensures forall id :: id in ts[0] ==>
              id in ts[|ts| - 1] && if IsUnfinished(ts[0][id]) then IsTerminal(ts[|ts| - 1][id]) else ts[|ts| - 1][id] == ts[0][id]
  {
    SerialRunsEnd(ts);
    SerialRunsSettle(ts);
    GoesOnIffUnfinished(ts[|ts| - 1]);
  }
}
