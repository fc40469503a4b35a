/** Any number of workers running the claim, run, fail protocol at once, with reclaims and requeues.
    Every SELECT and every UPDATE is an event of its own. */
module JobProtocol {
  import opened JobTable

  /** Where a live worker is: between the claim query and the claim; running a handler; done with a
      handler that dead-lettered its own job; or past the read that starts the failure path. */
  datatype Worker =
    | Selected(job: string)
    | Holding(job: string)
    | Finishing(job: string)
    | Failing(job: string, attempts: nat, maxAttempts: int)

  /** `reclaims` and `carried` are history: for each job, the reclaims since it was last requeued and
      the live holders it had at that moment that could still put it back. */
  datatype System = System(jobs: Table, workers: map<string, Worker>, now: int,
                           reclaims: map<string, nat>, carried: map<string, nat>)

  datatype Event =
    | Tick(ms: nat)
    | Enqueue(id: string, job: Job)
    | Select(worker: string, id: string)
    | Claim(worker: string)
    | Succeed(worker: string)
    | GiveUp(worker: string, error: string)
    | ReadAttempts(worker: string)
    | Fail(worker: string, error: string)
    | Crash(worker: string)
    | Reclaim(olderThanMs: nat)
    | Requeue(id: string)

  predicate Holds(w: Worker, job: string) {
    !w.Selected? && w.job == job
  }

  /** The worker will put the job back in the queue. */
  predicate Armed(w: Worker, job: string) {
    w.Failing? && w.job == job && w.attempts < w.maxAttempts
  }

  function ArmedOn(workers: map<string, Worker>, job: string): set<string> {
    set w | w in workers && Armed(workers[w], job)
  }

  /** The worker may still put the job back: it will, or it runs the handler and has not read the attempts. */
  predicate Spare(w: Worker, job: string, maxAttempts: int) {
    Armed(w, job) || (w == Holding(job) && maxAttempts >= 1)
  }

  function SpareOn(workers: map<string, Worker>, job: string, maxAttempts: int): set<string> {
    set w | w in workers && Spare(workers[w], job, maxAttempts)
  }

  ghost predicate Enabled(s: System, e: Event) {
    match e
    case Tick(_) => true
    case Enqueue(id, job) => id !in s.jobs && job.status == Pending && job.attempts == 0 && job.runAfter >= s.now
    case Select(w, id) => w !in s.workers && IsNext(s.jobs, id, s.now)
    case Claim(w) => w in s.workers && s.workers[w].Selected?
    case Succeed(w) => w in s.workers && (s.workers[w].Holding? || s.workers[w].Finishing?)
    case GiveUp(w, _) => w in s.workers && s.workers[w].Holding? && s.workers[w].job in s.jobs
    case ReadAttempts(w) => w in s.workers && s.workers[w].Holding? && s.workers[w].job in s.jobs
    case Fail(w, _) => w in s.workers && s.workers[w].Failing? && s.workers[w].job in s.jobs
    case Crash(w) => w in s.workers
    case Reclaim(_) => true
    case Requeue(id) => id in s.jobs && s.jobs[id].status == DeadLetter
  }

  function Bump(reclaims: map<string, nat>, t: Table, cutoff: int): map<string, nat> {
    map id | id in reclaims :: if id in t && IsStale(t[id], cutoff) then reclaims[id] + 1 else reclaims[id]
  }

  ghost function After(s: System, e: Event): System
    requires Enabled(s, e)
  {
    match e
    case Tick(ms) => s.(now := s.now + ms)
    case Enqueue(id, job) => s.(jobs := s.jobs[id := job], reclaims := s.reclaims[id := 0], carried := s.carried[id := 0])
    case Select(w, id) => s.(workers := s.workers[w := Selected(id)])
    case Claim(w) =>
      var id := s.workers[w].job;
      var (t, claimed) := ClaimUpdate(s.jobs, id, w, s.now);
      s.(jobs := t, workers := if claimed then s.workers[w := Holding(id)] else s.workers - {w})
    case Succeed(w) => s.(jobs := SucceedUpdate(s.jobs, s.workers[w].job), workers := s.workers - {w})
    case GiveUp(w, error) =>
      var id := s.workers[w].job;
      s.(jobs := DeadLetterUpdate(s.jobs, id, error), workers := s.workers[w := Finishing(id)])
    case ReadAttempts(w) =>
      var id := s.workers[w].job;
      s.(workers := s.workers[w := Failing(id, s.jobs[id].attempts, s.jobs[id].maxAttempts)])
    case Fail(w, error) =>
      var f := s.workers[w];
      s.(jobs := FailUpdate(s.jobs, f.job, f.attempts, f.maxAttempts, s.now, error), workers := s.workers - {w})
    case Crash(w) => s.(workers := s.workers - {w})
    case Reclaim(ms) =>
      s.(jobs := ReclaimUpdate(s.jobs, s.now - ms), reclaims := Bump(s.reclaims, s.jobs, s.now - ms))
    case Requeue(id) =>
      s.(jobs := RequeueUpdate(s.jobs, id, s.now).0, reclaims := s.reclaims[id := 0],
         carried := s.carried[id := |SpareOn(s.workers, id, s.jobs[id].maxAttempts)|])
  }

  ghost predicate CanRun(s: System, es: seq<Event>)
    decreases |es|
  {
    es != [] ==> Enabled(s, es[0]) && CanRun(After(s, es[0]), es[1..])
  }

  ghost function Run(s: System, es: seq<Event>): System
    requires CanRun(s, es)
    decreases |es|
  {
    if es == [] then s else Run(After(s, es[0]), es[1..])
  }

  const START := System(map[], map[], 0, map[], map[])

  // ---------------------------------------------------------------- counting workers

  function Count(b: bool): nat {
    if b then 1 else 0
  }

  lemma SetMove(before: set<string>, after: set<string>, w: string, was: bool, now: bool)
    requires was <==> w in before
    requires now <==> w in after
    requires forall x :: x != w ==> (x in before <==> x in after)
    ensures |after| == |before| - Count(was) + Count(now)
  {
    var others := before - {w};
    assert before == others + if was then {w} else {};
    assert after == others + if now then {w} else {};
  }

  lemma MoveWorker(workers: map<string, Worker>, w: string, to: Worker, job: string, m: int)
    ensures |SpareOn(workers[w := to], job, m)| ==
            |SpareOn(workers, job, m)| - Count(w in workers && Spare(workers[w], job, m)) + Count(Spare(to, job, m))
    ensures |ArmedOn(workers[w := to], job)| ==
            |ArmedOn(workers, job)| - Count(w in workers && Armed(workers[w], job)) + Count(Armed(to, job))
  {
    MoveSpare(workers, w, to, job, m);
    MoveArmed(workers, w, to, job);
  }

  lemma MoveSpare(workers: map<string, Worker>, w: string, to: Worker, job: string, m: int)
    ensures |SpareOn(workers[w := to], job, m)| ==
            |SpareOn(workers, job, m)| - Count(w in workers && Spare(workers[w], job, m)) + Count(Spare(to, job, m))
  {
    SetMove(SpareOn(workers, job, m), SpareOn(workers[w := to], job, m), w, w in workers && Spare(workers[w], job, m), Spare(to, job, m));
  }

  lemma MoveArmed(workers: map<string, Worker>, w: string, to: Worker, job: string)
    ensures |ArmedOn(workers[w := to], job)| ==
            |ArmedOn(workers, job)| - Count(w in workers && Armed(workers[w], job)) + Count(Armed(to, job))
  {
    SetMove(ArmedOn(workers, job), ArmedOn(workers[w := to], job), w, w in workers && Armed(workers[w], job), Armed(to, job));
  }

  lemma DropWorker(workers: map<string, Worker>, w: string, job: string, m: int)
    requires w in workers
    ensures |SpareOn(workers - {w}, job, m)| == |SpareOn(workers, job, m)| - Count(Spare(workers[w], job, m))
    ensures |ArmedOn(workers - {w}, job)| == |ArmedOn(workers, job)| - Count(Armed(workers[w], job))
  {
    DropSpare(workers, w, job, m);
    DropArmed(workers, w, job);
  }

  lemma DropSpare(workers: map<string, Worker>, w: string, job: string, m: int)
    requires w in workers
    ensures |SpareOn(workers - {w}, job, m)| == |SpareOn(workers, job, m)| - Count(Spare(workers[w], job, m))
  {
    SetMove(SpareOn(workers, job, m), SpareOn(workers - {w}, job, m), w, Spare(workers[w], job, m), false);
  }

  lemma DropArmed(workers: map<string, Worker>, w: string, job: string)
    requires w in workers
    ensures |ArmedOn(workers - {w}, job)| == |ArmedOn(workers, job)| - Count(Armed(workers[w], job))
  {
    SetMove(ArmedOn(workers, job), ArmedOn(workers - {w}, job), w, Armed(workers[w], job), false);
  }

  // ---------------------------------------------------------------- the attempts bound

  function Limit(job: Job): nat {
    if job.maxAttempts < 1 then 1 else job.maxAttempts
  }

  /** What the protocol keeps for one job. A pending row and a holder that may put the row back are the
      only sources of further attempts; reclaims and holders left over from before a requeue add to them. */
  ghost predicate JobKept(job: Job, spare: nat, armed: nat, extra: nat) {
    var pending := Count(job.status == Pending);
    && pending + spare <= 1 + extra
    && (job.attempts < Limit(job) || job.attempts + pending + armed <= Limit(job) + extra)
  }

  /** The same with `carried` holders left over. */
  ghost predicate KeptWith(s: System, id: string, carried: nat)
    requires id in s.jobs && id in s.reclaims
  {
    JobKept(s.jobs[id], |SpareOn(s.workers, id, s.jobs[id].maxAttempts)|, |ArmedOn(s.workers, id)|, s.reclaims[id] + carried)
  }

  ghost predicate Kept(s: System, id: string)
    requires id in s.jobs && id in s.reclaims && id in s.carried
  {
    KeptWith(s, id, s.carried[id])
  }

  ghost predicate KnownJobs(s: System) {
    && s.reclaims.Keys == s.jobs.Keys && s.carried.Keys == s.jobs.Keys
    && (forall w :: w in s.workers ==> s.workers[w].job in s.jobs)
    && (forall w :: w in s.workers && s.workers[w].Failing? ==>
          s.workers[w].maxAttempts == s.jobs[s.workers[w].job].maxAttempts)
  }

  ghost predicate Inv(s: System) {
    KnownJobs(s) && forall id :: id in s.jobs ==> Kept(s, id)
  }

  lemma ArmedAreSpare(workers: map<string, Worker>, job: string, m: int)
    ensures |ArmedOn(workers, job)| <= |SpareOn(workers, job, m)|
  {
    var a, h := ArmedOn(workers, job), SpareOn(workers, job, m);
    assert h == a + (h - a);
  }

  lemma NoHoldersOfUnknown(s: System, id: string, m: int)
    requires KnownJobs(s) && id !in s.jobs
    ensures SpareOn(s.workers, id, m) == {} && ArmedOn(s.workers, id) == {}
  {
  }

  lemma KnownJobsStep(s: System, e: Event)
    requires KnownJobs(s) && Enabled(s, e)
    ensures KnownJobs(After(s, e))
  {
  }

  lemma KeptClaim(s: System, w: string, id: string, c: nat)
    requires KnownJobs(s) && Enabled(s, Claim(w)) && id in s.jobs && KeptWith(s, id, c)
    ensures KeptWith(After(s, Claim(w)), id, c)
  {
    var job, m := s.workers[w].job, s.jobs[id].maxAttempts;
    if s.jobs[job].status == Pending {
      MoveWorker(s.workers, w, Holding(job), id, m);
    } else {
      DropWorker(s.workers, w, id, m);
    }
    ArmedAreSpare(s.workers, id, m);
  }

  lemma KeptFail(s: System, w: string, error: string, id: string, c: nat)
    requires KnownJobs(s) && Enabled(s, Fail(w, error)) && id in s.jobs && KeptWith(s, id, c)
    ensures KeptWith(After(s, Fail(w, error)), id, c)
  {
    DropWorker(s.workers, w, id, s.jobs[id].maxAttempts);
    var t := After(s, Fail(w, error));
    if s.workers[w].job != id {
      assert t.jobs[id] == s.jobs[id];
    }
  }

  lemma KeptSucceed(s: System, w: string, id: string, c: nat)
    requires KnownJobs(s) && Enabled(s, Succeed(w)) && id in s.jobs && KeptWith(s, id, c)
    ensures KeptWith(After(s, Succeed(w)), id, c)
  {
    DropWorker(s.workers, w, id, s.jobs[id].maxAttempts);
    var t := After(s, Succeed(w));
    if s.workers[w].job != id {
      assert t.jobs[id] == s.jobs[id];
    }
  }

  lemma KeptGiveUp(s: System, w: string, error: string, id: string, c: nat)
    requires KnownJobs(s) && Enabled(s, GiveUp(w, error)) && id in s.jobs && KeptWith(s, id, c)
    ensures KeptWith(After(s, GiveUp(w, error)), id, c)
  {
    MoveWorker(s.workers, w, Finishing(s.workers[w].job), id, s.jobs[id].maxAttempts);
  }

  lemma KeptReadAttempts(s: System, w: string, id: string, c: nat)
    requires KnownJobs(s) && Enabled(s, ReadAttempts(w)) && id in s.jobs && KeptWith(s, id, c)
    ensures KeptWith(After(s, ReadAttempts(w)), id, c)
  {
    var t := After(s, ReadAttempts(w));
    MoveWorker(s.workers, w, t.workers[w], id, s.jobs[id].maxAttempts);
  }

  lemma KeptReclaim(s: System, ms: nat, id: string, c: nat)
    requires KnownJobs(s) && Enabled(s, Reclaim(ms)) && id in s.jobs && KeptWith(s, id, c)
    ensures KeptWith(After(s, Reclaim(ms)), id, c)
  {
  }

  lemma KeptElsewhere(s: System, e: Event, id: string, c: nat)
    requires KnownJobs(s) && Enabled(s, e) && id in s.jobs && KeptWith(s, id, c)
    requires e.Tick? || e.Select? || e.Crash? || (e.Requeue? && e.id != id) || (e.Enqueue? && e.id != id)
    ensures KeptWith(After(s, e), id, c)
  {
    if e.Select? {
      MoveWorker(s.workers, e.worker, Selected(e.id), id, s.jobs[id].maxAttempts);
    } else if e.Crash? {
      DropWorker(s.workers, e.worker, id, s.jobs[id].maxAttempts);
    }
  }

  lemma KeptByWorker(s: System, e: Event, id: string, c: nat)
    requires KnownJobs(s) && Enabled(s, e) && id in s.jobs && KeptWith(s, id, c)
    requires e.Claim? || e.Succeed? || e.GiveUp? || e.ReadAttempts? || e.Fail?
    ensures KeptWith(After(s, e), id, c)
  {
    match e
    case Claim(w) => KeptClaim(s, w, id, c);
    case Succeed(w) => KeptSucceed(s, w, id, c);
    case GiveUp(w, error) => KeptGiveUp(s, w, error, id, c);
    case ReadAttempts(w) => KeptReadAttempts(s, w, id, c);
    case Fail(w, error) => KeptFail(s, w, error, id, c);
  }

  /** Every event but a requeue of the job keeps the bound, whatever number of holders is left over. */
  lemma KeptWithStep(s: System, e: Event, id: string, c: nat)
    requires KnownJobs(s) && Enabled(s, e) && id in s.jobs && KeptWith(s, id, c) && e != Requeue(id)
    ensures id in After(s, e).jobs && id in After(s, e).reclaims && KeptWith(After(s, e), id, c)
  {
    if e.Reclaim? {
      KeptReclaim(s, e.olderThanMs, id, c);
    } else if e.Tick? || e.Select? || e.Crash? || e.Requeue? || e.Enqueue? {
      KeptElsewhere(s, e, id, c);
    } else {
      KeptByWorker(s, e, id, c);
    }
  }

  lemma CarriedStays(s: System, e: Event, id: string)
    requires KnownJobs(s) && Enabled(s, e) && id in s.jobs && e != Requeue(id)
    ensures id in After(s, e).carried && After(s, e).carried[id] == s.carried[id]
  {
  }

  /** A requeue or an insert starts the count anew. */
  lemma KeptAnew(s: System, e: Event, id: string)
    requires KnownJobs(s) && Enabled(s, e) && (e == Requeue(id) || (e.Enqueue? && e.id == id))
    ensures KnownJobs(After(s, e)) && id in After(s, e).jobs && Kept(After(s, e), id)
  {
    KnownJobsStep(s, e);
    if e.Enqueue? {
      NoHoldersOfUnknown(s, id, e.job.maxAttempts);
    }
  }

  lemma KeptStep(s: System, e: Event, id: string)
    requires Inv(s) && Enabled(s, e) && id in After(s, e).jobs
    ensures KnownJobs(After(s, e)) && Kept(After(s, e), id)
  {
    KnownJobsStep(s, e);
    if e == Requeue(id) || (e.Enqueue? && e.id == id) {
      KeptAnew(s, e, id);
    } else {
      JobWasThere(s, e, id);
      CarriedStays(s, e, id);
      KeptWithStep(s, e, id, s.carried[id]);
    }
  }

  lemma JobWasThere(s: System, e: Event, id: string)
    requires KnownJobs(s) && Enabled(s, e) && id in After(s, e).jobs && !(e.Enqueue? && e.id == id)
    ensures id in s.jobs
  {
  }
}
