/** What every run of the job protocol keeps, and what it keeps when live holders are left alone. */
module JobSafety {
  import opened Optional
  import opened JobTable
  import opened JobProtocol

  lemma {:induction false} InvRun(s: System, es: seq<Event>)
    requires Inv(s) && CanRun(s, es)
    ensures Inv(Run(s, es))
    decreases |es|
  {
    if es != [] {
      var t := After(s, es[0]);
      KnownJobsStep(s, es[0]);
      forall id | id in t.jobs
        ensures Kept(t, id)
      {
        KeptStep(s, es[0], id);
      }
      InvRun(t, es[1..]);
    }
  }

  /** Over every interleaving, the attempts of a job exceed its limit by at most the reclaims since it was
      last requeued and the live holders that could still put it back at that moment. */
  lemma AttemptsBound(es: seq<Event>, id: string)
    requires CanRun(START, es) && id in Run(START, es).jobs
    ensures var s := Run(START, es);
            id in s.reclaims && id in s.carried &&
            s.jobs[id].attempts <= Limit(s.jobs[id]) + s.reclaims[id] + s.carried[id]
  {
    InvRun(START, es);
    assert Kept(Run(START, es), id);
  }

  // ---------------------------------------------------------------- leaving live holders alone

  /** No live holder is reclaimed, and no held job is requeued. */
  ghost predicate LeavesHoldersAlone(s: System, e: Event) {
    match e
    case Reclaim(ms) => forall w :: w in s.workers && !s.workers[w].Selected? && s.workers[w].job in s.jobs ==>
                          !IsStale(s.jobs[s.workers[w].job], s.now - ms)
    case Requeue(id) => RequeuesUnheld(s, e)
    case _ => true
  }

  ghost predicate RequeuesUnheld(s: System, e: Event) {
    e.Requeue? ==> forall w :: w in s.workers ==> !Holds(s.workers[w], e.id)
  }

  /** No job is requeued while a live holder could still put it back. */
  ghost predicate RequeuesSpareless(s: System, e: Event) {
    e.Requeue? && e.id in s.jobs ==> SpareOn(s.workers, e.id, s.jobs[e.id].maxAttempts) == {}
  }

  ghost predicate SparelessRun(s: System, es: seq<Event>)
    requires CanRun(s, es)
    decreases |es|
  {
    es != [] ==> RequeuesSpareless(s, es[0]) && SparelessRun(After(s, es[0]), es[1..])
  }

  ghost predicate NothingCarried(s: System) {
    forall id :: id in s.carried ==> s.carried[id] == 0
  }

  lemma {:induction false} SparelessCarriesNothing(s: System, es: seq<Event>)
    requires CanRun(s, es) && SparelessRun(s, es) && NothingCarried(s)
    ensures NothingCarried(Run(s, es))
    decreases |es|
  {
    if es != [] {
      SparelessCarriesNothing(After(s, es[0]), es[1..]);
    }
  }

  /** When jobs are requeued only once no holder could still put them back, reclaims alone add to the limit. */
  lemma AttemptsBoundSpareless(es: seq<Event>, id: string)
    requires CanRun(START, es) && SparelessRun(START, es) && id in Run(START, es).jobs
    ensures var s := Run(START, es);
            id in s.reclaims && s.jobs[id].attempts <= Limit(s.jobs[id]) + s.reclaims[id]
  {
    AttemptsBound(es, id);
    SparelessCarriesNothing(START, es);
  }

  ghost predicate QuietRun(s: System, es: seq<Event>)
    requires CanRun(s, es)
    decreases |es|
  {
    es != [] ==> LeavesHoldersAlone(s, es[0]) && QuietRun(After(s, es[0]), es[1..])
  }

  /** A live holder finds its job as it left it. */
  ghost predicate HolderAgrees(s: System, w: string) {
    w in s.workers && !s.workers[w].Selected? ==>
      && s.workers[w].job in s.jobs
      && s.jobs[s.workers[w].job].status == (if s.workers[w].Finishing? then DeadLetter else Running)
      && s.jobs[s.workers[w].job].lockedBy == Some(w)
  }

  ghost predicate OneHolder(s: System, v: string, w: string) {
    (v in s.workers && w in s.workers && !s.workers[v].Selected? && !s.workers[w].Selected? &&
     s.workers[v].job == s.workers[w].job) ==> v == w
  }

  ghost predicate Exclusive(s: System) {
    && KnownJobs(s)
    && (forall w :: HolderAgrees(s, w))
    && (forall v, w :: OneHolder(s, v, w))
  }

  lemma AgreesStep(s: System, e: Event, v: string)
    requires Exclusive(s) && Enabled(s, e) && LeavesHoldersAlone(s, e)
    ensures HolderAgrees(After(s, e), v)
  {
    assert HolderAgrees(s, v);
    if !e.Tick? && !e.Enqueue? && !e.Reclaim? && !e.Requeue? {
      assert HolderAgrees(s, e.worker) && OneHolder(s, v, e.worker);
    }
  }

  lemma OneHolderStep(s: System, e: Event, v: string, w: string)
    requires Exclusive(s) && Enabled(s, e) && LeavesHoldersAlone(s, e)
    ensures OneHolder(After(s, e), v, w)
  {
    assert OneHolder(s, v, w) && HolderAgrees(s, v) && HolderAgrees(s, w);
  }

  lemma ExclusiveStep(s: System, e: Event)
    requires Exclusive(s) && Enabled(s, e) && LeavesHoldersAlone(s, e)
    ensures Exclusive(After(s, e))
  {
    KnownJobsStep(s, e);
    forall v
      ensures HolderAgrees(After(s, e), v)
    {
      AgreesStep(s, e, v);
    }
    forall v, w
      ensures OneHolder(After(s, e), v, w)
    {
      OneHolderStep(s, e, v, w);
    }
  }

  lemma {:induction false} QuietRunsAreExclusive(s: System, es: seq<Event>)
    requires Exclusive(s) && CanRun(s, es) && QuietRun(s, es)
    ensures Exclusive(Run(s, es))
    decreases |es|
  {
    if es != [] {
      ExclusiveStep(s, es[0]);
      QuietRunsAreExclusive(After(s, es[0]), es[1..]);
    }
  }

  /** In a run that leaves live holders alone, at most one worker holds a job at any moment, and while it
      does the row is running, or given up by that worker, and names it as the holder of the lock. */
  lemma AtMostOneHolder(es: seq<Event>, v: string, w: string)
    requires CanRun(START, es) && QuietRun(START, es)
    ensures OneHolder(Run(START, es), v, w) && HolderAgrees(Run(START, es), w)
  {
    QuietRunsAreExclusive(START, es);
  }

  predicate IsTerminal(job: Job) {
    job.status == Succeeded || job.status == DeadLetter
  }

  lemma TerminalStep(s: System, e: Event, id: string)
    requires Exclusive(s) && Enabled(s, e) && LeavesHoldersAlone(s, e)
    requires id in s.jobs && IsTerminal(s.jobs[id]) && e != Requeue(id)
    ensures id in After(s, e).jobs && After(s, e).jobs[id].status == s.jobs[id].status
  {
    if e.Fail? || e.GiveUp? || e.Succeed? {
      assert HolderAgrees(s, e.worker);
    }
  }

  /** A succeeded or dead-lettered job stays so until it is requeued. */
  lemma {:induction false} TerminalStays(s: System, es: seq<Event>, id: string)
    requires Exclusive(s) && CanRun(s, es) && QuietRun(s, es)
    requires id in s.jobs && IsTerminal(s.jobs[id]) && Requeue(id) !in es
    ensures id in Run(s, es).jobs && Run(s, es).jobs[id].status == s.jobs[id].status
    decreases |es|
  {
    if es != [] {
      TerminalStep(s, es[0], id);
      ExclusiveStep(s, es[0]);
      TerminalStays(After(s, es[0]), es[1..], id);
    }
  }

  // ---------------------------------------------------------------- why held jobs matter

  ghost predicate Reached(s: System) {
    exists es :: CanRun(START, es) && Run(START, es) == s
  }

  lemma {:induction false} RunSnoc(s: System, es: seq<Event>, e: Event)
    requires CanRun(s, es) && Enabled(Run(s, es), e)
    ensures CanRun(s, es + [e]) && Run(s, es + [e]) == After(Run(s, es), e)
    decreases |es|
  {
    var all := es + [e];
    if es == [] {
      assert all[1..] == [];
    } else {
      RunSnoc(After(s, es[0]), es[1..], e);
      assert all[0] == es[0] && all[1..] == es[1..] + [e];
    }
  }

  lemma ReachNext(s: System, e: Event)
    requires Reached(s) && Enabled(s, e)
    ensures Reached(After(s, e))
  {
    var es :| CanRun(START, es) && Run(START, es) == s;
    RunSnoc(START, es, e);
    assert CanRun(START, es + [e]);
  }

  /** A reached state whose only job, "j", may be tried twice. */
  ghost predicate Snapshot(s: System, status: Status, attempts: nat, workers: map<string, Worker>, reclaims: nat) {
    && Reached(s)
    && s.jobs.Keys == {"j"} && "j" in s.reclaims && s.reclaims["j"] == reclaims
    && s.jobs["j"].maxAttempts == 2 && s.jobs["j"].status == status && s.jobs["j"].attempts == attempts
    && s.jobs["j"].runAfter <= s.now + 60_000
    && (status == Running ==> s.jobs["j"].lockedAt.Some? && s.jobs["j"].lockedAt.value <= s.now)
    && s.workers == workers
  }

  lemma SnapshotClaim(s: System, attempts: nat, workers: map<string, Worker>, r: nat, w: string) returns (t: System)
    requires Snapshot(s, Pending, attempts, workers, r) && w !in workers
    ensures Snapshot(t, Running, attempts + 1, workers[w := Holding("j")], r)
  {
    ReachNext(s, Tick(60_000));
    var a := After(s, Tick(60_000));
    assert IsNext(a.jobs, "j", a.now);
    ReachNext(a, Select(w, "j"));
    var b := After(a, Select(w, "j"));
    ReachNext(b, Claim(w));
    t := After(b, Claim(w));
    assert t.workers == workers[w := Holding("j")];
  }

  lemma SnapshotRead(s: System, status: Status, attempts: nat, workers: map<string, Worker>, r: nat, w: string)
      returns (t: System)
    requires Snapshot(s, status, attempts, workers, r) && w in workers && workers[w] == Holding("j")
    ensures Snapshot(t, status, attempts, workers[w := Failing("j", attempts, 2)], r)
  {
    ReachNext(s, ReadAttempts(w));
    t := After(s, ReadAttempts(w));
  }

  lemma SnapshotFail(s: System, status: Status, attempts: nat, workers: map<string, Worker>, r: nat, w: string, seen: nat)
      returns (t: System)
    requires Snapshot(s, status, attempts, workers, r) && w in workers && workers[w] == Failing("j", seen, 2)
    ensures Snapshot(t, if seen >= 2 then DeadLetter else Pending, attempts, workers - {w}, r)
  {
    ReachNext(s, Fail(w, "error"));
    t := After(s, Fail(w, "error"));
  }

  lemma SnapshotReclaim(s: System, attempts: nat, workers: map<string, Worker>, r: nat) returns (t: System)
    requires Snapshot(s, Running, attempts, workers, r)
    ensures Snapshot(t, Pending, attempts, workers, r + 1)
  {
    ReachNext(s, Tick(1));
    var a := After(s, Tick(1));
    ReachNext(a, Reclaim(0));
    t := After(a, Reclaim(0));
  }

  lemma SnapshotRequeue(s: System, attempts: nat, workers: map<string, Worker>, r: nat) returns (t: System)
    requires Snapshot(s, DeadLetter, attempts, workers, r)
    ensures Snapshot(t, Pending, 0, workers, 0)
  {
    ReachNext(s, Requeue("j"));
    t := After(s, Requeue("j"));
  }

  lemma SnapshotStart() returns (t: System)
    ensures Snapshot(t, Pending, 0, map[], 0)
  {
    assert CanRun(START, []) && Run(START, []) == START;
    var job := NewJob("org", "type", "{}", None, Some(2), None, 0);
    ReachNext(START, Enqueue("j", job));
    t := After(START, Enqueue("j", job));
  }

  const LATE := Failing("j", 1, 2)

  /** "w1" has read one attempt of two when its job is reclaimed. */
  lemma LateHolder() returns (s: System)
    ensures Snapshot(s, Pending, 1, map["w1" := LATE], 1)
  {
    s := SnapshotStart();
    s := SnapshotClaim(s, 0, map[], 0, "w1");
    s := SnapshotRead(s, Running, 1, map["w1" := Holding("j")], 0, "w1");
    s := SnapshotReclaim(s, 1, map["w1" := LATE], 0);
  }

  /** The job is dead-lettered by another worker and requeued, with "w1" still alive. */
  lemma LateHolderCarried() returns (s: System)
    ensures Snapshot(s, Pending, 0, map["w1" := LATE], 0)
  {
    s := LateHolder();
    var before := map["w1" := LATE];
    s := SnapshotClaim(s, 1, before, 1, "w2");
    s := SnapshotRead(s, Running, 2, before["w2" := Holding("j")], 1, "w2");
    var failing := before["w2" := Holding("j")]["w2" := Failing("j", 2, 2)];
    s := SnapshotFail(s, Running, 2, failing, 1, "w2", 2);
    assert failing - {"w2"} == before;
    s := SnapshotRequeue(s, 2, before, 1);
  }

  /** "w1" puts the job back while "w3" has it and will put it back again. */
  lemma PutBackTwice() returns (s: System)
    ensures Snapshot(s, Pending, 1, map["w3" := LATE], 0)
  {
    s := LateHolderCarried();
    var before := map["w1" := LATE];
    s := SnapshotClaim(s, 0, before, 0, "w3");
    s := SnapshotRead(s, Running, 1, before["w3" := Holding("j")], 0, "w3");
    var both := before["w3" := Holding("j")]["w3" := LATE];
    s := SnapshotFail(s, Running, 1, both, 0, "w1", 1);
    assert both - {"w1"} == map["w3" := LATE];
  }

  /** The holder left over from before the requeue gives the job a third attempt of two, with no
      reclaim since the requeue. */
  lemma CarriedHolderExample() returns (s: System)
    ensures Reached(s) && "j" in s.jobs && "j" in s.reclaims && s.reclaims["j"] == 0
    ensures s.jobs["j"].attempts == 3 && s.jobs["j"].maxAttempts == 2
  {
    s := PutBackTwice();
    var before := map["w3" := LATE];
    s := SnapshotClaim(s, 1, before, 0, "w4");
    var both := before["w4" := Holding("j")];
    s := SnapshotFail(s, Running, 2, both, 0, "w3", 1);
    assert both - {"w3"} == map["w4" := Holding("j")];
    s := SnapshotClaim(s, 2, map["w4" := Holding("j")], 0, "w5");
  }
}
