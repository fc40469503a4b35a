/** How often a job can be tried: from the moment it is enqueued or requeued its limit, plus the reclaims,
    plus the holders left over that can still put it back; and each of these can happen. */
module JobAttempts {
  import opened Optional
  import opened JobTable
  import opened JobQueue
  import opened JobProtocol
  import opened JobSafety
  import opened JobWork

  /** The job as it is right after an enqueue or a requeue. */
  ghost predicate StartsAnew(s: System, id: string) {
    && KnownJobs(s) && id in s.jobs
    && s.jobs[id].status == Pending && s.jobs[id].attempts == 0 && s.reclaims[id] == 0
  }

  lemma StartsAnewAfter(s: System, e: Event, id: string)
    requires KnownJobs(s) && Enabled(s, e) && (e == Requeue(id) || (e.Enqueue? && e.id == id))
    ensures StartsAnew(After(s, e), id)
  {
    KnownJobsStep(s, e);
  }

  function LeftOver(s: System, id: string): set<string>
    requires id in s.jobs
  {
    SpareOn(s.workers, id, s.jobs[id].maxAttempts)
  }

  // ---------------------------------------------------------------- at most

  lemma {:induction false} RunKeeps(s: System, es: seq<Event>, id: string, c: nat)
    requires KnownJobs(s) && id in s.jobs && KeptWith(s, id, c) && CanRun(s, es) && Requeue(id) !in es
    ensures var t := Run(s, es); id in t.jobs && id in t.reclaims && KeptWith(t, id, c)
    decreases |es|
  {
    if es != [] {
      assert es[0] in es && forall e :: e in es[1..] ==> e in es;
      KnownJobsStep(s, es[0]);
      KeptWithStep(s, es[0], id, c);
      RunKeeps(After(s, es[0]), es[1..], id, c);
    }
  }

  /** Until the job is requeued, its attempts exceed the limit by no more than the reclaims since and the
      holders left over. */
  lemma AttemptsSince(s: System, es: seq<Event>, id: string)
    requires StartsAnew(s, id) && CanRun(s, es) && Requeue(id) !in es
    ensures var t := Run(s, es);
            && id in t.jobs && id in t.reclaims
            && t.jobs[id].attempts <= Limit(t.jobs[id]) + t.reclaims[id] + |LeftOver(s, id)|
  {
    RunKeeps(s, es, id, |LeftOver(s, id)|);
  }

  // ---------------------------------------------------------------- as many as that

  /** A run that does not requeue the job leads from `s` to `t`. */
  ghost predicate Leads(s: System, t: System, id: string) {
    exists es :: CanRun(s, es) && Requeue(id) !in es && Run(s, es) == t
  }

  lemma LeadsNowhere(s: System, id: string)
    ensures Leads(s, s, id)
  {
    assert CanRun(s, []) && Run(s, []) == s;
  }

  lemma LeadsOn(s: System, t: System, e: Event, id: string)
    requires Leads(s, t, id) && Enabled(t, e) && e != Requeue(id)
    ensures Leads(s, After(t, e), id)
  {
    var es :| CanRun(s, es) && Requeue(id) !in es && Run(s, es) == t;
    RunSnoc(s, es, e);
  }

  /** A state on the way: what holds of the job, and that the workers in `a` will put it back. */
  ghost predicate Scene(s: System, t: System, id: string, status: Status, attempts: nat, max: int, a: set<string>) {
    && Leads(s, t, id) && KnownJobs(t)
    && id in t.jobs && t.jobs[id].maxAttempts == max && t.jobs[id].status == status && t.jobs[id].attempts == attempts
    && t.reclaims[id] == 0
    && forall w :: w in a ==> w in t.workers && Armed(t.workers[w], id)
  }

  function OthersPending(t: System, id: string): set<string> {
    set k | k in t.jobs && k != id && t.jobs[k].status == Pending
  }

  /** One more event that leaves the job and the workers in `a` alone. */
  lemma SceneNext(s: System, t: System, e: Event, id: string, status: Status, attempts: nat, max: int, a: set<string>)
    requires Scene(s, t, id, status, attempts, max, a) && Enabled(t, e)
    requires e.Tick? || (e.Select? && e.worker !in t.workers)
          || (e.Claim? && e.worker !in a && t.workers[e.worker].job != id)
    ensures Scene(s, After(t, e), id, status, attempts, max, a)
  {
    LeadsOn(s, t, e, id);
    KnownJobsStep(t, e);
  }

  /** A new worker claims a due job that stands before the job of interest. */
  lemma ClaimOther(s: System, t: System, id: string, k: string, attempts: nat, max: int, a: set<string>) returns (u: System)
    requires Scene(s, t, id, Pending, attempts, max, a) && IsNext(t.jobs, k, t.now) && k != id
    ensures Scene(s, u, id, Pending, attempts, max, a) && u.now == t.now
    ensures u.jobs[id] == t.jobs[id] && OthersPending(u, id) < OthersPending(t, id)
  {
    var w := FreshName(t.workers.Keys);
    SceneNext(s, t, Select(w, k), id, Pending, attempts, max, a);
    var x := After(t, Select(w, k));
    SceneNext(s, x, Claim(w), id, Pending, attempts, max, a);
    u := After(x, Claim(w));
    assert k in OthersPending(t, id) && k !in OthersPending(u, id);
  }

  /** Once it is due, the job becomes the next one. */
  lemma {:induction false} BecomesNext(s: System, t: System, id: string, attempts: nat, max: int, a: set<string>) returns (u: System)
    requires Scene(s, t, id, Pending, attempts, max, a) && IsDue(t.jobs, id, t.now)
    ensures Scene(s, u, id, Pending, attempts, max, a) && IsNext(u.jobs, id, u.now)
    decreases OthersPending(t, id)
  {
    if IsNext(t.jobs, id, t.now) {
      u := t;
    } else {
      var k := SomeDueIsNext(t.jobs, t.jobs.Keys, id, t.now);
      var x := ClaimOther(s, t, id, k, attempts, max, a);
      u := BecomesNext(s, x, id, attempts, max, a);
    }
  }

  lemma WaitUntilDue(s: System, t: System, id: string, attempts: nat, max: int, a: set<string>) returns (u: System)
    requires Scene(s, t, id, Pending, attempts, max, a)
    ensures Scene(s, u, id, Pending, attempts, max, a) && IsDue(u.jobs, id, u.now)
  {
    var ms := if t.jobs[id].runAfter > t.now then t.jobs[id].runAfter - t.now else 0;
    SceneNext(s, t, Tick(ms), id, Pending, attempts, max, a);
    u := After(t, Tick(ms));
  }

  /** A new worker claims the job. */
  lemma TakeJob(s: System, t: System, id: string, attempts: nat, max: int, a: set<string>) returns (u: System, w: string)
    requires Scene(s, t, id, Pending, attempts, max, a)
    ensures Scene(s, u, id, Running, attempts + 1, max, a) && w in u.workers && u.workers[w] == Holding(id) && w !in a
  {
    var due := WaitUntilDue(s, t, id, attempts, max, a);
    var x := BecomesNext(s, due, id, attempts, max, a);
    w := FreshName(x.workers.Keys);
    SceneNext(s, x, Select(w, id), id, Pending, attempts, max, a);
    var y := After(x, Select(w, id));
    LeadsOn(s, y, Claim(w), id);
    KnownJobsStep(y, Claim(w));
    u := After(y, Claim(w));
  }

  /** A holder that has just read attempts left puts the job back. */
  lemma PutBack(s: System, t: System, id: string, status: Status, attempts: nat, max: int, a: set<string>, w: string) returns (u: System)
    requires Scene(s, t, id, status, attempts, max, a) && w in a
    ensures Scene(s, u, id, Pending, attempts, max, a - {w})
  {
    LeadsOn(s, t, Fail(w, ""), id);
    KnownJobsStep(t, Fail(w, ""));
    u := After(t, Fail(w, ""));
  }

  /** A running handler is over and its worker reads that attempts are left. */
  lemma Arm(s: System, t: System, id: string, status: Status, attempts: nat, max: int, a: set<string>, w: string) returns (u: System)
    requires Scene(s, t, id, status, attempts, max, a) && w in t.workers && t.workers[w] == Holding(id) && attempts < max
    ensures Scene(s, u, id, status, attempts, max, a + {w})
    ensures u.jobs == t.jobs && u.workers == t.workers[w := Failing(id, attempts, max)]
  {
    LeadsOn(s, t, ReadAttempts(w), id);
    KnownJobsStep(t, ReadAttempts(w));
    u := After(t, ReadAttempts(w));
  }

  /** Claimed and put back again and again, the job has been claimed as often as its limit allows. */
  lemma {:induction false} UseLimit(s: System, t: System, id: string, attempts: nat, max: int, a: set<string>, limit: nat) returns (u: System)
    requires Scene(s, t, id, Pending, attempts, max, a) && attempts < limit
    requires limit == if max < 1 then 1 else max
    ensures Scene(s, u, id, Running, limit, max, a)
    decreases limit - attempts
  {
    var x, w := TakeJob(s, t, id, attempts, max, a);
    if attempts + 1 == limit {
      u := x;
    } else {
      var y := Arm(s, x, id, Running, attempts + 1, max, a, w);
      var z := PutBack(s, y, id, Running, attempts + 1, max, a + {w}, w);
      assert a + {w} - {w} == a;
      u := UseLimit(s, z, id, attempts + 1, max, a, limit);
    }
  }

  /** Every holder left over puts the job back once, and it is claimed once more. */
  lemma {:induction false} UseLeftOver(s: System, t: System, id: string, attempts: nat, max: int, a: set<string>) returns (u: System)
    requires Scene(s, t, id, Running, attempts, max, a)
    ensures Scene(s, u, id, Running, attempts + |a|, max, {})
    decreases |a|
  {
    if a == {} {
      u := t;
    } else {
      var w :| w in a;
      var x := PutBack(s, t, id, Running, attempts, max, a, w);
      var y, v := TakeJob(s, x, id, attempts, max, a - {w});
      u := UseLeftOver(s, y, id, attempts + 1, max, a - {w});
    }
  }

  /** All holders left over have read the attempts. */
  lemma {:induction false} ArmAll(s: System, t: System, id: string, max: int, a: set<string>, rest: set<string>) returns (u: System)
    requires Scene(s, t, id, Pending, 0, max, a)
    requires forall w :: w in rest ==> w in t.workers && t.workers[w] == Holding(id) && max >= 1
    ensures Scene(s, u, id, Pending, 0, max, a + rest)
    decreases |rest|
  {
    if rest == {} {
      u := t;
      assert a + rest == a;
    } else {
      var w :| w in rest;
      var x := Arm(s, t, id, Pending, 0, max, a, w);
      u := ArmAll(s, x, id, max, a + {w}, rest - {w});
      assert a + {w} + (rest - {w}) == a + rest;
    }
  }

  /** The bound is reached: some run without reclaims tries the job as often as its limit says and once
      more for each holder left over. */
  lemma AttemptsReached(s: System, id: string) returns (es: seq<Event>)
    requires StartsAnew(s, id)
    ensures CanRun(s, es) && Requeue(id) !in es
    ensures var t := Run(s, es);
            && id in t.jobs && id in t.reclaims && t.reclaims[id] == 0
            && t.jobs[id].maxAttempts == s.jobs[id].maxAttempts
            && t.jobs[id].attempts == Limit(t.jobs[id]) + |LeftOver(s, id)|
  {
    var max := s.jobs[id].maxAttempts;
    var armed := ArmedOn(s.workers, id);
    var running := LeftOver(s, id) - armed;
    LeadsNowhere(s, id);
    var x := ArmAll(s, s, id, max, armed, running);
    assert armed + running == LeftOver(s, id);
    var y := UseLimit(s, x, id, 0, max, LeftOver(s, id), Limit(s.jobs[id]));
    var z := UseLeftOver(s, y, id, Limit(s.jobs[id]), max, LeftOver(s, id));
    es :| CanRun(s, es) && Requeue(id) !in es && Run(s, es) == z;
  }

  // ---------------------------------------------------------------- exactly when

  /** Until it is requeued, the job is never tried more often than its limit and the reclaims allow. */
  ghost predicate StaysWithin(s: System, id: string)
    requires id in s.jobs
  {
    forall es :: CanRun(s, es) && Requeue(id) !in es ==>
      var t := Run(s, es);
      id in t.jobs && id in t.reclaims && t.jobs[id].attempts <= Limit(t.jobs[id]) + t.reclaims[id]
  }

  /** After an enqueue or a requeue reclaims alone add to the limit, in every run until the next requeue,
      exactly when no live holder is left over that can still put the job back. */
  lemma StaysWithinIff(s: System, id: string)
    requires StartsAnew(s, id)
    ensures StaysWithin(s, id) <==>
            forall w :: w in s.workers ==>
              !Armed(s.workers[w], id) && !(s.workers[w] == Holding(id) && s.jobs[id].maxAttempts >= 1)
  {
    if LeftOver(s, id) == {} {
      forall es | CanRun(s, es) && Requeue(id) !in es
        ensures var t := Run(s, es);
                id in t.jobs && id in t.reclaims && t.jobs[id].attempts <= Limit(t.jobs[id]) + t.reclaims[id]
      {
        AttemptsSince(s, es, id);
      }
      assert forall w :: w in s.workers ==> w !in LeftOver(s, id);
    } else {
      var w :| w in LeftOver(s, id);
      var es := AttemptsReached(s, id);
    }
  }
}
