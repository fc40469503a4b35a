/** Progress under any number of workers: claims use up attempts, unfinished jobs can always be taken
    further, and due jobs are taken in order. */
module JobWork {
  import opened Optional
  import opened JobTable
  import opened JobProtocol
  import opened JobQueue
  import opened JobSafety
  import opened JobProgress

  // ---------------------------------------------------------------- claims use up attempts

  ghost predicate NothingReclaimed(s: System) {
    forall id :: id in s.reclaims ==> s.reclaims[id] == 0
  }

  /** The worker's claim will find the job pending. */
  predicate Claims(s: System, e: Event) {
    e.Claim? && e.worker in s.workers && s.workers[e.worker].job in s.jobs && s.jobs[s.workers[e.worker].job].status == Pending
  }

  /** The attempts that a new job brings. */
  function Brought(e: Event): nat {
    if e.Enqueue? then Limit(e.job) else 0
  }

  predicate Plain(e: Event) {
    !e.Reclaim? && !e.Requeue?
  }

  /** A state reached without reclaims and requeues in which live holders find their jobs as they left them. */
  ghost predicate Undisturbed(s: System) {
    Exclusive(s) && Inv(s) && NothingReclaimed(s) && NothingCarried(s)
  }

  lemma UndisturbedStep(s: System, e: Event)
    requires Undisturbed(s) && Enabled(s, e) && Plain(e)
    ensures Undisturbed(After(s, e))
  {
    ExclusiveStep(s, e);
    InvStep(s, e);
    NothingAdded(s, e);
  }

  lemma NothingAdded(s: System, e: Event)
    requires NothingReclaimed(s) && NothingCarried(s) && Enabled(s, e) && Plain(e)
    ensures NothingReclaimed(After(s, e)) && NothingCarried(After(s, e))
  {
  }

  lemma InvStep(s: System, e: Event)
    requires Inv(s) && Enabled(s, e)
    ensures Inv(After(s, e))
  {
    KnownJobsStep(s, e);
    forall id | id in After(s, e).jobs
      ensures Kept(After(s, e), id)
    {
      KeptStep(s, e, id);
    }
  }

  /** The row an event changes, if any. */
  function Touched(s: System, e: Event): Option<string> {
    match e
    case Enqueue(id, _) => Some(id)
    case Claim(w) => if w in s.workers then Some(s.workers[w].job) else None
    case Succeed(w) => if w in s.workers then Some(s.workers[w].job) else None
    case GiveUp(w, _) => if w in s.workers then Some(s.workers[w].job) else None
    case Fail(w, _) => if w in s.workers then Some(s.workers[w].job) else None
    case _ => None
  }

  lemma OthersUntouched(s: System, e: Event, id: string)
    requires KnownJobs(s) && Enabled(s, e) && Plain(e) && Touched(s, e) != Some(id)
    ensures id in After(s, e).jobs <==> id in s.jobs
    ensures id in s.jobs ==> After(s, e).jobs[id] == s.jobs[id]
  {
  }

  /** What an event does to the attempts left on the row it changes. */
  lemma RowWork(s: System, e: Event, id: string)
    requires Undisturbed(s) && Enabled(s, e) && Plain(e) && !e.Enqueue? && id in s.jobs && Touched(s, e) == Some(id)
    ensures id in After(s, e).jobs
    ensures Remaining(After(s, e).jobs[id]) + (if Claims(s, e) then 1 else 0) <= Remaining(s.jobs[id])
  {
    assert Kept(s, id) && HolderAgrees(s, e.worker);
    KeptRowWork(s, e, id);
  }

  lemma KeptRowWork(s: System, e: Event, id: string)
    requires KnownJobs(s) && Enabled(s, e) && Plain(e) && !e.Enqueue? && id in s.jobs && Touched(s, e) == Some(id)
    requires HolderAgrees(s, e.worker) && KeptWith(s, id, 0) && s.reclaims[id] == 0
    ensures id in After(s, e).jobs
    ensures Remaining(After(s, e).jobs[id]) + (if Claims(s, e) then 1 else 0) <= Remaining(s.jobs[id])
  {
  }

  lemma OneRowWork(t: Table, u: Table, id: string)
    requires id in t && u.Keys == t.Keys && forall k :: k in t && k != id ==> u[k] == t[k]
    ensures Work(u) - Remaining(u[id]) == Work(t) - Remaining(t[id])
  {
    SumWithout(t, t.Keys, id);
    SumWithout(u, u.Keys, id);
    SumUnchanged(t, u, t.Keys - {id});
  }

  lemma NewRowWork(t: Table, u: Table, id: string, job: Job)
    requires id !in t && u == t[id := job]
    ensures Work(u) == Work(t) + Remaining(job)
  {
    SumWithout(u, u.Keys, id);
    SumUnchanged(t, u, t.Keys);
    assert u.Keys - {id} == t.Keys;
  }

  /** Every claim of a pending job uses up one of the attempts left over all jobs, and nothing but a new job adds any. */
  lemma ClaimsUseWork(s: System, e: Event)
    requires Undisturbed(s) && Enabled(s, e) && Plain(e)
    ensures Work(After(s, e).jobs) + (if Claims(s, e) then 1 else 0) <= Work(s.jobs) + Brought(e)
  {
    var t, u := s.jobs, After(s, e).jobs;
    if e.Enqueue? {
      NewRowWork(t, u, e.id, e.job);
    } else if Touched(s, e).Some? && Touched(s, e).value in t {
      var id := Touched(s, e).value;
      forall k | k in t && k != id
        ensures k in u && u[k] == t[k]
      {
        OthersUntouched(s, e, k);
      }
      RowWork(s, e, id);
      SameKeys(s, e);
      OneRowWork(t, u, id);
    } else {
      SameTable(s, e);
    }
  }

  lemma SameKeys(s: System, e: Event)
    requires KnownJobs(s) && Enabled(s, e) && Plain(e) && !e.Enqueue?
    ensures After(s, e).jobs.Keys == s.jobs.Keys
  {
  }

  lemma SameTable(s: System, e: Event)
    requires KnownJobs(s) && Enabled(s, e) && Plain(e) && !e.Enqueue?
    requires Touched(s, e).None? || Touched(s, e).value !in s.jobs
    ensures After(s, e).jobs == s.jobs
  {
  }

  /** The successful claims of a run. */
  ghost function ClaimsIn(s: System, es: seq<Event>): nat
    requires CanRun(s, es)
    decreases |es|
  {
    if es == [] then 0 else (if Claims(s, es[0]) then 1 else 0) + ClaimsIn(After(s, es[0]), es[1..])
  }

  function BroughtIn(es: seq<Event>): nat {
    if es == [] then 0 else Brought(es[0]) + BroughtIn(es[1..])
  }

  ghost predicate AllPlain(es: seq<Event>) {
    forall i :: 0 <= i < |es| ==> Plain(es[i])
  }

  /** However many workers take part and however their steps interleave, the claims of a run without
      reclaims and requeues are paid for by the attempts left at its start and those of new jobs. */
  lemma {:induction false} ClaimsAreBounded(s: System, es: seq<Event>)
    requires Undisturbed(s) && CanRun(s, es) && AllPlain(es)
    ensures ClaimsIn(s, es) + Work(Run(s, es).jobs) <= Work(s.jobs) + BroughtIn(es) && Undisturbed(Run(s, es))
    decreases |es|
  {
    if es != [] {
      assert Plain(es[0]) && AllPlain(es[1..]);
      UndisturbedStep(s, es[0]);
      ClaimsUseWork(s, es[0]);
      ClaimsAreBounded(After(s, es[0]), es[1..]);
    }
  }

  /** From the beginning: there are never more claims than the attempts that the jobs enqueued so far may use. */
  lemma ClaimsFromStart(es: seq<Event>)
    requires CanRun(START, es) && AllPlain(es)
    ensures ClaimsIn(START, es) + Work(Run(START, es).jobs) <= BroughtIn(es)
  {
    ClaimsAreBounded(START, es);
  }

  // ---------------------------------------------------------------- effective steps end

  /** A step that claims a job or takes a held one further. */
  predicate Effective(s: System, e: Event) {
    Claims(s, e) || e.Succeed? || e.GiveUp? || e.ReadAttempts? || e.Fail?
  }

  function HandlersRunning(workers: map<string, Worker>): set<string> {
    set w | w in workers && workers[w].Holding?
  }

  function Engaged(workers: map<string, Worker>): set<string> {
    set w | w in workers && !workers[w].Selected?
  }

  /** The steps that the holders have before them: two while the handler runs, one afterwards. */
  function Load(workers: map<string, Worker>): nat {
    |HandlersRunning(workers)| + |Engaged(workers)|
  }

  predicate RunsHandler(workers: map<string, Worker>, w: string) {
    w in workers && workers[w].Holding?
  }

  predicate IsEngaged(workers: map<string, Worker>, w: string) {
    w in workers && !workers[w].Selected?
  }

  lemma LoadMoves(before: map<string, Worker>, after: map<string, Worker>, w: string)
    requires forall x :: x != w ==> (x in before <==> x in after) && (x in before ==> before[x] == after[x])
    ensures Load(after) == Load(before) - Count(RunsHandler(before, w)) + Count(RunsHandler(after, w))
                           - Count(IsEngaged(before, w)) + Count(IsEngaged(after, w))
  {
    SetMove(HandlersRunning(before), HandlersRunning(after), w, RunsHandler(before, w), RunsHandler(after, w));
    SetMove(Engaged(before), Engaged(after), w, IsEngaged(before, w), IsEngaged(after, w));
  }

  lemma LoadStep(s: System, e: Event)
    requires Enabled(s, e) && Plain(e) && KnownJobs(s)
    ensures Load(After(s, e).workers) + (if Effective(s, e) then 1 else 0) <= Load(s.workers) + if Claims(s, e) then 3 else 0
  {
    if !e.Tick? && !e.Enqueue? {
      LoadMoves(s.workers, After(s, e).workers, e.worker);
    }
  }

  ghost function StepsIn(s: System, es: seq<Event>): nat
    requires CanRun(s, es)
    decreases |es|
  {
    if es == [] then 0 else (if Effective(s, es[0]) then 1 else 0) + StepsIn(After(s, es[0]), es[1..])
  }

  /** Without reclaims and requeues only so many steps can claim a job or take a held one further. */
  lemma {:induction false} StepsAreBounded(s: System, es: seq<Event>)
    requires Undisturbed(s) && CanRun(s, es) && AllPlain(es)
    ensures StepsIn(s, es) <= 3 * (Work(s.jobs) + BroughtIn(es)) + Load(s.workers)
    decreases |es|
  {
    if es != [] {
      assert Plain(es[0]) && AllPlain(es[1..]);
      UndisturbedStep(s, es[0]);
      ClaimsUseWork(s, es[0]);
      LoadStep(s, es[0]);
      StepsAreBounded(After(s, es[0]), es[1..]);
    }
  }

  /** Every running job has a live worker: no worker has crashed while it held one. */
  ghost predicate NoOrphans(s: System) {
    forall id :: id in s.jobs && s.jobs[id].status == Running ==> exists w :: w in s.workers && Holds(s.workers[w], id)
  }

  lemma NoOrphansStep(s: System, e: Event)
    requires Exclusive(s) && NoOrphans(s) && Enabled(s, e) && Plain(e) && !e.Crash?
    ensures NoOrphans(After(s, e))
  {
    var t := After(s, e);
    forall id | id in t.jobs && t.jobs[id].status == Running
      ensures exists w :: w in t.workers && Holds(t.workers[w], id)
    {
      HolderRemains(s, e, id);
    }
  }

  lemma HolderRemains(s: System, e: Event, id: string)
    requires Exclusive(s) && NoOrphans(s) && Enabled(s, e) && Plain(e) && !e.Crash?
    requires id in After(s, e).jobs && After(s, e).jobs[id].status == Running
    ensures exists w :: w in After(s, e).workers && Holds(After(s, e).workers[w], id)
  {
    var t := After(s, e);
    if Claims(s, e) && s.workers[e.worker].job == id {
      assert Holds(t.workers[e.worker], id);
    } else {
      RunningBefore(s, e, id);
      var w :| w in s.workers && Holds(s.workers[w], id);
      assert HolderAgrees(s, w);
      HolderStays(s, e, id, w);
    }
  }

  lemma RunningBefore(s: System, e: Event, id: string)
    requires Exclusive(s) && Enabled(s, e) && Plain(e) && id in After(s, e).jobs && After(s, e).jobs[id].status == Running
    requires !(Claims(s, e) && s.workers[e.worker].job == id)
    ensures id in s.jobs && s.jobs[id].status == Running && !(e.Succeed? && s.workers[e.worker].job == id)
  {
  }

  lemma HolderStays(s: System, e: Event, id: string, w: string)
    requires Exclusive(s) && Enabled(s, e) && Plain(e) && !e.Crash? && w in s.workers && Holds(s.workers[w], id)
    requires id in s.jobs && s.jobs[id].status == Running && id in After(s, e).jobs && After(s, e).jobs[id].status == Running
    ensures w in After(s, e).workers && Holds(After(s, e).workers[w], id)
  {
    assert HolderAgrees(s, w);
  }

  lemma {:induction false} LongestName(names: set<string>) returns (n: nat)
    ensures forall x :: x in names ==> |x| <= n
    decreases |names|
  {
    n := 0;
    if x :| x in names {
      var rest := names - {x};
      n := LongestName(rest);
      n := if |x| > n then |x| else n;
    }
  }

  lemma FreshName(names: set<string>) returns (w: string)
    ensures w !in names
  {
    var n := LongestName(names);
    w := seq(n + 1, _ => 'w');
  }

  /** While a job is unfinished and no worker has crashed on one, some worker can, after waiting long
      enough, take a held job further or select a job that it will then claim. */
  lemma UnfinishedGoesOn(s: System, id: string) returns (ms: nat, e: Event)
    requires Exclusive(s) && NoOrphans(s) && id in s.jobs && IsUnfinished(s.jobs[id])
    ensures var t := After(s, Tick(ms));
            && Enabled(t, e) && (Effective(t, e) || e.Select?)
            && (e.Select? ==> Enabled(After(t, e), Claim(e.worker)) && Claims(After(t, e), Claim(e.worker)))
  {
    if s.jobs[id].status == Running {
      var w :| w in s.workers && Holds(s.workers[w], id);
      assert HolderAgrees(s, w);
      ms, e := 0, if s.workers[w].Failing? then Fail(w, "") else Succeed(w);
    } else {
      ms := if s.jobs[id].runAfter > s.now then s.jobs[id].runAfter - s.now else 0;
      var t := After(s, Tick(ms));
      var k := SomeDueIsNext(t.jobs, t.jobs.Keys, id, t.now);
      var w := FreshName(t.workers.Keys);
      e := Select(w, k);
    }
  }
}
