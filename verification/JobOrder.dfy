/** In which order due jobs are taken, over whole runs of any number of workers. */
module JobOrder {
  import opened Optional
  import opened JobTable
  import opened JobProtocol
  import opened JobSafety

  /** The pending jobs that are due no later than job `j`. */
  function AheadOf(t: Table, j: string): set<string>
    requires j in t
  {
    set k | k in t && t[k].status == Pending && t[k].runAfter <= t[j].runAfter
  }

  predicate IsOverdue(s: System, j: string) {
    IsDue(s.jobs, j, s.now) && s.jobs[j].runAfter < s.now
  }

  /** Nothing is reclaimed, and job `j` is neither selected nor changed. */
  ghost predicate Waits(s: System, es: seq<Event>, j: string)
    requires CanRun(s, es)
    decreases |es|
  {
    es != [] ==>
      && !es[0].Reclaim? && !(es[0].Select? && es[0].id == j)
      && j in s.jobs && j in After(s, es[0]).jobs && After(s, es[0]).jobs[j] == s.jobs[j]
      && Waits(After(s, es[0]), es[1..], j)
  }

  /** A claim of a job that is ahead of `j`. */
  predicate ClaimsAhead(s: System, e: Event, j: string) {
    e.Claim? && e.worker in s.workers && j in s.jobs && s.workers[e.worker].job in AheadOf(s.jobs, j) - {j}
  }

  ghost function Overtakings(s: System, es: seq<Event>, j: string): nat
    requires CanRun(s, es)
    decreases |es|
  {
    if es == [] then 0 else (if ClaimsAhead(s, es[0], j) then 1 else 0) + Overtakings(After(s, es[0]), es[1..], j)
  }

  lemma AheadShrinks(s: System, e: Event, j: string)
    requires Enabled(s, e) && !e.Reclaim? && IsOverdue(s, j)
    requires j in After(s, e).jobs && After(s, e).jobs[j] == s.jobs[j]
    ensures AheadOf(After(s, e).jobs, j) <= AheadOf(s.jobs, j) && IsOverdue(After(s, e), j)
    ensures ClaimsAhead(s, e, j) ==> s.workers[e.worker].job !in AheadOf(After(s, e).jobs, j)
  {
  }

  lemma AheadCounts(s: System, e: Event, j: string)
    requires Enabled(s, e) && !e.Reclaim? && IsOverdue(s, j)
    requires j in After(s, e).jobs && After(s, e).jobs[j] == s.jobs[j]
    ensures |AheadOf(After(s, e).jobs, j)| + (if ClaimsAhead(s, e, j) then 1 else 0) <= |AheadOf(s.jobs, j)|
  {
    var before, after := AheadOf(s.jobs, j), AheadOf(After(s, e).jobs, j);
    AheadShrinks(s, e, j);
    if ClaimsAhead(s, e, j) {
      SizeOfPart(after, before - {s.workers[e.worker].job});
    } else {
      SizeOfPart(after, before);
    }
  }

  lemma SizeOfPart(a: set<string>, b: set<string>)
    requires a <= b
    ensures |a| <= |b|
  {
    assert b == a + (b - a);
  }

  /** While an overdue job waits, along every run without reclaims only jobs that were ahead of it at the
      start are selected, no job joins them, and each of them is claimed at most once. */
  lemma {:induction false} OverdueJobsAreNext(s: System, es: seq<Event>, j: string)
    requires IsOverdue(s, j) && CanRun(s, es) && Waits(s, es, j)
    ensures var t := Run(s, es);
            && IsOverdue(t, j) && AheadOf(t.jobs, j) <= AheadOf(s.jobs, j)
            && (forall w, k :: Select(w, k) in es ==> k in AheadOf(s.jobs, j))
            && Overtakings(s, es, j) + |AheadOf(t.jobs, j)| <= |AheadOf(s.jobs, j)|
    decreases |es|
  {
    if es != [] {
      var e, t := es[0], After(s, es[0]);
      AheadShrinks(s, e, j);
      AheadCounts(s, e, j);
      OverdueJobsAreNext(t, es[1..], j);
      forall w, k | Select(w, k) in es
        ensures k in AheadOf(s.jobs, j)
      {
        if Select(w, k) == e {
          PicksByDueTime(s, w, k, j);
        } else {
          assert Select(w, k) in es[1..];
        }
      }
    }
  }

  lemma PicksByDueTime(s: System, w: string, k: string, j: string)
    requires Enabled(s, Select(w, k)) && IsDue(s.jobs, j, s.now)
    ensures k in AheadOf(s.jobs, j)
  {
  }

  // ---------------------------------------------------------------- waiting undisturbed

  /** No worker is about to claim job `j`. */
  ghost predicate Unselected(s: System, j: string) {
    forall w :: w in s.workers ==> s.workers[w] != Selected(j)
  }

  lemma WaitsOn(s: System, e: Event, j: string)
    requires Exclusive(s) && Enabled(s, e) && LeavesHoldersAlone(s, e) && !e.Reclaim? && !(e.Select? && e.id == j)
    requires j in s.jobs && s.jobs[j].status == Pending && Unselected(s, j)
    ensures j in After(s, e).jobs && After(s, e).jobs[j] == s.jobs[j] && Unselected(After(s, e), j)
  {
    if e.Claim? || e.Succeed? || e.GiveUp? || e.Fail? {
      assert HolderAgrees(s, e.worker);
    }
  }

  /** When live holders are left alone, a pending job waits unchanged as long as nobody selects it. */
  lemma {:induction false} UnselectedWaits(s: System, es: seq<Event>, j: string)
    requires Exclusive(s) && CanRun(s, es) && QuietRun(s, es)
    requires j in s.jobs && s.jobs[j].status == Pending && Unselected(s, j)
    requires forall i :: 0 <= i < |es| ==> !es[i].Reclaim? && !(es[i].Select? && es[i].id == j)
    ensures Waits(s, es, j)
    decreases |es|
  {
    if es != [] {
      assert !es[0].Reclaim? && !(es[0].Select? && es[0].id == j);
      WaitsOn(s, es[0], j);
      ExclusiveStep(s, es[0]);
      UnselectedWaits(After(s, es[0]), es[1..], j);
    }
  }

  /** At the very instant a job falls due, a new job may still join the jobs due no later. */
  lemma DueQueueMayGrow(s: System, j: string, k: string)
    requires IsDue(s.jobs, j, s.now) && s.jobs[j].runAfter == s.now && k !in s.jobs
    ensures var e := Enqueue(k, NewJob("org", "type", "{}", None, None, None, s.now));
            Enabled(s, e) && k in AheadOf(After(s, e).jobs, j) && k !in AheadOf(s.jobs, j)
  {
  }
}
