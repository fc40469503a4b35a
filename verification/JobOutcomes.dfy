/** Why a job ended as it did: in every interleaving a succeeded job was settled by a worker that had claimed it,
    and a dead-lettered one was given up, or failed with no attempt left. */
module JobOutcomes {
  import opened JobTable
  import opened JobProtocol

  /** This event marks the running job succeeded, for a worker that ran its handler. */
  ghost predicate MarksSucceeded(s: System, e: Event, id: string) {
    && e.Succeed? && e.worker in s.workers && Holds(s.workers[e.worker], id)
    && id in s.jobs && s.jobs[id].status == Running
  }

  /** This event dead-letters the job: the handler gives it up, or threw and had read that no attempt is left. */
  ghost predicate MarksDead(s: System, e: Event, id: string) {
    || (e.GiveUp? && e.worker in s.workers && s.workers[e.worker] == Holding(id))
    || (e.Fail? && e.worker in s.workers && s.workers[e.worker].Failing? && s.workers[e.worker].job == id
        && s.workers[e.worker].attempts >= s.workers[e.worker].maxAttempts)
  }

  /** The worker claimed the job while it was pending. */
  ghost predicate Claims(s: System, e: Event, w: string, id: string) {
    e == Claim(w) && w in s.workers && s.workers[w] == Selected(id) && id in s.jobs && s.jobs[id].status == Pending
  }

  lemma {:induction false} PrefixRuns(s: System, es: seq<Event>, k: nat)
    requires CanRun(s, es) && k <= |es|
    ensures CanRun(s, es[..k])
    ensures CanRun(Run(s, es[..k]), es[k..]) && Run(Run(s, es[..k]), es[k..]) == Run(s, es)
    decreases k
  {
    if k == 0 {
      assert es[..0] == [] && es[0..] == es;
    } else {
      PrefixRuns(After(s, es[0]), es[1..], k - 1);
      assert es[..k][1..] == es[1..][..k - 1] && es[k..] == es[1..][k - 1..];
    }
  }

  /** The last event of a run, and the state before it. */
  lemma LastStep(s: System, es: seq<Event>) returns (before: System, e: Event)
    requires CanRun(s, es) && es != []
    ensures CanRun(s, es[..|es| - 1]) && before == Run(s, es[..|es| - 1]) && e == es[|es| - 1]
    ensures Enabled(before, e) && Run(s, es) == After(before, e)
  {
    var n := |es| - 1;
    PrefixRuns(s, es, n);
    before, e := Run(s, es[..n]), es[n];
    assert es[n..][0] == e && es[n..][1..] == [];
  }

  lemma SucceedsByMark(s: System, e: Event, id: string)
    requires Enabled(s, e) && id in After(s, e).jobs && After(s, e).jobs[id].status == Succeeded
    ensures (id in s.jobs && s.jobs[id].status == Succeeded) || MarksSucceeded(s, e, id)
  {
  }

  lemma DiesByMark(s: System, e: Event, id: string)
    requires Enabled(s, e) && id in After(s, e).jobs && After(s, e).jobs[id].status == DeadLetter
    ensures (id in s.jobs && s.jobs[id].status == DeadLetter) || MarksDead(s, e, id)
  {
  }

  lemma HoldsByClaim(s: System, e: Event, w: string, id: string)
    requires Enabled(s, e) && w in After(s, e).workers && Holds(After(s, e).workers[w], id)
    ensures (w in s.workers && Holds(s.workers[w], id)) || Claims(s, e, w, id)
  {
  }

  lemma {:induction false} SucceededWasMarked(es: seq<Event>, id: string) returns (k: nat)
    requires CanRun(START, es) && id in Run(START, es).jobs && Run(START, es).jobs[id].status == Succeeded
    ensures k < |es| && CanRun(START, es[..k]) && MarksSucceeded(Run(START, es[..k]), es[k], id)
    decreases |es|
  {
    var n := |es| - 1;
    var before, e := LastStep(START, es);
    SucceedsByMark(before, e, id);
    if MarksSucceeded(before, e, id) {
      k := n;
    } else {
      k := SucceededWasMarked(es[..n], id);
      assert es[..n][..k] == es[..k];
    }
  }

  lemma {:induction false} DeadWasMarked(es: seq<Event>, id: string) returns (k: nat)
    requires CanRun(START, es) && id in Run(START, es).jobs && Run(START, es).jobs[id].status == DeadLetter
    ensures k < |es| && CanRun(START, es[..k]) && MarksDead(Run(START, es[..k]), es[k], id)
    decreases |es|
  {
    var n := |es| - 1;
    var before, e := LastStep(START, es);
    DiesByMark(before, e, id);
    if MarksDead(before, e, id) {
      k := n;
    } else {
      k := DeadWasMarked(es[..n], id);
      assert es[..n][..k] == es[..k];
    }
  }

  lemma {:induction false} HolderClaimed(es: seq<Event>, w: string, id: string) returns (k: nat)
    requires CanRun(START, es) && w in Run(START, es).workers && Holds(Run(START, es).workers[w], id)
    ensures k < |es| && CanRun(START, es[..k]) && Claims(Run(START, es[..k]), es[k], w, id)
    decreases |es|
  {
    var n := |es| - 1;
    var before, e := LastStep(START, es);
    HoldsByClaim(before, e, w, id);
    if Claims(before, e, w, id) {
      k := n;
    } else {
      k := HolderClaimed(es[..n], w, id);
      assert es[..n][..k] == es[..k];
    }
  }

  /** The worker reads that the job has used `attempts` of `maxAttempts`. */
  ghost predicate ReadsUse(s: System, e: Event, w: string, id: string, attempts: nat, maxAttempts: int) {
    && e == ReadAttempts(w) && w in s.workers && s.workers[w] == Holding(id)
    && id in s.jobs && s.jobs[id].attempts == attempts && s.jobs[id].maxAttempts == maxAttempts
  }

  lemma FailsByRead(s: System, e: Event, w: string, id: string, attempts: nat, maxAttempts: int)
    requires Enabled(s, e) && w in After(s, e).workers && After(s, e).workers[w] == Failing(id, attempts, maxAttempts)
    ensures (w in s.workers && s.workers[w] == Failing(id, attempts, maxAttempts)) || ReadsUse(s, e, w, id, attempts, maxAttempts)
  {
  }

  lemma {:induction false} FailingHasRead(es: seq<Event>, w: string, id: string, attempts: nat, maxAttempts: int) returns (k: nat)
    requires CanRun(START, es) && w in Run(START, es).workers && Run(START, es).workers[w] == Failing(id, attempts, maxAttempts)
    ensures k < |es| && CanRun(START, es[..k]) && ReadsUse(Run(START, es[..k]), es[k], w, id, attempts, maxAttempts)
    decreases |es|
  {
    var n := |es| - 1;
    var before, e := LastStep(START, es);
    FailsByRead(before, e, w, id, attempts, maxAttempts);
    if ReadsUse(before, e, w, id, attempts, maxAttempts) {
      k := n;
    } else {
      k := FailingHasRead(es[..n], w, id, attempts, maxAttempts);
      assert es[..n][..k] == es[..k];
    }
  }

  // ---------------------------------------------------------------- theorems

  /** A job has succeeded only if some worker claimed it pending and later marked it, still running, after
      its handler had returned. */
  lemma SucceededAfterClaim(es: seq<Event>, id: string) returns (j: nat, k: nat)
    requires CanRun(START, es) && id in Run(START, es).jobs && Run(START, es).jobs[id].status == Succeeded
    ensures j < k < |es| && CanRun(START, es[..j]) && CanRun(START, es[..k])
    ensures es[k].Succeed? && Claims(Run(START, es[..j]), es[j], es[k].worker, id)
    ensures var s := Run(START, es[..k]); id in s.jobs && s.jobs[id].status == Running
  {
    k := SucceededWasMarked(es, id);
    j := HolderClaimed(es[..k], es[k].worker, id);
    assert es[..k][..j] == es[..j];
  }

  /** A job is dead-lettered only if some worker claimed it pending and later either its handler gave it up,
      or it threw and the worker had read that the limit was reached. */
  lemma DeadAfterClaim(es: seq<Event>, id: string) returns (j: nat, r: nat, k: nat)
    requires CanRun(START, es) && id in Run(START, es).jobs && Run(START, es).jobs[id].status == DeadLetter
    ensures j <= r <= k < |es| && j < k && CanRun(START, es[..j]) && CanRun(START, es[..r])
    ensures es[k].GiveUp? || es[k].Fail?
    ensures Claims(Run(START, es[..j]), es[j], es[k].worker, id)
    ensures es[k].Fail? ==>
              var s := Run(START, es[..r]);
              && es[r] == ReadAttempts(es[k].worker) && es[k].worker in s.workers && s.workers[es[k].worker] == Holding(id)
              && id in s.jobs && s.jobs[id].attempts >= s.jobs[id].maxAttempts
  {
    k := DeadWasMarked(es, id);
    if es[k].GiveUp? {
      j := HolderClaimed(es[..k], es[k].worker, id);
      r := j;
    } else {
      var f := Run(START, es[..k]).workers[es[k].worker];
      r := FailingHasRead(es[..k], es[k].worker, id, f.attempts, f.maxAttempts);
      assert es[..k][..r] == es[..r];
      j := HolderClaimed(es[..r], es[k].worker, id);
    }
    assert es[..r][..j] == es[..j] && es[..k][..j] == es[..j];
  }
}
