/** `JobQueue`: the methods of one process over the shared table, and the progress of a serial worker. */
module JobQueue {
  import opened Optional
  import opened JobTable

  datatype HandlerOutcome = Returned | GaveUp(error: string) | Threw(error: string)

  type Handlers = map<string, Job -> HandlerOutcome>

  datatype ClaimedJob = ClaimedJob(id: string, job: Job)

  datatype Payload = Payload(orgId: string, jobType: string, data: string, key: Option<string>, maxAttempts: Option<int>,
                             delayMs: Option<int>)

  datatype EnqueueResult = Queued(id: string) | UniqueViolation

  /** A handler sees the row as it is after the claim. */
  function Outcome(handlers: Handlers, job: Job): HandlerOutcome {
    if job.jobType in handlers then handlers[job.jobType](job) else Threw("no handler registered for " + job.jobType)
  }

  /** The table after one job was claimed, handled and settled with nobody else running. */
  function Processed(t: Table, id: string, handlers: Handlers, worker: string, now: int, later: int): Table
    requires id in t
  {
    var claimed := ClaimUpdate(t, id, worker, now).0;
    match Outcome(handlers, claimed[id])
    case Returned => SucceedUpdate(claimed, id)
    case GaveUp(error) => SucceedUpdate(DeadLetterUpdate(claimed, id, error), id)
    case Threw(error) => FailUpdate(claimed, id, claimed[id].attempts, claimed[id].maxAttempts, later, error)
  }

  /** What becomes of the row of a job that one worker claims at `now` and settles at `later`: one more attempt;
      succeeded and unlocked if its handler returns; dead-lettered if the handler gave it up, or threw at the
      last attempt; and otherwise pending again, unlocked and due after the wait. */
  ghost predicate Settles(before: Job, after: Job, handlers: Handlers, worker: string, now: int, later: int) {
    var taken := before.(status := Running, attempts := before.attempts + 1, lockedBy := Some(worker), lockedAt := Some(now));
    if before.jobType in handlers && handlers[before.jobType](taken).Returned? then
      after == taken.(status := Succeeded, lockedBy := None)
    else if before.jobType in handlers && handlers[before.jobType](taken).GaveUp? then
      after == taken.(status := DeadLetter, lastError := Some(handlers[before.jobType](taken).error))
    else
      var error := if before.jobType in handlers then handlers[before.jobType](taken).error
                   else "no handler registered for " + before.jobType;
      if before.attempts + 1 < before.maxAttempts then
        after == taken.(status := Pending, lockedBy := None, lastError := Some(Cut(error)),
                        runAfter := later + Backoff(before.attempts + 1))
      else after == taken.(status := DeadLetter, lastError := Some(Cut(error)))
  }

  /** Processing settles the row and touches no other. */
  lemma ProcessedSettles(t: Table, id: string, handlers: Handlers, worker: string, now: int, later: int)
    requires id in t && t[id].status == Pending
    ensures var u := Processed(t, id, handlers, worker, now, later);
            && id in u && u == t[id := u[id]]
            && Settles(t[id], u[id], handlers, worker, now, later)
  {
  }

  lemma {:induction false} SomeDueIsNext(t: Table, ids: set<string>, id: string, now: int) returns (first: string)
    requires id in ids && ids <= t.Keys && IsDue(t, id, now)
    ensures first in ids && IsDue(t, first, now)
    ensures forall other :: other in ids && IsDue(t, other, now) ==> t[first].runAfter <= t[other].runAfter
    decreases |ids|
  {
    first := id;
    var rest := ids - {id};
    if other :| other in rest && IsDue(t, other, now) && t[other].runAfter < t[id].runAfter {
      first := SomeDueIsNext(t, rest, other, now);
    }
  }

  class JobQueue {
    var jobs: Table

    constructor ()
      ensures jobs == map[]
    {
      jobs := map[];
    }

    /** Enqueueing with a key that some row already has gives back that row, whatever its status; otherwise
        the new row is pending, due after the delay, none and at once by default, with five attempts by default. */
    method Enqueue(id: string, p: Payload, now: int) returns (r: EnqueueResult)
      requires UniqueKeys(jobs) && id !in jobs
      modifies this
      ensures UniqueKeys(jobs)
      ensures p.key.Some? && KeyTaken(old(jobs), p.key.value) ==>
                jobs == old(jobs) &&
                if p.key.value == "" then r == UniqueViolation
                else r.Queued? && HasKey(jobs, r.id, p.key.value)
      ensures p.key.None? || !KeyTaken(old(jobs), p.key.value) ==>
                && r == Queued(id) && jobs.Keys == old(jobs).Keys + {id}
                && (forall k :: k in old(jobs) ==> jobs[k] == old(jobs)[k])
                && jobs[id] == Job(p.orgId, p.jobType, p.data, Pending, if p.delayMs.Some? then now + p.delayMs.value else now,
                                   if p.maxAttempts.Some? then p.maxAttempts.value else 5, 0, p.key, None, None, None)
    {
      if p.key.Some? && p.key.value != "" {
        if existing :| existing in jobs && HasKey(jobs, existing, p.key.value) {
          if jobs[existing].status != Failed && jobs[existing].status != DeadLetter {
            return Queued(existing);
          }
        }
      }
      if p.key.Some? && KeyTaken(jobs, p.key.value) {
        if p.key.value != "" {
          var winner :| winner in jobs && HasKey(jobs, winner, p.key.value);
          return Queued(winner);
        }
        return UniqueViolation;
      }
      jobs := jobs[id := NewJob(p.orgId, p.jobType, p.data, p.key, p.maxAttempts, p.delayMs, now)];
      r := Queued(id);
    }

    method SelectNext(now: int) returns (next: Option<string>)
      ensures next.Some? ==> IsNext(jobs, next.value, now)
      ensures next.Some? ==> next.value in jobs && jobs[next.value].status == Pending && jobs[next.value].runAfter <= now
      ensures next.Some? ==> forall id :: id in jobs && jobs[id].status == Pending ==> jobs[next.value].runAfter <= jobs[id].runAfter
      ensures next.None? ==> forall id :: id in jobs && jobs[id].status == Pending ==> now < jobs[id].runAfter
    {
      if id :| id in jobs && IsNext(jobs, id, now) {
        next := Some(id);
      } else {
        next := None;
        forall id | id in jobs
          ensures !IsDue(jobs, id, now)
        {
          if IsDue(jobs, id, now) {
            var first := SomeDueIsNext(jobs, jobs.Keys, id, now);
            assert IsNext(jobs, first, now);
          }
        }
      }
    }

    method Claim(worker: string, now: int) returns (claimed: Option<ClaimedJob>)
      modifies this
      ensures claimed.None? ==> jobs == old(jobs) && forall id :: id in jobs ==> !IsDue(jobs, id, now)
      ensures claimed.Some? ==>
                && IsNext(old(jobs), claimed.value.id, now)
                && jobs == ClaimUpdate(old(jobs), claimed.value.id, worker, now).0
                && jobs == old(jobs)[claimed.value.id := old(jobs)[claimed.value.id].(
                     status := Running, lockedBy := Some(worker), lockedAt := Some(now), attempts := old(jobs)[claimed.value.id].attempts + 1)]
                && claimed.value.id in jobs && claimed.value.job == jobs[claimed.value.id]
    {
      var next := SelectNext(now);
      if next.None? {
        return None;
      }
      var (t, changed) := ClaimUpdate(jobs, next.value, worker, now);
      jobs := t;
      claimed := if changed then Some(ClaimedJob(next.value, jobs[next.value])) else None;
    }

    /** One claim, handler run and settlement. */
    method ProcessOne(handlers: Handlers, worker: string, now: int, later: int) returns (did: bool)
      modifies this
      ensures did <==> exists id :: IsNext(old(jobs), id, now)
      ensures !did ==> jobs == old(jobs) && forall id :: id in jobs ==> !IsDue(jobs, id, now)
      ensures did ==> exists id :: IsNext(old(jobs), id, now) && jobs == Processed(old(jobs), id, handlers, worker, now, later) &&
                        id in jobs && jobs == old(jobs)[id := jobs[id]] && Settles(old(jobs)[id], jobs[id], handlers, worker, now, later)
    {
      var claimed := Claim(worker, now);
      if claimed.None? {
        return false;
      }
      var id := claimed.value.id;
      var outcome := Outcome(handlers, claimed.value.job);
      if outcome.GaveUp? {
        jobs := DeadLetterUpdate(jobs, id, outcome.error);
      }
      if !outcome.Threw? {
        jobs := SucceedUpdate(jobs, id);
      } else {
        var attempts, maxAttempts := jobs[id].attempts, jobs[id].maxAttempts;
        jobs := FailUpdate(jobs, id, attempts, maxAttempts, later, outcome.error);
      }
      ProcessedSettles(old(jobs), id, handlers, worker, now, later);
      did := true;
    }

    method ReclaimStale(olderThanMs: int, now: int) returns (n: nat)
      modifies this
      ensures jobs == ReclaimUpdate(old(jobs), now - olderThanMs)
      ensures jobs.Keys == old(jobs).Keys
      ensures forall id :: id in jobs ==>
                jobs[id] == if old(jobs)[id].status == Running && old(jobs)[id].lockedAt.Some? && old(jobs)[id].lockedAt.value + olderThanMs < now
                            then old(jobs)[id].(status := Pending) else old(jobs)[id]
      ensures n == |set id | id in jobs && jobs[id] != old(jobs)[id]|
    {
      var stale := set id | id in jobs && IsStale(jobs[id], now - olderThanMs);
      jobs := ReclaimUpdate(jobs, now - olderThanMs);
      n := |stale|;
      assert stale == set id | id in jobs && jobs[id] != old(jobs)[id];
    }

    method RetryDeadLetter(id: string, now: int) returns (found: bool)
      modifies this
      ensures found <==> id in old(jobs) && old(jobs)[id].status == DeadLetter
      ensures jobs == RequeueUpdate(old(jobs), id, now).0
      ensures jobs == if found then old(jobs)[id := old(jobs)[id].(status := Pending, attempts := 0, lastError := None, runAfter := now)]
                      else old(jobs)
    {
      var (t, changed) := RequeueUpdate(jobs, id, now);
      jobs, found := t, changed;
    }
  }
}
