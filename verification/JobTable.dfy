/** The `jobs` table and the statements that `JobQueue` runs against it, one function a statement. */
module JobTable {
  import opened Optional

  datatype Status = Pending | Running | Succeeded | Failed | DeadLetter | Cancelled

  datatype Job = Job(
    orgId: string, jobType: string, data: string, status: Status, runAfter: int, maxAttempts: int, attempts: nat,
    key: Option<string>, lockedBy: Option<string>, lockedAt: Option<int>, lastError: Option<string>)

  type Table = map<string, Job>

  function Pow2(n: nat): nat {
    if n == 0 then 1 else 2 * Pow2(n - 1)
  }

  /** Exponential backoff, capped at a minute. */
  function Backoff(attempts: nat): (ms: nat)
    ensures 500 <= ms <= 60_000
  {
    PowerIsPositive(attempts);
    if 500 * Pow2(attempts) < 60_000 then 500 * Pow2(attempts) else 60_000
  }

  /** The wait doubles with every attempt until it reaches a minute at the seventh. */
  lemma BackoffDoubles(attempts: nat)
    ensures Backoff(0) == 500
    ensures Backoff(attempts + 1) == if 2 * Backoff(attempts) < 60_000 then 2 * Backoff(attempts) else 60_000
  {
    PowerIsPositive(attempts);
  }

  lemma {:induction false} PowerIsPositive(n: nat)
    ensures Pow2(n) >= 1
  {
    if n > 0 {
      PowerIsPositive(n - 1);
    }
  }

  predicate IsDue(t: Table, id: string, now: int) {
    id in t && t[id].status == Pending && t[id].runAfter <= now
  }

  /** What the claim query may return: a due job that no other due job precedes. */
  predicate IsNext(t: Table, id: string, now: int) {
    IsDue(t, id, now) && forall other :: other in t && IsDue(t, other, now) ==> t[id].runAfter <= t[other].runAfter
  }

  /** `UPDATE ... SET status='running' ... WHERE id=? AND status='pending'`. */
  function ClaimUpdate(t: Table, id: string, worker: string, now: int): (Table, bool) {
    if id in t && t[id].status == Pending then
      (t[id := t[id].(status := Running, lockedBy := Some(worker), lockedAt := Some(now), attempts := t[id].attempts + 1)], true)
    else (t, false)
  }

  /** `UPDATE ... SET status='succeeded' ... WHERE id=? AND status='running'`. */
  function SucceedUpdate(t: Table, id: string): Table {
    if id in t && t[id].status == Running then t[id := t[id].(status := Succeeded, lockedBy := None)] else t
  }

  /** Error messages are stored up to a length. */
  function Cut(message: string): (kept: string)
    ensures kept <= message && |kept| == if |message| < 2000 then |message| else 2000
  {
    if |message| <= 2000 then message else message[..2000]
  }

  /** The failure path: no condition on the status of the row. */
  function FailUpdate(t: Table, id: string, attempts: nat, maxAttempts: int, now: int, error: string): Table
    requires id in t
  {
    if attempts >= maxAttempts then t[id := t[id].(status := DeadLetter, lastError := Some(Cut(error)))]
    else t[id := t[id].(status := Pending, lastError := Some(Cut(error)), runAfter := now + Backoff(attempts), lockedBy := None)]
  }

  /** What a handler does that gives a job up for good. */
  function DeadLetterUpdate(t: Table, id: string, error: string): Table
    requires id in t
  {
    t[id := t[id].(status := DeadLetter, lastError := Some(error))]
  }

  predicate IsStale(job: Job, cutoff: int) {
    job.status == Running && job.lockedAt.Some? && job.lockedAt.value < cutoff
  }

  function ReclaimUpdate(t: Table, cutoff: int): Table {
    map id | id in t :: if IsStale(t[id], cutoff) then t[id].(status := Pending) else t[id]
  }

  function RequeueUpdate(t: Table, id: string, now: int): (Table, bool) {
    if id in t && t[id].status == DeadLetter then
      (t[id := t[id].(status := Pending, attempts := 0, lastError := None, runAfter := now)], true)
    else (t, false)
  }

  function NewJob(orgId: string, jobType: string, data: string, key: Option<string>, maxAttempts: Option<int>,
                  delayMs: Option<int>, now: int): Job {
    Job(orgId, jobType, data, Pending, now + (if delayMs.Some? then delayMs.value else 0),
        if maxAttempts.Some? then maxAttempts.value else 5, 0, key, None, None, None)
  }

  /** The unique index on the idempotency key. */
  ghost predicate UniqueKeys(t: Table) {
    forall a, b :: a in t && b in t && a != b && t[a].key.Some? ==> t[a].key != t[b].key
  }

  predicate HasKey(t: Table, id: string, key: string) {
    id in t && t[id].key == Some(key)
  }

  predicate KeyTaken(t: Table, key: string) {
    exists id :: id in t && HasKey(t, id, key)
  }
}
