/** The two rate-limit stores: pruned in-memory buckets and an UPSERT counter table. */
module RateLimit {
  import opened Optional

  datatype RouteClass = Default | Dispatch

  datatype Limits = Limits(windowMs: int, standard: int, dispatch: int)

  datatype Request = Request(org: string, keyHash: string, route: RouteClass, now: int)

  datatype Bucket = Bucket(count: nat, windowStart: int)

  datatype Answer = Answer(allowed: bool, remaining: int, limit: int, retryAfterMs: Option<int>, windowStart: int)

  function LimitOf(l: Limits, r: RouteClass): int {
    if r == Dispatch then l.dispatch else l.standard
  }

  function ClassName(r: RouteClass): string {
    if r == Dispatch then "dispatch" else "default"
  }

  /** The key of an in-memory bucket. */
  function BucketId(r: Request): string {
    r.org + "|" + r.keyHash + "|" + ClassName(r.route)
  }

  function RowKey(r: Request): (string, string, RouteClass) {
    (r.org, r.keyHash, r.route)
  }

  // ---------------------------------------------------------------- in-memory store

  datatype Memory = Memory(buckets: map<string, Bucket>, lastPrune: int)

  function Pruned(buckets: map<string, Bucket>, now: int): map<string, Bucket> {
    map k | k in buckets && now - buckets[k].windowStart <= 600_000 :: buckets[k]
  }

  function PruneStep(m: Memory, now: int): Memory {
    if now - m.lastPrune >= 60_000 then Memory(Pruned(m.buckets, now), now) else m
  }

  function MemoryStep(l: Limits, m: Memory, r: Request): (Memory, Answer) {
    var p := PruneStep(m, r.now);
    var id, limit := BucketId(r), LimitOf(l, r.route);
    if id !in p.buckets || r.now - p.buckets[id].windowStart >= l.windowMs then
      (p.(buckets := p.buckets[id := Bucket(1, r.now)]), Answer(true, limit - 1, limit, None, r.now))
    else
      var b := p.buckets[id];
      var count := b.count + 1;
      (p.(buckets := p.buckets[id := Bucket(count, b.windowStart)]),
       if count > limit then Answer(false, 0, limit, Some(l.windowMs - (r.now - b.windowStart)), b.windowStart)
       else Answer(true, limit - count, limit, None, b.windowStart))
  }

  class MemoryStore {
    const limits: Limits
    var buckets: map<string, Bucket>
    var lastPrune: int

    function State(): Memory
      reads this
    {
      Memory(buckets, lastPrune)
    }

    constructor (limits: Limits)
      ensures this.limits == limits && State() == Memory(map[], 0)
    {
      this.limits := limits;
      buckets, lastPrune := map[], 0;
    }

    method Prune(now: int)
      modifies this`buckets
      ensures buckets == Pruned(old(buckets), now)
    {
      var rest := buckets.Keys;
      while rest != {}
        invariant rest <= old(buckets).Keys
        invariant buckets.Keys == set k | k in old(buckets) && (k in rest || now - old(buckets)[k].windowStart <= 600_000)
        invariant forall k :: k in buckets ==> buckets[k] == old(buckets)[k]
        decreases rest
      {
        var k :| k in rest;
        if now - buckets[k].windowStart > 600_000 {
          buckets := buckets - {k};
        }
        rest := rest - {k};
      }
    }

    method Check(r: Request) returns (a: Answer)
      modifies this
      ensures (State(), a) == MemoryStep(limits, old(State()), r)
      ensures var id, limit := r.org + "|" + r.keyHash + "|" + (if r.route == Dispatch then "dispatch" else "default"), if r.route == Dispatch then limits.dispatch else limits.standard;
              && lastPrune == (if r.now - old(lastPrune) >= 60_000 then r.now else old(lastPrune))
              && (forall k :: k in buckets && k != id ==> k in old(buckets))
              && (forall k :: k in old(buckets) && k != id ==>
                    (k !in buckets <==> r.now - old(lastPrune) >= 60_000 && r.now - old(buckets)[k].windowStart > 600_000))
              && (forall k :: k in buckets && k != id ==> buckets[k] == old(buckets)[k])
              && id in buckets && buckets[id].count >= 1 && a.limit == limit && a.windowStart == buckets[id].windowStart
              && (if id in old(buckets) && r.now - old(buckets)[id].windowStart < limits.windowMs &&
                     !(r.now - old(lastPrune) >= 60_000 && r.now - old(buckets)[id].windowStart > 600_000)
                  then buckets[id] == Bucket(old(buckets)[id].count + 1, old(buckets)[id].windowStart) &&
                       a.allowed == (buckets[id].count <= limit)
                  else buckets[id] == Bucket(1, r.now) && a.allowed)
              && (a.allowed ==> a.remaining == limit - buckets[id].count && a.retryAfterMs == None)
              && (!a.allowed ==> a.remaining == 0 && a.retryAfterMs == Some(a.windowStart + limits.windowMs - r.now))
    {
      var limit := LimitOf(limits, r.route);
      var id := BucketId(r);
      if r.now - lastPrune >= 60_000 {
        lastPrune := r.now;
        Prune(r.now);
      }
      if id !in buckets || r.now - buckets[id].windowStart >= limits.windowMs {
        buckets := buckets[id := Bucket(1, r.now)];
        return Answer(true, limit - 1, limit, None, r.now);
      }
      var b := buckets[id];
      var count := b.count + 1;
      buckets := buckets[id := Bucket(count, b.windowStart)];
      if count > limit {
        return Answer(false, 0, limit, Some(limits.windowMs - (r.now - b.windowStart)), b.windowStart);
      }
      return Answer(true, limit - count, limit, None, b.windowStart);
    }
  }

  // ---------------------------------------------------------------- counter table

  type Table = map<(string, string, RouteClass), Bucket>

  /** `INSERT ... ON CONFLICT DO UPDATE ... RETURNING count, window_start`. */
  function Upserted(row: Option<Bucket>, now: int, windowMs: int): Bucket {
    if row.None? || row.value.windowStart <= now - windowMs then Bucket(1, now)
    else Bucket(row.value.count + 1, row.value.windowStart)
  }

  function RowOf(t: Table, r: Request): Option<Bucket> {
    if RowKey(r) in t then Some(t[RowKey(r)]) else None
  }

  function AnswerFor(b: Bucket, now: int, windowMs: int, limit: int): Answer {
    if b.count > limit then Answer(false, 0, limit, Some(windowMs - (now - b.windowStart)), b.windowStart)
    else Answer(true, limit - b.count, limit, None, b.windowStart)
  }

  function TableStep(l: Limits, t: Table, r: Request): (Table, Answer) {
    var b := Upserted(RowOf(t, r), r.now, l.windowMs);
    (t[RowKey(r) := b], AnswerFor(b, r.now, l.windowMs, LimitOf(l, r.route)))
  }

  class PostgresStore {
    const limits: Limits
    var counters: Table

    constructor (limits: Limits)
      ensures this.limits == limits && counters == map[]
    {
      this.limits := limits;
      counters := map[];
    }

    method Check(r: Request) returns (a: Answer)
      modifies this
      ensures (counters, a) == TableStep(limits, old(counters), r)
      ensures var key, limit := (r.org, r.keyHash, r.route), if r.route == Dispatch then limits.dispatch else limits.standard;
              && key in counters && counters == old(counters)[key := counters[key]]
              && counters[key] == (if key in old(counters) && r.now - limits.windowMs < old(counters)[key].windowStart
                                   then Bucket(old(counters)[key].count + 1, old(counters)[key].windowStart) else Bucket(1, r.now))
              && a.limit == limit && a.windowStart == counters[key].windowStart && a.allowed == (counters[key].count <= limit)
              && (a.allowed ==> a.remaining == limit - counters[key].count && a.retryAfterMs == None)
              && (!a.allowed ==> a.remaining == 0 && a.retryAfterMs == Some(a.windowStart + limits.windowMs - r.now))
    {
      var limit := LimitOf(limits, r.route);
      var row := Upserted(RowOf(counters, r), r.now, limits.windowMs);
      counters := counters[RowKey(r) := row];
      if row.count > limit {
        return Answer(false, 0, limit, Some(limits.windowMs - (r.now - row.windowStart)), row.windowStart);
      }
      return Answer(true, limit - row.count, limit, None, row.windowStart);
    }
  }
}
