/** When the two stores answer alike, and what both promise a caller. */
module RateLimitEquivalence {
  import opened Optional
  import opened RateLimit

  /** Requests in time order, from callers whose key hashes contain no separator. */
  ghost predicate InTime(rs: seq<Request>, from: int) {
    && (forall i :: 0 <= i < |rs| ==> rs[i].now >= from && '|' !in rs[i].keyHash)
    && forall i, j :: 0 <= i <= j < |rs| ==> rs[i].now <= rs[j].now
  }

  function MemoryAnswers(l: Limits, m: Memory, rs: seq<Request>): (answers: seq<Answer>)
    ensures |answers| == |rs|
    decreases |rs|
  {
    if rs == [] then [] else
      var (n, a) := MemoryStep(l, m, rs[0]);
      [a] + MemoryAnswers(l, n, rs[1..])
  }

  function TableAnswers(l: Limits, t: Table, rs: seq<Request>): (answers: seq<Answer>)
    ensures |answers| == |rs|
    decreases |rs|
  {
    if rs == [] then [] else
      var (u, a) := TableStep(l, t, rs[0]);
      [a] + TableAnswers(l, u, rs[1..])
  }

  // ---------------------------------------------------------------- bucket ids

  lemma {:induction false} LastBar(a: string, x: string, b: string, y: string)
    requires '|' !in x && '|' !in y && a + "|" + x == b + "|" + y
    ensures a == b && x == y
  {
    var s := a + "|" + x;
    assert s[|a|] == '|' && s[|b|] == '|';
    assert forall i :: |a| < i < |s| ==> s[i] == x[i - |a| - 1];
    assert forall i :: |b| < i < |s| ==> s[i] == y[i - |b| - 1];
    assert |a| == |b|;
    assert a == s[..|a|] == b;
    assert x == s[|a| + 1..] == y;
  }

  lemma ClassNameHasNoBar(r: RouteClass)
    ensures '|' !in ClassName(r)
  {
  }

  /** Joining the three parts keeps them apart when the key hash has no separator in it. */
  lemma BucketIdInjective(r: Request, s: Request)
    requires '|' !in r.keyHash && '|' !in s.keyHash
    ensures BucketId(r) == BucketId(s) <==> RowKey(r) == RowKey(s)
  {
    if BucketId(r) == BucketId(s) {
      ClassNameHasNoBar(r.route);
      ClassNameHasNoBar(s.route);
      LastBar(r.org + "|" + r.keyHash, ClassName(r.route), s.org + "|" + s.keyHash, ClassName(s.route));
      LastBar(r.org, r.keyHash, s.org, s.keyHash);
      assert ClassName(r.route)[1] == ClassName(s.route)[1];
    }
  }

  // ---------------------------------------------------------------- equivalence

  /** The stores agree on the row of one request, except that memory may have forgotten an expired one. */
  ghost predicate Agree(l: Limits, m: Memory, t: Table, now: int, r: Request) {
    var id, key := BucketId(r), RowKey(r);
    && (id in m.buckets ==> key in t && t[key] == m.buckets[id])
    && (id !in m.buckets && key in t ==> t[key].windowStart <= now - l.windowMs)
  }

  ghost predicate Matching(l: Limits, m: Memory, t: Table, now: int) {
    forall r: Request :: '|' !in r.keyHash ==> Agree(l, m, t, now, r)
  }

  lemma PruneKeepsAgreement(l: Limits, m: Memory, t: Table, now: int, later: int, r: Request)
    requires l.windowMs <= 600_001 && now <= later && Agree(l, m, t, now, r)
    ensures Agree(l, PruneStep(m, later), t, later, r)
  {
  }

  lemma StepAgrees(l: Limits, m: Memory, t: Table, now: int, r: Request, s: Request)
    requires l.windowMs <= 600_001 && now <= r.now && LimitOf(l, r.route) >= 1
    requires '|' !in r.keyHash && '|' !in s.keyHash && Agree(l, m, t, now, r) && Agree(l, m, t, now, s)
    ensures MemoryStep(l, m, r).1 == TableStep(l, t, r).1
    ensures Agree(l, MemoryStep(l, m, r).0, TableStep(l, t, r).0, r.now, s)
  {
    PruneKeepsAgreement(l, m, t, now, r.now, r);
    PruneKeepsAgreement(l, m, t, now, r.now, s);
    BucketIdInjective(r, s);
  }

  lemma {:induction false} AnswersAgree(l: Limits, m: Memory, t: Table, now: int, rs: seq<Request>)
    requires l.windowMs <= 600_001 && l.standard >= 1 && l.dispatch >= 1
    requires Matching(l, m, t, now) && InTime(rs, now)
    ensures MemoryAnswers(l, m, rs) == TableAnswers(l, t, rs)
    decreases |rs|
  {
    if rs != [] {
      var r := rs[0];
      var n, u := MemoryStep(l, m, r).0, TableStep(l, t, r).0;
      assert Agree(l, m, t, now, r);
      forall s: Request | '|' !in s.keyHash
        ensures Agree(l, n, u, r.now, s)
      {
        assert Agree(l, m, t, now, s);
        StepAgrees(l, m, t, now, r, s);
      }
      StepAgrees(l, m, t, now, r, r);
      AnswersAgree(l, n, u, r.now, rs[1..]);
    }
  }

  /** The stores give the same answers to every request sequence. */
  ghost predicate Equivalent(l: Limits) {
    forall rs :: InTime(rs, 0) ==> SameAnswers(l, rs)
  }

  ghost predicate SameAnswers(l: Limits, rs: seq<Request>) {
    MemoryAnswers(l, Memory(map[], 0), rs) == TableAnswers(l, map[], rs)
  }

  // ---------------------------------------------------------------- where they differ

  function Repeat(r: Request, n: nat): seq<Request> {
    if n == 0 then [] else [r] + Repeat(r, n - 1)
  }

  /** After `k` requests at time 0 both stores hold a count of `k`; a further `n` and a late one follow. */
  lemma {:induction false} LateAnswers(l: Limits, m: Memory, t: Table, r: Request, late: Request, k: nat, n: nat)
    requires l.windowMs > 600_001 && LimitOf(l, r.route) >= 1 && k + n == LimitOf(l, r.route) && k >= 1
    requires r.now == 0 && late == r.(now := 600_001)
    requires m == Memory(map[BucketId(r) := Bucket(k, 0)], 0) && t == map[RowKey(r) := Bucket(k, 0)]
    ensures MemoryAnswers(l, m, Repeat(r, n) + [late]) != TableAnswers(l, t, Repeat(r, n) + [late])
    decreases n
  {
    var rs := Repeat(r, n) + [late];
    if n == 0 {
      assert rs == [late] && rs[1..] == [];
      assert Pruned(m.buckets, late.now) == map[];
      assert MemoryAnswers(l, m, rs)[0].allowed && !TableAnswers(l, t, rs)[0].allowed;
    } else {
      var m', t' := Memory(map[BucketId(r) := Bucket(k + 1, 0)], 0), map[RowKey(r) := Bucket(k + 1, 0)];
      assert rs[0] == r && rs[1..] == Repeat(r, n - 1) + [late];
      assert MemoryStep(l, m, r).0 == m' && TableStep(l, t, r).0 == t';
      LateAnswers(l, m', t', r, late, k + 1, n - 1);
      var a, b := MemoryAnswers(l, m, rs), TableAnswers(l, t, rs);
      assert a[1..] == MemoryAnswers(l, m', rs[1..]) && b[1..] == TableAnswers(l, t', rs[1..]);
    }
  }

  lemma {:induction false} RepeatInTime(r: Request, late: Request, n: nat)
    requires r.now == 0 && late.now >= 0 && '|' !in r.keyHash && '|' !in late.keyHash
    ensures InTime(Repeat(r, n) + [late], 0)
    ensures forall i :: 0 <= i < |Repeat(r, n)| ==> Repeat(r, n)[i] == r
  {
    if n > 0 {
      RepeatInTime(r, late, n - 1);
    }
  }

  lemma LongWindowsDiffer(l: Limits, route: RouteClass)
    requires l.windowMs > 600_001 && LimitOf(l, route) >= 1
    ensures !Equivalent(l)
  {
    var r := Request("org", "key", route, 0);
    var late := r.(now := 600_001);
    var n := LimitOf(l, route);
    var rs := Repeat(r, n) + [late];
    RepeatInTime(r, late, n);
    assert rs[0] == r && rs[1..] == Repeat(r, n - 1) + [late];
    var m, t := Memory(map[BucketId(r) := Bucket(1, 0)], 0), map[RowKey(r) := Bucket(1, 0)];
    assert MemoryStep(l, Memory(map[], 0), r).0 == m && TableStep(l, map[], r).0 == t;
    LateAnswers(l, m, t, r, late, 1, n - 1);
    var a, b := MemoryAnswers(l, Memory(map[], 0), rs), TableAnswers(l, map[], rs);
    assert a[1..] == MemoryAnswers(l, m, rs[1..]) && b[1..] == TableAnswers(l, t, rs[1..]);
    assert !SameAnswers(l, rs);
  }

  lemma LowLimitsDiffer(l: Limits, route: RouteClass)
    requires LimitOf(l, route) < 1
    ensures !Equivalent(l)
  {
    var r := Request("org", "key", route, 0);
    var rs := [r];
    assert InTime(rs, 0);
    assert MemoryAnswers(l, Memory(map[], 0), rs)[0].allowed && !TableAnswers(l, map[], rs)[0].allowed;
    assert !SameAnswers(l, rs);
  }

  /** Both stores answer every request sequence alike exactly when every limit admits a request and the
      window is no longer than what pruning spares. */
  lemma EquivalentIff(l: Limits)
    ensures Equivalent(l) <==> l.standard >= 1 && l.dispatch >= 1 && l.windowMs <= 600_001
  {
    if l.standard < 1 {
      LowLimitsDiffer(l, Default);
    } else if l.dispatch < 1 {
      LowLimitsDiffer(l, Dispatch);
    } else if l.windowMs > 600_001 {
      LongWindowsDiffer(l, Default);
    } else {
      forall rs | InTime(rs, 0)
        ensures SameAnswers(l, rs)
      {
        AnswersAgree(l, Memory(map[], 0), map[], 0, rs);
      }
    }
  }

  // ---------------------------------------------------------------- what a caller can rely on

  /** How many of the requests at `times` to one row are admitted in [from, from + windowMs). */
  function Admitted(row: Option<Bucket>, times: seq<int>, windowMs: int, limit: int, from: int): nat
    decreases |times|
  {
    if times == [] then 0
    else
      var b := Upserted(row, times[0], windowMs);
      (if b.count <= limit && from <= times[0] < from + windowMs then 1 else 0)
      + Admitted(Some(b), times[1..], windowMs, limit, from)
  }

  ghost predicate Nondecreasing(times: seq<int>) {
    forall i, j :: 0 <= i <= j < |times| ==> times[i] <= times[j]
  }

  function AtLeastZero(n: int): nat {
    if n > 0 then n else 0
  }

  /** What a row may still admit in the interval once the interval has begun. */
  function Allowance(row: Option<Bucket>, limit: int, from: int): nat {
    if row.None? then AtLeastZero(limit)
    else if row.value.windowStart >= from then AtLeastZero(limit - row.value.count)
    else AtLeastZero(limit) + AtLeastZero(limit - row.value.count)
  }

  lemma {:induction false} AdmittedAfterwards(row: Option<Bucket>, times: seq<int>, windowMs: int, limit: int, from: int)
    requires Nondecreasing(times) && (times != [] ==> times[0] >= from + windowMs)
    ensures Admitted(row, times, windowMs, limit, from) == 0
    decreases |times|
  {
    if times != [] {
      AdmittedAfterwards(Some(Upserted(row, times[0], windowMs)), times[1..], windowMs, limit, from);
    }
  }

  lemma {:induction false} AdmittedWithin(row: Option<Bucket>, times: seq<int>, windowMs: int, limit: int, from: int)
    requires Nondecreasing(times) && (times != [] ==> times[0] >= from)
    requires row.Some? ==> row.value.count >= 1
    ensures Admitted(row, times, windowMs, limit, from) <= Allowance(row, limit, from)
    decreases |times|
  {
    if times != [] {
      if times[0] >= from + windowMs {
        AdmittedAfterwards(row, times, windowMs, limit, from);
      } else {
        AdmittedWithin(Some(Upserted(row, times[0], windowMs)), times[1..], windowMs, limit, from);
      }
    }
  }

  /** In any interval as long as the window, a row admits at most twice its limit. */
  lemma {:induction false} AtMostTwiceTheLimit(row: Option<Bucket>, times: seq<int>, windowMs: int, limit: int, from: int)
    requires Nondecreasing(times) && (row.Some? ==> row.value.count >= 1)
    ensures Admitted(row, times, windowMs, limit, from) <= 2 * AtLeastZero(limit)
    decreases |times|
  {
    if times != [] {
      if times[0] < from {
        AtMostTwiceTheLimit(Some(Upserted(row, times[0], windowMs)), times[1..], windowMs, limit, from);
      } else {
        AdmittedWithin(row, times, windowMs, limit, from);
      }
    }
  }

  /** The times of the requests in `rs` that count against the row of `r`. */
  function TimesOf(rs: seq<Request>, r: Request): seq<int> {
    if rs == [] then []
    else (if RowKey(rs[0]) == RowKey(r) then [rs[0].now] else []) + TimesOf(rs[1..], r)
  }

  /** How many answers of a whole run admit a request for the row of `r` in the interval. */
  function AdmittedFor(l: Limits, t: Table, rs: seq<Request>, r: Request, from: int): nat
    decreases |rs|
  {
    if rs == [] then 0
    else
      var (u, a) := TableStep(l, t, rs[0]);
      (if RowKey(rs[0]) == RowKey(r) && a.allowed && from <= rs[0].now < from + l.windowMs then 1 else 0)
      + AdmittedFor(l, u, rs[1..], r, from)
  }

  lemma {:induction false} RowsAreIndependent(l: Limits, t: Table, rs: seq<Request>, r: Request, from: int)
    ensures AdmittedFor(l, t, rs, r, from) ==
            Admitted(RowOf(t, r), TimesOf(rs, r), l.windowMs, LimitOf(l, r.route), from)
    decreases |rs|
  {
    if rs != [] {
      RowsAreIndependent(l, TableStep(l, t, rs[0]).0, rs[1..], r, from);
      if RowKey(rs[0]) == RowKey(r) {
        assert TimesOf(rs, r) == [rs[0].now] + TimesOf(rs[1..], r);
      } else {
        assert TimesOf(rs, r) == TimesOf(rs[1..], r);
      }
    }
  }

  lemma {:induction false} TimesAreInOrder(rs: seq<Request>, r: Request, from: int)
    requires InTime(rs, from)
    ensures Nondecreasing(TimesOf(rs, r)) && forall i :: 0 <= i < |TimesOf(rs, r)| ==> TimesOf(rs, r)[i] >= from
    decreases |rs|
  {
    if rs != [] {
      TimesAreInOrder(rs[1..], r, rs[0].now);
    }
  }

  /** Over a whole run on an empty store, one organisation, key and route class is admitted at most
      twice its limit in any interval as long as the window. */
  lemma RunsAdmitAtMostTwice(l: Limits, rs: seq<Request>, r: Request, from: int)
    requires InTime(rs, 0)
    ensures AdmittedFor(l, map[], rs, r, from) <= 2 * AtLeastZero(LimitOf(l, r.route))
  {
    RowsAreIndependent(l, map[], rs, r, from);
    TimesAreInOrder(rs, r, 0);
    AtMostTwiceTheLimit(None, TimesOf(rs, r), l.windowMs, LimitOf(l, r.route), from);
  }

  function TableAfter(l: Limits, t: Table, rs: seq<Request>): Table
    decreases |rs|
  {
    if rs == [] then t else TableAfter(l, TableStep(l, t, rs[0]).0, rs[1..])
  }

  lemma {:induction false} OthersLeaveRow(l: Limits, t: Table, rs: seq<Request>, r: Request)
    requires forall i :: 0 <= i < |rs| ==> RowKey(rs[i]) != RowKey(r)
    ensures RowOf(TableAfter(l, t, rs), r) == RowOf(t, r)
    decreases |rs|
  {
    if rs != [] {
      OthersLeaveRow(l, TableStep(l, t, rs[0]).0, rs[1..], r);
    }
  }

  /** A caller that was told to wait, and stayed silent that long while others went on, is admitted,
      unless its limit admits nobody. */
  lemma WaitingHelps(l: Limits, t: Table, r: Request, others: seq<Request>)
    requires !TableStep(l, t, r).1.allowed
    requires forall i :: 0 <= i < |others| ==> RowKey(others[i]) != RowKey(r)
    ensures TableStep(l, t, r).1.retryAfterMs.Some?
    ensures var (u, a) := TableStep(l, t, r);
            TableStep(l, TableAfter(l, u, others), r.(now := r.now + a.retryAfterMs.value)).1.allowed <==>
            LimitOf(l, r.route) >= 1
  {
    OthersLeaveRow(l, TableStep(l, t, r).0, others, r);
  }

  // ---------------------------------------------------------------- the same of the in-memory store

  /** How many of the answers `answers` to `rs` admit a request for the row of `r` in the interval. */
  function AdmittedIn(rs: seq<Request>, answers: seq<Answer>, r: Request, windowMs: int, from: int): nat
    requires |rs| == |answers|
  {
    if rs == [] then 0
    else
      (if RowKey(rs[0]) == RowKey(r) && answers[0].allowed && from <= rs[0].now < from + windowMs then 1 else 0)
      + AdmittedIn(rs[1..], answers[1..], r, windowMs, from)
  }

  lemma {:induction false} CountedByAnswers(l: Limits, t: Table, rs: seq<Request>, r: Request, from: int)
    ensures AdmittedIn(rs, TableAnswers(l, t, rs), r, l.windowMs, from) == AdmittedFor(l, t, rs, r, from)
    decreases |rs|
  {
    if rs != [] {
      var (u, a) := TableStep(l, t, rs[0]);
      CountedByAnswers(l, u, rs[1..], r, from);
      assert ([a] + TableAnswers(l, u, rs[1..]))[1..] == TableAnswers(l, u, rs[1..]);
    }
  }

  /** The in-memory store admits at most twice the limit too, wherever it is equivalent. */
  lemma MemoryAdmitsAtMostTwice(l: Limits, rs: seq<Request>, r: Request, from: int)
    requires Equivalent(l) && InTime(rs, 0)
    ensures AdmittedIn(rs, MemoryAnswers(l, Memory(map[], 0), rs), r, l.windowMs, from) <= 2 * LimitOf(l, r.route)
  {
    assert SameAnswers(l, rs);
    CountedByAnswers(l, map[], rs, r, from);
    RunsAdmitAtMostTwice(l, rs, r, from);
    EquivalentIff(l);
  }

  lemma {:induction false} AnswersAppend(l: Limits, t: Table, a: seq<Request>, b: seq<Request>)
    ensures TableAnswers(l, t, a + b) == TableAnswers(l, t, a) + TableAnswers(l, TableAfter(l, t, a), b)
    ensures TableAfter(l, t, a + b) == TableAfter(l, TableAfter(l, t, a), b)
    decreases |a|
  {
    if a == [] {
      assert a + b == b;
    } else {
      assert (a + b)[0] == a[0] && (a + b)[1..] == a[1..] + b;
      AnswersAppend(l, TableStep(l, t, a[0]).0, a[1..], b);
    }
  }

  lemma LastAnswer(l: Limits, t: Table, a: seq<Request>, r: Request)
    ensures TableAnswers(l, t, a + [r])[|a|] == TableStep(l, TableAfter(l, t, a), r).1
  {
    AnswersAppend(l, t, a, [r]);
  }

  /** A whole run: some requests, one that is rejected, requests of others, and the retry after the announced wait. */
  ghost predicate IsRetry(before: seq<Request>, r: Request, others: seq<Request>, late: Request, wait: int) {
    && InTime(before + [r] + others + [late], 0) && late == r.(now := r.now + wait)
    && forall i :: 0 <= i < |others| ==> RowKey(others[i]) != RowKey(r)
  }

  lemma InTimePrefix(rs: seq<Request>, n: nat, from: int)
    requires InTime(rs, from) && n <= |rs|
    ensures InTime(rs[..n], from)
  {
  }

  /** Wherever the stores are equivalent, a caller that the in-memory store rejects and that retries after
      the announced wait is admitted, whatever others did meanwhile. */
  lemma WaitingHelpsInMemory(l: Limits, before: seq<Request>, r: Request, others: seq<Request>, late: Request, wait: int)
    requires Equivalent(l) && IsRetry(before, r, others, late, wait)
    requires var answers := MemoryAnswers(l, Memory(map[], 0), before + [r]);
             !answers[|before|].allowed && answers[|before|].retryAfterMs == Some(wait)
    ensures var answers := MemoryAnswers(l, Memory(map[], 0), before + [r] + others + [late]);
            answers[|answers| - 1].allowed
  {
    var first, all := before + [r], before + [r] + others + [late];
    assert all[..|first|] == first;
    InTimePrefix(all, |first|, 0);
    assert SameAnswers(l, first) && SameAnswers(l, all);
    LastAnswer(l, map[], before, r);
    LastAnswer(l, map[], first + others, late);
    AnswersAppend(l, map[], before, [r]);
    AnswersAppend(l, map[], first, others);
    var t := TableAfter(l, map[], before);
    assert TableAfter(l, t, [r]) == TableStep(l, t, r).0;
    WaitingHelps(l, t, r, others);
    EquivalentIff(l);
  }

  // ---------------------------------------------------------------- what one window admits

  /** How many of the first `i` requests are to the row of `r`. */
  function Requests(rs: seq<Request>, r: Request, i: nat): nat
    requires i <= |rs|
  {
    if i == 0 then 0 else Requests(rs, r, i - 1) + if RowKey(rs[i - 1]) == RowKey(r) then 1 else 0
  }

  lemma TableAfterNext(l: Limits, t: Table, rs: seq<Request>, i: nat)
    requires i < |rs|
    ensures TableAfter(l, t, rs[..i + 1]) == TableStep(l, TableAfter(l, t, rs[..i]), rs[i]).0
  {
    var u := TableAfter(l, t, rs[..i]);
    assert rs[..i + 1] == rs[..i] + [rs[i]];
    AnswersAppend(l, t, rs[..i], [rs[i]]);
    assert TableAfter(l, u, [rs[i]]) == TableStep(l, u, rs[i]).0;
  }

  /** Within its window a row counts its requests, whatever is requested in between. */
  lemma {:induction false} RowCounts(l: Limits, t: Table, rs: seq<Request>, r: Request, n: nat, start: int, i: nat)
    requires i <= |rs| && RowOf(t, r) == Some(Bucket(n, start))
    requires forall j :: 0 <= j < |rs| ==> rs[j].now < start + l.windowMs
    ensures RowOf(TableAfter(l, t, rs[..i]), r) == Some(Bucket(n + Requests(rs, r, i), start))
    decreases i
  {
    if i > 0 {
      RowCounts(l, t, rs, r, n, start, i - 1);
      TableAfterNext(l, t, rs, i - 1);
    } else {
      assert rs[..0] == [];
    }
  }

  /** From the request on that opens a window, the first `limit` requests to the row are admitted until the
      window is over and no others; the answers say how many are left and how long it still takes. */
  lemma WindowAdmitsLimit(l: Limits, t: Table, r: Request, rs: seq<Request>, i: nat)
    requires RowOf(t, r).None? || RowOf(t, r).value.windowStart + l.windowMs <= r.now
    requires i < |rs| && (forall j :: 0 <= j < |rs| ==> rs[j].now < r.now + l.windowMs) && RowKey(rs[i]) == RowKey(r)
    ensures var limit := if r.route == Dispatch then l.dispatch else l.standard;
            var u, first := TableStep(l, t, r).0, TableStep(l, t, r).1;
            var count := 2 + Requests(rs, r, i);
            && first.allowed == (1 <= limit)
            && TableStep(l, TableAfter(l, u, rs[..i]), rs[i]).1 ==
                 if count <= limit then Answer(true, limit - count, limit, None, r.now)
                 else Answer(false, 0, limit, Some(r.now + l.windowMs - rs[i].now), r.now)
  {
    OpensWindow(l, t, r);
    CountsUp(l, TableStep(l, t, r).0, r, rs, i);
  }

  lemma OpensWindow(l: Limits, t: Table, r: Request)
    requires RowOf(t, r).None? || RowOf(t, r).value.windowStart + l.windowMs <= r.now
    ensures RowOf(TableStep(l, t, r).0, r) == Some(Bucket(1, r.now))
    ensures TableStep(l, t, r).1.allowed == (1 <= if r.route == Dispatch then l.dispatch else l.standard)
  {
  }

  lemma CountsUp(l: Limits, t: Table, r: Request, rs: seq<Request>, i: nat)
    requires RowOf(t, r) == Some(Bucket(1, r.now)) && i < |rs| && RowKey(rs[i]) == RowKey(r)
    requires forall j :: 0 <= j < |rs| ==> rs[j].now < r.now + l.windowMs
    ensures var limit := if r.route == Dispatch then l.dispatch else l.standard;
            var count := 2 + Requests(rs, r, i);
            TableStep(l, TableAfter(l, t, rs[..i]), rs[i]).1 ==
              if count <= limit then Answer(true, limit - count, limit, None, r.now)
              else Answer(false, 0, limit, Some(r.now + l.windowMs - rs[i].now), r.now)
  {
    RowCounts(l, t, rs, r, 1, r.now, i);
    AnswerInWindow(l, TableAfter(l, t, rs[..i]), rs[i], 1 + Requests(rs, r, i), r.now);
  }

  lemma AnswerInWindow(l: Limits, t: Table, r: Request, n: nat, start: int)
    requires RowOf(t, r) == Some(Bucket(n, start)) && r.now < start + l.windowMs
    ensures var limit := if r.route == Dispatch then l.dispatch else l.standard;
            TableStep(l, t, r).1 ==
              if n + 1 <= limit then Answer(true, limit - (n + 1), limit, None, start)
              else Answer(false, 0, limit, Some(start + l.windowMs - r.now), start)
  {
  }
}
