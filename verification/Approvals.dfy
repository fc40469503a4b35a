/** Approval rows, the statements run against them, and the service and sweeper that run them. */
module Approvals {
  import opened Optional

  datatype Decision = Pending | Approved | Rejected | Expired

  datatype Key = Key(org: string, action: string, resourceType: string, resourceId: string)

  datatype Details = Details(projectId: Option<string>, reason: string, riskLevel: string, requestedBy: string)

  datatype Approval = Approval(key: Key, details: Details, decision: Decision, expiresAt: int, createdAt: int, consumedAt: Option<int>,
                               approver: Option<string>, decidedAt: Option<int>)

  type Table = map<string, Approval>

  /** What the read of `assertApproved` may return: an approved row for the key that none is newer than. */
  predicate IsLatestApproved(t: Table, key: Key, id: string) {
    && id in t && t[id].key == key && t[id].decision == Approved
    && forall other :: other in t && t[other].key == key && t[other].decision == Approved ==>
         t[other].createdAt <= t[id].createdAt
  }

  predicate HasApproved(t: Table, key: Key) {
    exists id :: id in t && t[id].key == key && t[id].decision == Approved
  }

  lemma {:induction false} LatestExists(t: Table, ids: set<string>, key: Key, id: string) returns (latest: string)
    requires ids <= t.Keys && id in ids && t[id].key == key && t[id].decision == Approved
    ensures latest in ids && t[latest].key == key && t[latest].decision == Approved
    ensures forall other :: other in ids && t[other].key == key && t[other].decision == Approved ==>
              t[other].createdAt <= t[latest].createdAt
    decreases |ids|
  {
    latest := id;
    var rest := ids - {id};
    if other :| other in rest && t[other].key == key && t[other].decision == Approved && t[other].createdAt > t[id].createdAt {
      latest := LatestExists(t, rest, key, other);
    }
  }

  // ---------------------------------------------------------------- statements

  /** `UPDATE ... SET consumed_at = ? WHERE id = ? AND consumed_at IS NULL`. */
  function ConsumeUpdate(t: Table, id: string, now: int): (Table, bool) {
    if id in t && t[id].consumedAt.None? then (t[id := t[id].(consumedAt := Some(now))], true) else (t, false)
  }

  /** `UPDATE ... SET decision = 'expired', decided_at = ? WHERE id = ? AND decision = 'pending'`. */
  function ExpirePendingUpdate(t: Table, id: string, now: int): (Table, bool) {
    if id in t && t[id].decision == Pending then (t[id := t[id].(decision := Expired, decidedAt := Some(now))], true)
    else (t, false)
  }

  /** `UPDATE ... SET decision = 'expired', consumed_at = ? WHERE id = ? AND decision = 'approved' AND consumed_at IS NULL`. */
  function ExpireApprovedUpdate(t: Table, id: string, now: int): (Table, bool) {
    if id in t && t[id].decision == Approved && t[id].consumedAt.None? then
      (t[id := t[id].(decision := Expired, consumedAt := Some(now))], true)
    else (t, false)
  }

  datatype DecideError = NoSuchApproval | CrossOrg | AlreadyDecided | RequestExpired

  datatype DecideResult = Decided(decision: Decision) | Refused(error: DecideError)

  /** `decide`, taken as one step. */
  function Decide(t: Table, id: string, approverOrg: string, approver: string, approve: bool, now: int): (Table, DecideResult) {
    if id !in t then (t, Refused(NoSuchApproval))
    else if t[id].key.org != approverOrg then (t, Refused(CrossOrg))
    else if t[id].decision != Pending then (t, Refused(AlreadyDecided))
    else if t[id].expiresAt < now then (t[id := t[id].(decision := Expired, decidedAt := Some(now))], Refused(RequestExpired))
    else
      var d := if approve then Approved else Rejected;
      (t[id := t[id].(decision := d, approver := Some(approver), decidedAt := Some(now))], Decided(d))
  }

  /** Somebody of the organisation of a pending request that is not overdue may decide it. */
  predicate MayDecide(t: Table, id: string, org: string, now: int) {
    id in t && t[id].decision == Pending && now <= t[id].expiresAt && t[id].key.org == org
  }

  function DecidedAs(t: Table, id: string, d: Decision, approver: string, now: int): Table
    requires id in t
  {
    t[id := t[id].(decision := d, approver := Some(approver), decidedAt := Some(now))]
  }

  datatype Verdict = Granted(id: string) | NoneApproved | ApprovalExpired | AlreadyConsumed

  /** The outcome for the row that was read, before any update. */
  function ReadVerdict(row: Approval, id: string, now: int): Verdict {
    if row.expiresAt <= now then ApprovalExpired
    else if row.consumedAt.Some? then AlreadyConsumed
    else Granted(id)
  }

  /** What `assertApproved` may answer; several newest rows of one moment leave it a choice. */
  ghost predicate MayAnswer(t: Table, key: Key, now: int, v: Verdict) {
    if HasApproved(t, key) then exists id :: IsLatestApproved(t, key, id) && v == ReadVerdict(t[id], id, now)
    else v == NoneApproved
  }

  predicate IsLive(t: Table, key: Key, id: string, now: int) {
    id in t && t[id].key == key && t[id].decision == Approved && t[id].consumedAt.None? && t[id].expiresAt > now
  }

  predicate HasLive(t: Table, key: Key, now: int) {
    exists id :: id in t && IsLive(t, key, id, now)
  }

  /** A newest approved row is consumed or expired while some approved row is live. */
  predicate HidesLive(t: Table, key: Key, now: int) {
    && HasLive(t, key, now)
    && exists id :: id in t && IsLatestApproved(t, key, id) && !IsLive(t, key, id, now)
  }

  /** A grant means that a live approved row exists, and a live approved row means a grant unless a newest
      approved row that is consumed or expired may be read in its place. */
  lemma GrantedIffLiveIff(t: Table, key: Key, now: int)
    ensures forall v :: MayAnswer(t, key, now, v) && v.Granted? ==> HasLive(t, key, now)
    ensures (forall v :: MayAnswer(t, key, now, v) ==> (v.Granted? <==> HasLive(t, key, now))) <==> !HidesLive(t, key, now)
  {
    forall id | IsLatestApproved(t, key, id)
      ensures HasApproved(t, key)
      ensures MayAnswer(t, key, now, ReadVerdict(t[id], id, now))
      ensures ReadVerdict(t[id], id, now).Granted? <==> IsLive(t, key, id, now)
    {
    }
  }

  /** A live row behind a newer one that was granted: the call refuses. */
  lemma HiddenLiveExample()
    ensures var key, details := Key("org", "deploy", "task", "t1"), Details(None, "", "high", "u1");
            var older := Approval(key, details, Approved, 100, 0, None, Some("u2"), Some(1));
            var newer := Approval(key, details, Approved, 100, 2, Some(4), Some("u2"), Some(3));
            var t := map["older" := older, "newer" := newer];
            HasLive(t, key, 5) && forall v :: MayAnswer(t, key, 5, v) ==> v == AlreadyConsumed
  {
    var key, details := Key("org", "deploy", "task", "t1"), Details(None, "", "high", "u1");
    var older := Approval(key, details, Approved, 100, 0, None, Some("u2"), Some(1));
    var newer := Approval(key, details, Approved, 100, 2, Some(4), Some("u2"), Some(3));
    var t := map["older" := older, "newer" := newer];
    assert "older" in t && "newer" in t;
    assert IsLive(t, key, "older", 5) && t["older"].key == key;
    assert !IsLatestApproved(t, key, "older");
  }

  predicate IsOverdue(t: Table, id: string, decision: Decision, now: int) {
    id in t && t[id].decision == decision && t[id].expiresAt < now && (decision == Approved ==> t[id].consumedAt.None?)
  }

  function OverdueIds(t: Table, decision: Decision, now: int): set<string> {
    set id | id in t && IsOverdue(t, id, decision, now)
  }

  /** The table once the sweeper is through, with nobody else writing. */
  function Swept(t: Table, now: int): Table {
    map id | id in t ::
      if IsOverdue(t, id, Pending, now) then t[id].(decision := Expired, decidedAt := Some(now))
      else if IsOverdue(t, id, Approved, now) then t[id].(decision := Expired, consumedAt := Some(now))
      else t[id]
  }

  function ExpiredPending(t: Table, ids: set<string>, now: int): Table {
    map id | id in t :: if id in ids then t[id].(decision := Expired, decidedAt := Some(now)) else t[id]
  }

  function ExpiredApproved(t: Table, ids: set<string>, now: int): Table {
    map id | id in t :: if id in ids then t[id].(decision := Expired, consumedAt := Some(now)) else t[id]
  }

  /** The rows a sweep changes are the overdue ones of both kinds. */
  lemma BothKinds(t: Table, now: int)
    ensures |set id | id in t && Swept(t, now)[id].decision != t[id].decision| == |OverdueIds(t, Pending, now)| + |OverdueIds(t, Approved, now)|
  {
    var pending, approved := OverdueIds(t, Pending, now), OverdueIds(t, Approved, now);
    assert (set id | id in t && Swept(t, now)[id].decision != t[id].decision) == pending + approved;
  }

  class ApprovalService {
    var rows: Table

    constructor ()
      ensures rows == map[]
    {
      rows := map[];
    }

    method Request(id: string, key: Key, details: Details, ttlMinutes: Option<int>, now: int) returns (expiresAt: int)
      requires id !in rows
      modifies this
      ensures expiresAt == now + (if ttlMinutes.Some? then ttlMinutes.value else 60) * 60_000
      ensures rows == old(rows)[id := Approval(key, details, Pending, expiresAt, now, None, None, None)]
    {
      expiresAt := now + (if ttlMinutes.Some? then ttlMinutes.value else 60) * 60_000;
      rows := rows[id := Approval(key, details, Pending, expiresAt, now, None, None, None)];
    }

    method DecideRequest(id: string, approverOrg: string, approver: string, approve: bool, now: int) returns (r: DecideResult)
      modifies this
      ensures (rows, r) == Decide(old(rows), id, approverOrg, approver, approve, now)
      ensures r.Decided? <==> MayDecide(old(rows), id, approverOrg, now)
      ensures r.Decided? && approve ==> rows == DecidedAs(old(rows), id, Approved, approver, now) && r.decision == Approved
      ensures r.Decided? && !approve ==> rows == DecidedAs(old(rows), id, Rejected, approver, now) && r.decision == Rejected
      ensures rows.Keys == old(rows).Keys
      ensures forall k :: k in rows ==>
                (rows[k].decision == Approved <==> old(rows)[k].decision == Approved || (k == id && r.Decided? && approve))
      ensures forall k :: k in rows ==>
                (rows[k].decision == Rejected <==> old(rows)[k].decision == Rejected || (k == id && r.Decided? && !approve))
      ensures r == Refused(NoSuchApproval) <==> id !in old(rows)
      ensures r == Refused(CrossOrg) <==> id in old(rows) && old(rows)[id].key.org != approverOrg
      ensures r == Refused(RequestExpired) ==> rows == old(rows)[id := old(rows)[id].(decision := Expired, decidedAt := Some(now))]
      ensures r.Refused? && r.error != RequestExpired ==> rows == old(rows)
    {
      if id !in rows {
        return Refused(NoSuchApproval);
      }
      var row := rows[id];
      if row.key.org != approverOrg {
        return Refused(CrossOrg);
      }
      if row.decision != Pending {
        return Refused(AlreadyDecided);
      }
      if row.expiresAt < now {
        rows := rows[id := row.(decision := Expired, decidedAt := Some(now))];
        return Refused(RequestExpired);
      }
      var d := if approve then Approved else Rejected;
      rows := rows[id := row.(decision := d, approver := Some(approver), decidedAt := Some(now))];
      return Decided(d);
    }

    /** Grants exactly when the newest approved row is neither expired nor consumed, and consumes it. */
    method AssertApproved(key: Key, now: int) returns (v: Verdict)
      modifies this
      ensures MayAnswer(old(rows), key, now, v)
      ensures v == NoneApproved <==> !HasApproved(old(rows), key)
      ensures v == NoneApproved <==> forall id :: id in old(rows) && old(rows)[id].key == key ==> old(rows)[id].decision != Approved
      ensures v != NoneApproved ==>
                exists id :: id in old(rows) && old(rows)[id].key == key && old(rows)[id].decision == Approved &&
                  (forall other :: other in old(rows) && old(rows)[other].key == key && old(rows)[other].decision == Approved ==>
                     old(rows)[other].createdAt <= old(rows)[id].createdAt) &&
                  v == (if old(rows)[id].expiresAt <= now then ApprovalExpired
                        else if old(rows)[id].consumedAt.Some? then AlreadyConsumed else Granted(id))
      ensures v.Granted? ==> v.id in old(rows) && old(rows)[v.id].consumedAt.None? && old(rows)[v.id].expiresAt > now
      ensures rows == if v.Granted? then old(rows)[v.id := old(rows)[v.id].(consumedAt := Some(now))] else old(rows)
    {
      if id :| id in rows && IsLatestApproved(rows, key, id) {
        var row := rows[id];
        if row.expiresAt <= now {
          return ApprovalExpired;
        }
        if row.consumedAt.Some? {
          return AlreadyConsumed;
        }
        var (t, changed) := ConsumeUpdate(rows, id, now);
        rows := t;
        if !changed {
          return AlreadyConsumed;
        }
        return Granted(id);
      } else {
        if HasApproved(rows, key) {
          ghost var some :| some in rows && rows[some].key == key && rows[some].decision == Approved;
          ghost var latest := LatestExists(rows, rows.Keys, key, some);
          assert IsLatestApproved(rows, key, latest);
          assert false;
        }
        return NoneApproved;
      }
    }

    /** Two passes over the rows found overdue, each row under a conditional update. */
    method Sweep(now: int) returns (n: nat)
      modifies this
      ensures rows == Swept(old(rows), now) && rows.Keys == old(rows).Keys
      ensures forall id :: id in rows ==>
                var was := old(rows)[id];
                rows[id] == if was.decision == Pending && was.expiresAt < now then was.(decision := Expired, decidedAt := Some(now))
                            else if was.decision == Approved && was.consumedAt.None? && was.expiresAt < now then
                              was.(decision := Expired, consumedAt := Some(now))
                            else was
      ensures n == |set id | id in rows && rows[id].decision != old(rows)[id].decision|
    {
      var expired := OverdueIds(rows, Pending, now);
      var first := ExpirePending(expired, now);
      var stale := OverdueIds(rows, Approved, now);
      assert stale == OverdueIds(old(rows), Approved, now);
      var second := ExpireApproved(stale, now);
      n := first + second;
      BothKinds(old(rows), now);
    }

    method ExpirePending(ids: set<string>, now: int) returns (n: nat)
      requires forall id :: id in ids ==> id in rows && rows[id].decision == Pending
      modifies this
      ensures rows == ExpiredPending(old(rows), ids, now) && n == |ids|
    {
      n := 0;
      var rest := ids;
      assert ids - rest == {};
      while rest != {}
        invariant rest <= ids && n == |ids| - |rest|
        invariant rows == ExpiredPending(old(rows), ids - rest, now)
        decreases rest
      {
        var id :| id in rest;
        var (t, changed) := ExpirePendingUpdate(rows, id, now);
        rows := t;
        if changed {
          n := n + 1;
        }
        assert ids - (rest - {id}) == ids - rest + {id};
        rest := rest - {id};
      }
      assert ids - rest == ids;
    }

    method ExpireApproved(ids: set<string>, now: int) returns (n: nat)
      requires forall id :: id in ids ==> id in rows && rows[id].decision == Approved && rows[id].consumedAt.None?
      modifies this
      ensures rows == ExpiredApproved(old(rows), ids, now) && n == |ids|
    {
      n := 0;
      var rest := ids;
      assert ids - rest == {};
      while rest != {}
        invariant rest <= ids && n == |ids| - |rest|
        invariant rows == ExpiredApproved(old(rows), ids - rest, now)
        decreases rest
      {
        var id :| id in rest;
        var (t, changed) := ExpireApprovedUpdate(rows, id, now);
        rows := t;
        if changed {
          n := n + 1;
        }
        assert ids - (rest - {id}) == ids - rest + {id};
        rest := rest - {id};
      }
      assert ids - rest == ids;
    }
  }
}
