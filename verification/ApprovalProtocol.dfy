/** Single use of approvals under every interleaving of the reads and updates of many callers and
    sweepers. `decide` is one step. */
module ApprovalProtocol {
  import opened Optional
  import opened Graphs
  import opened Approvals

  /** A caller that has read a live approved row and not yet run its update. */
  datatype Caller = Caller(row: string, key: Key, readAt: int)

  datatype Win = Win(row: string, key: Key, readAt: int)

  /** `wins`, `grants` and `writes` are history: successful callers, approve decisions, and how often
      consumed_at of a row was written. */
  datatype System = System(rows: Table, callers: map<string, Caller>, now: int, wins: seq<Win>,
                           grants: seq<string>, writes: map<string, nat>)

  datatype Event =
    | Tick(ms: nat)
    | Request(id: string, approval: Approval)
    | DecideRow(id: string, org: string, approver: string, approve: bool)
    | Read(caller: string, key: Key, row: string)
    | Consume(caller: string)
    | ExpirePendingRow(id: string, since: int)
    | ExpireApprovedRow(id: string, since: int)

  const EMPTY := System(map[], map[], 0, [], [], map[])

  /** A sweeper updates rows that were overdue at the moment `since` when it started. */
  predicate Enabled(s: System, e: Event) {
    match e
    case Tick(_) => true
    case Request(id, row) => id !in s.rows && row.decision == Pending && row.consumedAt.None?
    case DecideRow(_, _, _, _) => true
    case Read(c, key, id) => c !in s.callers && IsLatestApproved(s.rows, key, id) && ReadVerdict(s.rows[id], id, s.now).Granted?
    case Consume(c) => c in s.callers
    case ExpirePendingRow(id, since) => id in s.rows && s.rows[id].expiresAt < since <= s.now
    case ExpireApprovedRow(id, since) => id in s.rows && s.rows[id].expiresAt < since <= s.now
  }

  function Bump(writes: map<string, nat>, id: string): map<string, nat> {
    writes[id := 1 + if id in writes then writes[id] else 0]
  }

  function After(s: System, e: Event): System
    requires Enabled(s, e)
  {
    match e
    case Tick(ms) => s.(now := s.now + ms)
    case Request(id, row) => s.(rows := s.rows[id := row])
    case DecideRow(id, org, who, approve) =>
      var (t, r) := Decide(s.rows, id, org, who, approve, s.now);
      s.(rows := t, grants := if r == Decided(Approved) then s.grants + [id] else s.grants)
    case Read(c, key, id) => s.(callers := s.callers[c := Caller(id, key, s.now)])
    case Consume(c) =>
      var k := s.callers[c];
      var (t, ok) := ConsumeUpdate(s.rows, k.row, k.readAt);
      s.(rows := t, callers := s.callers - {c},
         wins := if ok then s.wins + [Win(k.row, k.key, k.readAt)] else s.wins,
         writes := if ok then Bump(s.writes, k.row) else s.writes)
    case ExpirePendingRow(id, since) => s.(rows := ExpirePendingUpdate(s.rows, id, since).0)
    case ExpireApprovedRow(id, since) =>
      var (t, ok) := ExpireApprovedUpdate(s.rows, id, since);
      s.(rows := t, writes := if ok then Bump(s.writes, id) else s.writes)
  }

  ghost predicate CanRun(s: System, es: seq<Event>)
    decreases |es|
  {
    es != [] ==> Enabled(s, es[0]) && CanRun(After(s, es[0]), es[1..])
  }

  ghost function Run(s: System, es: seq<Event>): System
    requires CanRun(s, es)
    decreases |es|
  {
    if es == [] then s else Run(After(s, es[0]), es[1..])
  }

  // ---------------------------------------------------------------- invariant

  /** consumed_at of a row has been written as often as it has a value. */
  ghost predicate RowKept(s: System, id: string) {
    && (id in s.writes ==> id in s.rows && s.writes[id] == 1)
    && (id in s.rows ==> (s.rows[id].consumedAt.Some? <==> id in s.writes))
    && (id in s.rows && (s.rows[id].decision == Pending || s.rows[id].decision == Rejected) ==> id !in s.grants)
    && (id in s.grants ==> id in s.rows)
    && (id in s.rows && s.rows[id].decision == Approved ==> id in s.grants)
  }

  ghost predicate CallerKept(s: System, c: string) {
    c in s.callers ==>
      var k := s.callers[c];
      k.row in s.rows && s.rows[k.row].key == k.key && k.row in s.grants && k.readAt < s.rows[k.row].expiresAt
  }

  /** A success consumed a granted row for its own key that had not expired when it was read. */
  ghost predicate WinKept(s: System, w: Win) {
    w.row in s.rows && s.rows[w.row].key == w.key && w.row in s.grants && w.readAt < s.rows[w.row].expiresAt
    && s.rows[w.row].consumedAt.Some?
  }

  ghost predicate DistinctRows(wins: seq<Win>) {
    forall i, j :: 0 <= i < j < |wins| ==> wins[i].row != wins[j].row
  }

  ghost predicate Inv(s: System) {
    && (forall id :: RowKept(s, id))
    && (forall c :: CallerKept(s, c))
    && (forall i :: 0 <= i < |s.wins| ==> WinKept(s, s.wins[i]))
    && DistinctRows(s.wins) && NoDuplicates(s.grants)
  }

  lemma RowStep(s: System, e: Event, id: string)
    requires Inv(s) && Enabled(s, e)
    ensures RowKept(After(s, e), id)
  {
    assert RowKept(s, id);
    if e.Consume? {
      assert CallerKept(s, e.caller) && RowKept(s, s.callers[e.caller].row);
    }
  }

  lemma CallerStep(s: System, e: Event, c: string)
    requires Inv(s) && Enabled(s, e)
    ensures CallerKept(After(s, e), c)
  {
    assert CallerKept(s, c);
    if e.Read? {
      assert RowKept(s, e.row);
    }
  }

  lemma WinStep(s: System, e: Event, w: Win)
    requires Inv(s) && Enabled(s, e) && WinKept(s, w)
    ensures WinKept(After(s, e), w)
  {
  }

  lemma NewWin(s: System, c: string)
    requires Inv(s) && Enabled(s, Consume(c))
    ensures var t := After(s, Consume(c));
            (forall i :: 0 <= i < |t.wins| ==> WinKept(t, t.wins[i])) && DistinctRows(t.wins)
  {
    var t := After(s, Consume(c));
    assert CallerKept(s, c);
    forall i | 0 <= i < |t.wins|
      ensures WinKept(t, t.wins[i])
    {
      if i < |s.wins| {
        WinStep(s, Consume(c), s.wins[i]);
      }
    }
    forall i, j | 0 <= i < j < |t.wins|
      ensures t.wins[i].row != t.wins[j].row
    {
      assert WinKept(s, s.wins[i]);
    }
  }

  lemma NewGrant(s: System, e: Event)
    requires Inv(s) && Enabled(s, e) && e.DecideRow?
    ensures NoDuplicates(After(s, e).grants)
  {
    assert RowKept(s, e.id);
    if e.id !in s.grants {
      AppendKeepsDistinct(s.grants, [e.id]);
    }
  }

  lemma InvStep(s: System, e: Event)
    requires Inv(s) && Enabled(s, e)
    ensures Inv(After(s, e))
  {
    var t := After(s, e);
    forall id
      ensures RowKept(t, id)
    {
      RowStep(s, e, id);
    }
    forall c
      ensures CallerKept(t, c)
    {
      CallerStep(s, e, c);
    }
    if e.Consume? {
      NewWin(s, e.caller);
    } else {
      forall i | 0 <= i < |t.wins|
        ensures WinKept(t, t.wins[i])
      {
        WinStep(s, e, s.wins[i]);
      }
    }
    if e.DecideRow? {
      NewGrant(s, e);
    }
  }

  lemma {:induction false} InvRun(s: System, es: seq<Event>)
    requires Inv(s) && CanRun(s, es)
    ensures Inv(Run(s, es))
    decreases |es|
  {
    if es != [] {
      InvStep(s, es[0]);
      InvRun(After(s, es[0]), es[1..]);
    }
  }

  // ---------------------------------------------------------------- theorems

  function WinsFor(wins: seq<Win>, key: Key): seq<string> {
    if wins == [] then []
    else
      var n := |wins| - 1;
      WinsFor(wins[..n], key) + if wins[n].key == key then [wins[n].row] else []
  }

  function GrantsFor(rows: Table, grants: seq<string>, key: Key): seq<string> {
    if grants == [] then []
    else
      var n := |grants| - 1;
      GrantsFor(rows, grants[..n], key) + if grants[n] in rows && rows[grants[n]].key == key then [grants[n]] else []
  }

  lemma {:induction false} WinsForMembers(wins: seq<Win>, key: Key)
    requires DistinctRows(wins)
    ensures NoDuplicates(WinsFor(wins, key))
    ensures forall r :: r in WinsFor(wins, key) ==> exists i :: 0 <= i < |wins| && wins[i].row == r && wins[i].key == key
  {
    if wins != [] {
      var n := |wins| - 1;
      WinsForMembers(wins[..n], key);
      forall r | r in WinsFor(wins[..n], key)
        ensures r != wins[n].row && exists i :: 0 <= i < |wins| && wins[i].row == r && wins[i].key == key
      {
        var i :| 0 <= i < n && wins[..n][i].row == r && wins[..n][i].key == key;
        assert wins[i].row == r && wins[i].key == key;
      }
      AppendKeepsDistinct(WinsFor(wins[..n], key), [wins[n].row]);
    }
  }

  lemma {:induction false} GrantsForMembers(rows: Table, grants: seq<string>, key: Key)
    requires NoDuplicates(grants)
    ensures NoDuplicates(GrantsFor(rows, grants, key))
    ensures forall r :: r in GrantsFor(rows, grants, key) <==> r in grants && r in rows && rows[r].key == key
  {
    if grants != [] {
      var n := |grants| - 1;
      assert grants == grants[..n] + [grants[n]] && grants[n] !in grants[..n];
      GrantsForMembers(rows, grants[..n], key);
      AppendKeepsDistinct(GrantsFor(rows, grants[..n], key), [grants[n]]);
    }
  }

  /** Every row authorises at most one caller, consumed_at is written at most once, and no success
      rests on a row that had expired when it was read. */
  lemma ApprovalsAreSingleUse(es: seq<Event>)
    requires CanRun(EMPTY, es)
    ensures var s := Run(EMPTY, es);
            && DistinctRows(s.wins)
            && (forall id :: id in s.writes ==> s.writes[id] == 1)
            && forall i :: 0 <= i < |s.wins| ==> s.wins[i].row in s.rows && s.wins[i].readAt < s.rows[s.wins[i].row].expiresAt
  {
    InvRun(EMPTY, es);
    var s := Run(EMPTY, es);
    forall id | id in s.writes
      ensures s.writes[id] == 1
    {
      assert RowKept(s, id);
    }
    forall i | 0 <= i < |s.wins|
      ensures s.wins[i].row in s.rows && s.wins[i].readAt < s.rows[s.wins[i].row].expiresAt
    {
      assert WinKept(s, s.wins[i]);
    }
  }

  // ---------------------------------------------------------------- every success was decided

  lemma {:induction false} PrefixRuns(s: System, es: seq<Event>, k: nat)
    requires CanRun(s, es) && k <= |es|
    ensures CanRun(s, es[..k])
    ensures CanRun(Run(s, es[..k]), es[k..]) && Run(Run(s, es[..k]), es[k..]) == Run(s, es)
    decreases k
  {
    if k == 0 {
      assert es[..0] == [] && es[0..] == es;
    } else {
      PrefixRuns(After(s, es[0]), es[1..], k - 1);
      assert es[..k][1..] == es[1..][..k - 1] && es[k..] == es[1..][k - 1..];
    }
  }

  /** The last event of a run, and the state before it. */
  lemma LastStep(s: System, es: seq<Event>) returns (before: System, e: Event)
    requires CanRun(s, es) && es != []
    ensures CanRun(s, es[..|es| - 1]) && before == Run(s, es[..|es| - 1]) && e == es[|es| - 1]
    ensures Enabled(before, e) && Run(s, es) == After(before, e)
  {
    var n := |es| - 1;
    PrefixRuns(s, es, n);
    before, e := Run(s, es[..n]), es[n];
    assert es[n..][0] == e && es[n..][1..] == [];
  }

  /** Somebody of the organisation the row belongs to decides it, in favour. */
  predicate Approves(e: Event, id: string, org: string) {
    e.DecideRow? && e.id == id && e.org == org && e.approve
  }

  lemma GrantStep(s: System, e: Event, id: string)
    requires Inv(s) && Enabled(s, e) && id in After(s, e).grants
    ensures id in After(s, e).rows
    ensures (id in s.grants && id in s.rows && s.rows[id].key == After(s, e).rows[id].key) || Approves(e, id, After(s, e).rows[id].key.org)
  {
    InvStep(s, e);
    assert RowKept(s, id) && RowKept(After(s, e), id);
  }

  lemma {:induction false} GrantedByDecision(es: seq<Event>, id: string) returns (j: nat)
    requires CanRun(EMPTY, es) && id in Run(EMPTY, es).grants
    ensures id in Run(EMPTY, es).rows && j < |es| && Approves(es[j], id, Run(EMPTY, es).rows[id].key.org)
    decreases |es|
  {
    var n := |es| - 1;
    var before, e := LastStep(EMPTY, es);
    InvRun(EMPTY, es[..n]);
    GrantStep(before, e, id);
    if Approves(e, id, Run(EMPTY, es).rows[id].key.org) {
      j := n;
    } else {
      j := GrantedByDecision(es[..n], id);
    }
  }

  lemma WinByConsume(s: System, e: Event, i: nat)
    requires Inv(s) && Enabled(s, e) && |s.wins| <= i < |After(s, e).wins|
    ensures var w := After(s, e).wins[i];
            e.Consume? && w.row in s.grants && w.row in s.rows && s.rows[w.row].key == w.key
  {
    if e.Consume? {
      assert CallerKept(s, e.caller);
    }
  }

  lemma WinsStay(s: System, e: Event)
    requires Enabled(s, e)
    ensures s.wins <= After(s, e).wins
  {
  }

  /** Behind every success there is an earlier decision in favour of that very row, by somebody of the
      organisation that the action belongs to. */
  lemma {:induction false} SuccessWasDecided(es: seq<Event>, i: nat) returns (j: nat, k: nat)
    requires CanRun(EMPTY, es) && i < |Run(EMPTY, es).wins|
    ensures j < k < |es| && es[k].Consume? && es[j].DecideRow?
    ensures var w := Run(EMPTY, es).wins[i]; es[j] == DecideRow(w.row, w.key.org, es[j].approver, true)
    decreases |es|
  {
    var n := |es| - 1;
    var before, e := LastStep(EMPTY, es);
    InvRun(EMPTY, es[..n]);
    WinsStay(before, e);
    if i < |before.wins| {
      j, k := SuccessWasDecided(es[..n], i);
    } else {
      WinByConsume(before, e, i);
      j := GrantedByDecision(es[..n], Run(EMPTY, es).wins[i].row);
      k := n;
    }
  }

  /** The update of a caller: it succeeds exactly when nobody has used the row since it was read, and then uses it. */
  lemma ConsumeDecides(s: System, c: string)
    requires c in s.callers && s.callers[c].row in s.rows
    ensures var k, t := s.callers[c], After(s, Consume(c));
            && k.row in t.rows && c !in t.callers && t.rows.Keys == s.rows.Keys
            && (if s.rows[k.row].consumedAt == None then
                  t.wins == s.wins + [Win(k.row, k.key, k.readAt)] && t.rows[k.row] == s.rows[k.row].(consumedAt := Some(k.readAt))
                else t.wins == s.wins && t.rows == s.rows)
  {
  }

  /** What one step can make of a decision: only a pending request is decided, and only an approval that nobody
      has used expires. */
  lemma DecisionMoves(s: System, e: Event, id: string)
    requires Enabled(s, e) && id in s.rows
    ensures var t := After(s, e);
            && id in t.rows && t.rows[id].key == s.rows[id].key
            && (t.rows[id].decision != s.rows[id].decision ==>
                  || s.rows[id].decision == Pending
                  || (s.rows[id].decision == Approved && s.rows[id].consumedAt.None? && t.rows[id].decision == Expired))
  {
  }

  /** Over every interleaving a rejected or expired request stays so. */
  lemma {:induction false} FinalDecisionsStay(s: System, es: seq<Event>, id: string)
    requires CanRun(s, es) && id in s.rows && (s.rows[id].decision == Rejected || s.rows[id].decision == Expired)
    ensures id in Run(s, es).rows && Run(s, es).rows[id].decision == s.rows[id].decision
    decreases |es|
  {
    if es != [] {
      DecisionMoves(s, es[0], id);
      FinalDecisionsStay(After(s, es[0]), es[1..], id);
    }
  }

  /** Row `newer` was approved and consumed, and row `older`, for the same key, was requested before it. */
  predicate IsBehind(rows: Table, older: string, newer: string) {
    && older in rows && newer in rows && rows[older].key == rows[newer].key && rows[older].createdAt < rows[newer].createdAt
    && rows[newer].decision == Approved && rows[newer].consumedAt.Some?
  }

  /** An approved row behind a consumed newer one stays behind it over every run: no caller ever reads it
      again, even while it is live. */
  lemma {:induction false} HiddenForGood(s: System, es: seq<Event>, older: string, newer: string)
    requires CanRun(s, es) && IsBehind(s.rows, older, newer)
    ensures IsBehind(Run(s, es).rows, older, newer)
    ensures forall caller, key :: !Enabled(Run(s, es), Read(caller, key, older))
    decreases |es|
  {
    if es != [] {
      StaysBehind(s, es[0], older, newer);
      HiddenForGood(After(s, es[0]), es[1..], older, newer);
    }
  }

  lemma StaysBehind(s: System, e: Event, older: string, newer: string)
    requires Enabled(s, e) && IsBehind(s.rows, older, newer)
    ensures IsBehind(After(s, e).rows, older, newer)
  {
  }

  /** For each organisation, action and resource there are never more successes than approve decisions. */
  lemma SuccessesNeedDecisions(es: seq<Event>, key: Key)
    requires CanRun(EMPTY, es)
    ensures var s := Run(EMPTY, es);
            |WinsFor(s.wins, key)| <= |GrantsFor(s.rows, s.grants, key)|
  {
    InvRun(EMPTY, es);
    var s := Run(EMPTY, es);
    var wins, grants := WinsFor(s.wins, key), GrantsFor(s.rows, s.grants, key);
    WinsForMembers(s.wins, key);
    GrantsForMembers(s.rows, s.grants, key);
    forall r | r in Elements(wins)
      ensures r in Elements(grants)
    {
      assert r in wins;
      var i :| 0 <= i < |s.wins| && s.wins[i].row == r && s.wins[i].key == key;
      assert WinKept(s, s.wins[i]);
    }
    SizeOfElements(wins);
    SizeOfElements(grants);
    SubsetSize(Elements(wins), Elements(grants));
  }
}
