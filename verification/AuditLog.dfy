/** `AuditLog.append` and `AuditLog.verify` over a table of rows, and what an accepted log guarantees. */
module AuditLog {
  import opened Optional
  import opened JsonText
  import opened CanonicalText
  import opened AuditChain

  datatype Input = Input(
    orgId: Option<string>, actorType: string, actorId: string, action: string, resourceType: string,
    resourceId: string, requestId: Option<string>, riskLevel: Option<string>, decision: Option<string>,
    result: Option<string>, metadata: Option<Json>)

  function GetOr<T>(o: Option<T>, default: T): T {
    if o.Some? then o.value else default
  }

  function FieldsOf(input: Input, id: string, createdAt: string): Fields {
    Fields(id, input.orgId, input.actorType, input.actorId, input.action, input.resourceType, input.resourceId,
           input.requestId, GetOr(input.riskLevel, "low"), GetOr(input.decision, "allow"),
           GetOr(input.result, "success"), createdAt)
  }

  function MetadataOf(input: Input): Json {
    GetOr(input.metadata, Obj([]))
  }

  function LastHash(rows: seq<Row>): string {
    if rows == [] then GENESIS else rows[|rows| - 1].hash
  }

  function LinkBefore(rows: seq<Row>, i: nat): string
    requires i <= |rows|
  {
    LastHash(rows[..i])
  }

  /** The checks `verify` makes on row `i`. */
  predicate RowHolds(env: Env, rows: seq<Row>, i: nat)
    requires i < |rows|
  {
    && rows[i].prevHash == LinkBefore(rows, i)
    && env.parse(rows[i].metadata).Some?
    && rows[i].hash == env.sha256Hex(HashInput(rows[i].prevHash, rows[i].fields, env.parse(rows[i].metadata).value))
  }

  predicate Accepted(env: Env, rows: seq<Row>) {
    forall i :: 0 <= i < |rows| ==> RowHolds(env, rows, i)
  }

  /** Row `i` is the earliest that fails a check. */
  predicate FirstFailure(env: Env, rows: seq<Row>, i: nat) {
    i < |rows| && !RowHolds(env, rows, i) && forall j :: 0 <= j < i ==> RowHolds(env, rows, j)
  }

  /** Row `i` links to its predecessor but its metadata cannot be parsed. */
  predicate Throws(env: Env, rows: seq<Row>, i: nat) {
    i < |rows| && rows[i].prevHash == LinkBefore(rows, i) && env.parse(rows[i].metadata).None?
  }

  datatype Verdict =
    | Valid(checked: nat)
    | Broken(checked: nat, brokenAt: nat)
    | Unreadable  // the metadata column is not JSON; an error is thrown

  function OfOrg(rows: seq<Row>, org: string): seq<Row> {
    if rows == [] then []
    else OfOrg(rows[..|rows| - 1], org) + if rows[|rows| - 1].fields.orgId == Some(org) then [rows[|rows| - 1]] else []
  }

  /** The rows `verify` looks at: an absent or empty organisation id means all of them. */
  function Scope(rows: seq<Row>, orgId: Option<string>): seq<Row> {
    if orgId.None? || orgId.value == "" then rows else OfOrg(rows, orgId.value)
  }

  /** The rows of an organisation are those with its id, in the order of the log: a row comes after as many of
      them as precede it. */
  lemma {:induction false} OfOrgKeeps(rows: seq<Row>, org: string)
    ensures forall r :: r in OfOrg(rows, org) <==> r in rows && r.fields.orgId == Some(org)
    ensures forall i :: 0 <= i < |rows| && rows[i].fields.orgId == Some(org) ==>
              |OfOrg(rows[..i], org)| < |OfOrg(rows, org)| && OfOrg(rows, org)[|OfOrg(rows[..i], org)|] == rows[i]
  {
    if rows != [] {
      var n := |rows| - 1;
      OfOrgKeeps(rows[..n], org);
      assert rows == rows[..n] + [rows[n]];
      forall i | 0 <= i < |rows| && rows[i].fields.orgId == Some(org)
        ensures |OfOrg(rows[..i], org)| < |OfOrg(rows, org)| && OfOrg(rows, org)[|OfOrg(rows[..i], org)|] == rows[i]
      {
        assert i < n ==> rows[..n][..i] == rows[..i] && rows[..n][i] == rows[i];
      }
    }
  }

  /** `verify` without an organisation looks at every row; with one at the rows of that organisation. */
  lemma ScopeMeans(rows: seq<Row>, orgId: Option<string>, r: Row)
    ensures orgId == None || orgId == Some("") ==> Scope(rows, orgId) == rows
    ensures orgId.Some? && orgId.value != "" ==> (r in Scope(rows, orgId) <==> r in rows && r.fields.orgId == orgId)
  {
    if orgId.Some? {
      OfOrgKeeps(rows, orgId.value);
    }
  }

  /** What it takes for a row to pass, in its columns: the link is the hash of the row before, or `GENESIS` for
      the first, and the hash is that of the link and the canonical event. */
  lemma RowHoldsMeans(env: Env, rows: seq<Row>, i: nat)
    requires i < |rows|
    ensures RowHolds(env, rows, i) <==>
            && rows[i].prevHash == (if i == 0 then "GENESIS" else rows[i - 1].hash)
            && env.parse(rows[i].metadata).Some?
            && rows[i].hash == env.sha256Hex(rows[i].prevHash + CanonicalJson(Body(rows[i].fields, env.parse(rows[i].metadata).value)))
  {
    assert i > 0 ==> rows[..i] != [] && rows[..i][i - 1] == rows[i - 1];
  }

  class AuditLog {
    const env: Env
    var rows: seq<Row>

    constructor (env: Env)
      ensures this.env == env && rows == []
    {
      this.env := env;
      rows := [];
    }

    method Append(input: Input, id: string, createdAt: string) returns (number: nat)
      modifies this
      ensures rows == Appended(env, old(rows), input, id, createdAt)
      ensures |rows| == |old(rows)| + 1 && rows[..|old(rows)|] == old(rows)
      ensures var row, prev := rows[|old(rows)|], if old(rows) == [] then "GENESIS" else old(rows)[|old(rows)| - 1].hash;
              var metadata := if input.metadata.Some? then input.metadata.value else Obj([]);
              && row.number == number == (if old(rows) == [] then 1 else old(rows)[|old(rows)| - 1].number + 1)
              && row.fields == Fields(id, input.orgId, input.actorType, input.actorId, input.action, input.resourceType, input.resourceId,
                                      input.requestId, if input.riskLevel.Some? then input.riskLevel.value else "low",
                                      if input.decision.Some? then input.decision.value else "allow",
                                      if input.result.Some? then input.result.value else "success", createdAt)
              && row.metadata == Stringify(metadata) && row.prevHash == prev
              && row.hash == env.sha256Hex(prev + CanonicalJson(Body(row.fields, metadata)))
    {
      var prevHash := if |rows| == 0 then GENESIS else rows[|rows| - 1].hash;
      var f := FieldsOf(input, id, createdAt);
      var hash := env.sha256Hex(HashInput(prevHash, f, MetadataOf(input)));
      number := if |rows| == 0 then 1 else rows[|rows| - 1].number + 1;
      rows := rows + [Row(number, f, Stringify(MetadataOf(input)), prevHash, hash)];
    }

    method Verify(orgId: Option<string>) returns (v: Verdict)
      ensures v.Valid? <==> Accepted(env, Scope(rows, orgId))
      ensures v.Valid? || v.Broken? ==> v.checked == |Scope(rows, orgId)|
      ensures v.Broken? ==> exists i: nat :: FirstFailure(env, Scope(rows, orgId), i) &&
                              !Throws(env, Scope(rows, orgId), i) && v.brokenAt == Scope(rows, orgId)[i].number
      ensures v.Unreadable? ==> exists i: nat :: FirstFailure(env, Scope(rows, orgId), i) && Throws(env, Scope(rows, orgId), i)
    {
      var scope := Scope(rows, orgId);
      var prevHash := GENESIS;
      var i := 0;
      while i < |scope|
        invariant 0 <= i <= |scope| && prevHash == LinkBefore(scope, i)
        invariant forall j :: 0 <= j < i ==> RowHolds(env, scope, j)
      {
        var r := scope[i];
        assert LinkBefore(scope, i + 1) == r.hash;
        if r.prevHash != prevHash {
          assert FirstFailure(env, scope, i);
          return Broken(|scope|, r.number);
        }
        var metadata := env.parse(r.metadata);
        if metadata.None? {
          assert FirstFailure(env, scope, i);
          return Unreadable;
        }
        if env.sha256Hex(HashInput(prevHash, r.fields, metadata.value)) != r.hash {
          assert FirstFailure(env, scope, i);
          return Broken(|scope|, r.number);
        }
        prevHash := r.hash;
        i := i + 1;
      }
      return Valid(|scope|);
    }
  }

  // ---------------------------------------------------------------- appended logs

  function Appended(env: Env, rows: seq<Row>, input: Input, id: string, createdAt: string): seq<Row> {
    var f := FieldsOf(input, id, createdAt);
    var number := if rows == [] then 1 else rows[|rows| - 1].number + 1;
    rows + [Row(number, f, Stringify(MetadataOf(input)), LastHash(rows),
                env.sha256Hex(HashInput(LastHash(rows), f, MetadataOf(input))))]
  }

  ghost predicate PlainInput(input: Input) {
    WellFormed(MetadataOf(input))
  }

  lemma PrefixAccepted(env: Env, rows: seq<Row>, n: nat)
    requires Accepted(env, rows) && n <= |rows|
    ensures Accepted(env, rows[..n])
  {
    forall i | 0 <= i < n
      ensures RowHolds(env, rows[..n], i)
    {
      assert rows[..n][..i] == rows[..i];
      assert RowHolds(env, rows, i);
    }
  }

  /** Appending to an accepted log gives an accepted log, whatever the order and the number of
      members of the metadata. */
  lemma AppendKeepsAccepted(env: Env, rows: seq<Row>, input: Input, id: string, createdAt: string)
    requires GoodEnv(env) && PlainInput(input) && Accepted(env, rows)
    ensures Accepted(env, Appended(env, rows, input, id, createdAt))
  {
    var after := Appended(env, rows, input, id, createdAt);
    var n := |rows|;
    forall i | 0 <= i <= n
      ensures RowHolds(env, after, i)
    {
      assert after[..i] == rows[..i];
      if i < n {
        assert RowHolds(env, rows, i);
      } else {
        assert rows[..n] == rows;
        var m := MetadataOf(input);
        var back := env.parse(Stringify(m));
        assert back.Some? && WellFormed(back.value);
        BodyDeterminesEvent(after[n].fields, m, after[n].fields, back.value);
      }
    }
  }

  datatype Entry = Entry(input: Input, id: string, createdAt: string)

  function Built(env: Env, entries: seq<Entry>): seq<Row> {
    if entries == [] then []
    else
      var last := entries[|entries| - 1];
      Appended(env, Built(env, entries[..|entries| - 1]), last.input, last.id, last.createdAt)
  }

  /** Every log built by `append` alone is accepted. */
  lemma {:induction false} BuiltLogsAreAccepted(env: Env, entries: seq<Entry>)
    requires GoodEnv(env) && forall i :: 0 <= i < |entries| ==> PlainInput(entries[i].input)
    ensures Accepted(env, Built(env, entries))
  {
    if entries != [] {
      var n := |entries| - 1;
      BuiltLogsAreAccepted(env, entries[..n]);
      AppendKeepsAccepted(env, Built(env, entries[..n]), entries[n].input, entries[n].id, entries[n].createdAt);
    }
  }

  // ---------------------------------------------------------------- tamper evidence

  /** The text that was hashed for a row. */
  function HashedText(env: Env, r: Row): string
    requires env.parse(r.metadata).Some?
  {
    HashInput(r.prevHash, r.fields, env.parse(r.metadata).value)
  }

  /** Two rows hash different texts to one digest. */
  ghost predicate Collide(env: Env, r: Row, s: Row) {
    && env.parse(r.metadata).Some? && env.parse(s.metadata).Some?
    && HashedText(env, r) != HashedText(env, s)
    && env.sha256Hex(HashedText(env, r)) == env.sha256Hex(HashedText(env, s))
  }

  /** No text hashed by `a` collides with a text hashed by `b`. */
  ghost predicate CollisionFree(env: Env, a: seq<Row>, b: seq<Row>) {
    forall i, j :: 0 <= i < |a| && 0 <= j < |b| ==> !Collide(env, a[i], b[j])
  }

  /** The same event with the same links; the row number and the order of metadata members may differ. */
  ghost predicate SameEvent(env: Env, r: Row, s: Row) {
    && r.fields == s.fields && r.prevHash == s.prevHash && r.hash == s.hash
    && env.parse(r.metadata).Some? && env.parse(s.metadata).Some?
    && Meaning(env.parse(r.metadata).value, {PROTO}) == Meaning(env.parse(s.metadata).value, {PROTO})
  }

  ghost predicate SameHistory(env: Env, a: seq<Row>, b: seq<Row>) {
    |a| == |b| && forall i :: 0 <= i < |a| ==> SameEvent(env, a[i], b[i])
  }

  lemma LinksAreLinks(env: Env, rows: seq<Row>)
    requires GoodEnv(env) && Accepted(env, rows)
    ensures IsLink(LastHash(rows))
    ensures LastHash(rows) == GENESIS <==> rows == []
  {
    if rows != [] {
      assert RowHolds(env, rows, |rows| - 1);
      assert IsHexDigest(LastHash(rows));
      assert GENESIS[0] == 'G' && IsHexChar(LastHash(rows)[0]);
    }
  }

  lemma LastRowsAgree(env: Env, a: seq<Row>, b: seq<Row>)
    requires GoodEnv(env) && Accepted(env, a) && Accepted(env, b) && a != [] && b != []
    requires LastHash(a) == LastHash(b) && CollisionFree(env, a, b)
    ensures SameEvent(env, a[|a| - 1], b[|b| - 1])
    ensures LastHash(a[..|a| - 1]) == LastHash(b[..|b| - 1])
  {
    var r, s := a[|a| - 1], b[|b| - 1];
    assert RowHolds(env, a, |a| - 1) && RowHolds(env, b, |b| - 1);
    PrefixAccepted(env, a, |a| - 1);
    PrefixAccepted(env, b, |b| - 1);
    LinksAreLinks(env, a[..|a| - 1]);
    LinksAreLinks(env, b[..|b| - 1]);
    assert !Collide(env, r, s);
    InputDeterminesRow(r.prevHash, r.fields, env.parse(r.metadata).value,
                       s.prevHash, s.fields, env.parse(s.metadata).value);
  }

  /** Two accepted logs that end in the same hash record the same events, unless two of the texts
      they hash collide. */
  lemma {:induction false} TamperEvident(env: Env, a: seq<Row>, b: seq<Row>)
    requires GoodEnv(env) && Accepted(env, a) && Accepted(env, b)
    requires LastHash(a) == LastHash(b) && CollisionFree(env, a, b)
    ensures SameHistory(env, a, b)
    decreases |a|
  {
    BothEmpty(env, a, b);
    if a != [] {
      var c, d := a[..|a| - 1], b[..|b| - 1];
      LastRowsAgree(env, a, b);
      EarlierRows(env, a, b);
      TamperEvident(env, c, d);
      ExtendHistory(env, a, b);
    }
  }

  lemma BothEmpty(env: Env, a: seq<Row>, b: seq<Row>)
    requires GoodEnv(env) && Accepted(env, a) && Accepted(env, b) && LastHash(a) == LastHash(b)
    ensures a == [] <==> b == []
  {
    LinksAreLinks(env, a);
    LinksAreLinks(env, b);
  }

  lemma EarlierRows(env: Env, a: seq<Row>, b: seq<Row>)
    requires Accepted(env, a) && Accepted(env, b) && CollisionFree(env, a, b) && a != [] && b != []
    ensures Accepted(env, a[..|a| - 1]) && Accepted(env, b[..|b| - 1])
    ensures CollisionFree(env, a[..|a| - 1], b[..|b| - 1])
  {
    PrefixAccepted(env, a, |a| - 1);
    PrefixAccepted(env, b, |b| - 1);
    PrefixTexts(env, a, b, |a| - 1, |b| - 1);
  }

  lemma PrefixTexts(env: Env, a: seq<Row>, b: seq<Row>, m: nat, n: nat)
    requires m <= |a| && n <= |b| && CollisionFree(env, a, b)
    ensures CollisionFree(env, a[..m], b[..n])
  {
  }

  lemma ExtendHistory(env: Env, a: seq<Row>, b: seq<Row>)
    requires a != [] && b != [] && SameHistory(env, a[..|a| - 1], b[..|b| - 1])
    requires SameEvent(env, a[|a| - 1], b[|b| - 1])
    ensures SameHistory(env, a, b)
  {
    var m := |a| - 1;
    forall i | 0 <= i < |a|
      ensures SameEvent(env, a[i], b[i])
    {
      if i < m {
        assert SameEvent(env, a[..m][i], b[..m][i]);
      }
    }
  }

  // ---------------------------------------------------------------- verification of one organisation

  /** The rows of `org` come before all other rows. */
  ghost predicate OrgIsPrefix(rows: seq<Row>, org: string) {
    OfOrg(rows, org) <= rows
  }

  /** In an accepted log no two prefixes of different length end in the same hash. */
  lemma PrefixHashesDiffer(env: Env, rows: seq<Row>, m: nat, n: nat)
    requires GoodEnv(env) && Accepted(env, rows) && CollisionFree(env, rows, rows)
    requires m <= |rows| && n <= |rows| && LastHash(rows[..m]) == LastHash(rows[..n])
    ensures m == n
  {
    PrefixAccepted(env, rows, m);
    PrefixAccepted(env, rows, n);
    PrefixTexts(env, rows, rows, m, n);
    TamperEvident(env, rows[..m], rows[..n]);
  }

  lemma {:induction false} OfOrgAt(rows: seq<Row>, org: string, k: nat) returns (i: nat)
    requires k < |OfOrg(rows, org)|
    ensures k <= i < |rows| && OfOrg(rows, org)[k] == rows[i]
    decreases |rows|
  {
    var n := |rows| - 1;
    if k < |OfOrg(rows[..n], org)| {
      i := OfOrgAt(rows[..n], org, k);
    } else {
      OfOrgLength(rows[..n], org);
      i := n;
    }
  }

  lemma {:induction false} OfOrgLength(rows: seq<Row>, org: string)
    ensures |OfOrg(rows, org)| <= |rows|
  {
    if rows != [] {
      OfOrgLength(rows[..|rows| - 1], org);
    }
  }

  lemma NextOrgRow(env: Env, rows: seq<Row>, org: string, k: nat)
    requires GoodEnv(env) && Accepted(env, rows) && CollisionFree(env, rows, rows)
    requires k < |OfOrg(rows, org)| && RowHolds(env, OfOrg(rows, org), k)
    requires k <= |rows| && OfOrg(rows, org)[..k] == rows[..k]
    ensures k < |rows| && OfOrg(rows, org)[k] == rows[k]
  {
    var i := OfOrgAt(rows, org, k);
    assert RowHolds(env, rows, i);
    assert LastHash(rows[..k]) == LastHash(rows[..i]);
    PrefixHashesDiffer(env, rows, k, i);
  }

  /** If the rows of one organisation pass on their own, they are the first rows of the log. */
  lemma {:induction false} OrgRowsLeadLog(env: Env, rows: seq<Row>, org: string, k: nat)
    requires GoodEnv(env) && Accepted(env, rows) && CollisionFree(env, rows, rows)
    requires Accepted(env, OfOrg(rows, org)) && k <= |OfOrg(rows, org)|
    ensures k <= |rows| && OfOrg(rows, org)[..k] == rows[..k]
    decreases k
  {
    if k > 0 {
      var sub := OfOrg(rows, org);
      OrgRowsLeadLog(env, rows, org, k - 1);
      NextOrgRow(env, rows, org, k - 1);
      assert sub[..k] == sub[..k - 1] + [sub[k - 1]] && rows[..k] == rows[..k - 1] + [rows[k - 1]];
    }
  }

  /** On an accepted log, verifying one organisation succeeds exactly when its rows come first. */
  lemma OrgAcceptedIffPrefix(env: Env, rows: seq<Row>, org: string)
    requires GoodEnv(env) && Accepted(env, rows) && CollisionFree(env, rows, rows)
    ensures Accepted(env, OfOrg(rows, org)) <==> OrgIsPrefix(rows, org)
  {
    var sub := OfOrg(rows, org);
    if Accepted(env, sub) {
      OrgRowsLeadLog(env, rows, org, |sub|);
      assert sub[..|sub|] == sub;
    }
    if OrgIsPrefix(rows, org) {
      PrefixAccepted(env, rows, |sub|);
      assert rows[..|sub|] == sub;
    }
  }
}
