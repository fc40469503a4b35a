/** The hash chain of the audit log: what one row commits to, and what an accepted sequence of rows is. */
module AuditChain {
  import opened Optional
  import opened JsonText
  import opened CanonicalText

  const GENESIS := "GENESIS"

  /** SHA-256 in hexadecimal and `JSON.parse`, as the log uses them. */
  datatype Env = Env(sha256Hex: string -> string, parse: string -> Option<Json>)

  predicate IsHexChar(c: char) {
    '0' <= c <= '9' || 'a' <= c <= 'f'
  }

  predicate IsHexDigest(h: string) {
    |h| == 64 && forall i :: 0 <= i < |h| ==> IsHexChar(h[i])
  }

  /** Parsing gives well-formed values and reads printed values back up to member order. */
  ghost predicate ReadsBack(parse: string -> Option<Json>) {
    && (forall t :: parse(t).Some? ==> WellFormed(parse(t).value))
    && (forall v :: WellFormed(v) ==> parse(Stringify(v)).Some? && Meaning(parse(Stringify(v)).value, {PROTO}) == Meaning(v, {PROTO}))
  }

  ghost predicate GoodEnv(env: Env) {
    (forall t :: IsHexDigest(env.sha256Hex(t))) && ReadsBack(env.parse)
  }

  datatype Fields = Fields(
    id: string, orgId: Option<string>, actorType: string, actorId: string, action: string,
    resourceType: string, resourceId: string, requestId: Option<string>, riskLevel: string,
    decision: string, result: string, createdAt: string)

  datatype Row = Row(number: nat, fields: Fields, metadata: string, prevHash: string, hash: string)

  function Nullable(s: Option<string>): Json {
    if s.None? then Null else Str(s.value)
  }

  /** The object whose canonical text is hashed. */
  function Members(f: Fields, metadata: Json): seq<Member> {
    [Member("id", Str(f.id)), Member("org_id", Nullable(f.orgId)), Member("actor_type", Str(f.actorType)),
     Member("actor_id", Str(f.actorId)), Member("action", Str(f.action)), Member("resource_type", Str(f.resourceType)),
     Member("resource_id", Str(f.resourceId)), Member("request_id", Nullable(f.requestId)),
     Member("risk_level", Str(f.riskLevel)), Member("decision", Str(f.decision)), Member("result", Str(f.result)),
     Member("metadata", metadata), Member("created_at", Str(f.createdAt))]
  }

  function Body(f: Fields, metadata: Json): Json {
    Obj(Members(f, metadata))
  }

  function HashInput(prevHash: string, f: Fields, metadata: Json): string {
    prevHash + CanonicalJson(Body(f, metadata))
  }

  // ---------------------------------------------------------------- what a body determines

  /** Where a member of the hashed object stands, told from the length and the first letters of its name. */
  function Position(k: string): int {
    if |k| == 2 then 0
    else if |k| == 6 then if k[0] == 'o' then 1 else if k[0] == 'a' then 4 else 10
    else if |k| == 8 then if k[0] == 'a' then 3 else if k[0] == 'd' then 9 else 11
    else if |k| == 10 then if k[0] == 'a' then 2 else if k[0] == 'c' then 12 else if k[1] == 'e' then 7 else 8
    else if |k| == 11 then 6
    else if |k| == 13 then 5
    else -1
  }

  lemma MemberPosition(f: Fields, metadata: Json, i: nat)
    requires i < 13
    ensures Position(Members(f, metadata)[i].key) == i
  {
    var k := Members(f, metadata)[i].key;
    if i < 4 {
      assert k == if i == 0 then "id" else if i == 1 then "org_id" else if i == 2 then "actor_type" else "actor_id";
    } else if i < 8 {
      assert k == if i == 4 then "action" else if i == 5 then "resource_type" else if i == 6 then "resource_id" else "request_id";
    } else if i < 11 {
      assert k == if i == 8 then "risk_level" else if i == 9 then "decision" else "result";
    } else {
      assert k == if i == 11 then "metadata" else "created_at";
    }
  }

  lemma MembersDistinct(f: Fields, metadata: Json)
    ensures DistinctKeys(Members(f, metadata))
    ensures forall m :: m in Members(f, metadata) ==> m.key != PROTO
  {
    var ms := Members(f, metadata);
    assert |ms| == 13 && Position(PROTO) == -1;
    forall i: nat | i < 13
      ensures Position(ms[i].key) == i
    {
      MemberPosition(f, metadata, i);
    }
    AllPlaced(ms);
  }

  lemma AllPlaced(ms: seq<Member>)
    requires forall i: nat :: i < |ms| ==> Position(ms[i].key) == i
    ensures DistinctKeys(ms) && forall m :: m in ms ==> Position(m.key) >= 0
  {
    forall m | m in ms
      ensures Position(m.key) >= 0
    {
      var i: nat :| i < |ms| && ms[i] == m;
    }
  }

  lemma MembersWellFormed(f: Fields, metadata: Json)
    requires WellFormed(metadata)
    ensures WellFormedMembers(Members(f, metadata))
  {
    var ms := Members(f, metadata);
    assert forall i :: 0 <= i < |ms| ==> WellFormed(ms[i].value);
    AllWellFormed(ms);
  }

  lemma {:induction false} AllWellFormed(ms: seq<Member>)
    requires forall i :: 0 <= i < |ms| ==> WellFormed(ms[i].value)
    ensures WellFormedMembers(ms)
  {
    if ms != [] {
      AllWellFormed(ms[1..]);
    }
  }

  lemma {:induction false} MeaningAt(ms: seq<Member>, i: nat)
    requires DistinctKeys(ms) && i < |ms| && ms[i].key != PROTO
    ensures ms[i].key in MemberMeanings(ms, {PROTO})
    ensures MemberMeanings(ms, {PROTO})[ms[i].key] == Meaning(ms[i].value, {PROTO})
  {
    if i > 0 {
      assert ms[0].key != ms[i].key;
      MeaningAt(ms[1..], i - 1);
    }
  }

  /** Equal member meanings mean equal values at each position. */
  lemma SameAt(a: seq<Member>, b: seq<Member>, i: nat)
    requires DistinctKeys(a) && DistinctKeys(b) && i < |a| && i < |b|
    requires a[i].key == b[i].key && a[i].key != PROTO
    requires MemberMeanings(a, {PROTO}) == MemberMeanings(b, {PROTO})
    ensures Meaning(a[i].value, {PROTO}) == Meaning(b[i].value, {PROTO})
  {
    MeaningAt(a, i);
    MeaningAt(b, i);
  }

  lemma NullableInjective(a: Option<string>, b: Option<string>)
    requires Meaning(Nullable(a), {PROTO}) == Meaning(Nullable(b), {PROTO})
    ensures a == b
  {
  }

  /** The canonical text of a body determines the event, its metadata up to member order
      and "__proto__" members. */
  lemma BodyDeterminesEvent(f: Fields, m: Json, g: Fields, n: Json)
    requires WellFormed(m) && WellFormed(n)
    ensures CanonicalJson(Body(f, m)) == CanonicalJson(Body(g, n)) <==>
            f == g && Meaning(m, {PROTO}) == Meaning(n, {PROTO})
  {
    var a, b := Members(f, m), Members(g, n);
    MembersDistinct(f, m);
    MembersDistinct(g, n);
    MembersWellFormed(f, m);
    MembersWellFormed(g, n);
    CanonicalIffSameMeaning(Obj(a), Obj(b));
    if CanonicalJson(Obj(a)) == CanonicalJson(Obj(b)) {
      forall i | 0 <= i < 13
        ensures Meaning(a[i].value, {PROTO}) == Meaning(b[i].value, {PROTO})
      {
        SameKeyAt(f, m, g, n, i);
        SameAt(a, b, i);
      }
      SameFields(f, m, g, n);
    } else if f == g && Meaning(m, {PROTO}) == Meaning(n, {PROTO}) {
      SameBodies(f, m, n);
    }
  }

  lemma SameKeyAt(f: Fields, m: Json, g: Fields, n: Json, i: nat)
    requires i < 13
    ensures Members(f, m)[i].key == Members(g, n)[i].key != PROTO
  {
  }

  ghost predicate SameValues(a: seq<Member>, b: seq<Member>) {
    |a| == |b| && forall i :: 0 <= i < |a| ==> Meaning(a[i].value, {PROTO}) == Meaning(b[i].value, {PROTO})
  }

  lemma SameActor(f: Fields, m: Json, g: Fields, n: Json)
    requires SameValues(Members(f, m), Members(g, n))
    ensures f.id == g.id && f.orgId == g.orgId && f.actorType == g.actorType && f.actorId == g.actorId
  {
    var a, b := Members(f, m), Members(g, n);
    assert a[0].value == Str(f.id) && b[0].value == Str(g.id);
    assert a[1].value == Nullable(f.orgId) && b[1].value == Nullable(g.orgId);
    NullableInjective(f.orgId, g.orgId);
    assert a[2].value == Str(f.actorType) && b[2].value == Str(g.actorType);
    assert a[3].value == Str(f.actorId) && b[3].value == Str(g.actorId);
  }

  lemma SameTarget(f: Fields, m: Json, g: Fields, n: Json)
    requires SameValues(Members(f, m), Members(g, n))
    ensures f.action == g.action && f.resourceType == g.resourceType && f.resourceId == g.resourceId && f.requestId == g.requestId
  {
    var a, b := Members(f, m), Members(g, n);
    assert a[4].value == Str(f.action) && b[4].value == Str(g.action);
    assert a[5].value == Str(f.resourceType) && b[5].value == Str(g.resourceType);
    assert a[6].value == Str(f.resourceId) && b[6].value == Str(g.resourceId);
    assert a[7].value == Nullable(f.requestId) && b[7].value == Nullable(g.requestId);
    NullableInjective(f.requestId, g.requestId);
  }

  lemma SameResult(f: Fields, m: Json, g: Fields, n: Json)
    requires SameValues(Members(f, m), Members(g, n))
    ensures f.riskLevel == g.riskLevel && f.decision == g.decision && f.result == g.result
  {
    var a, b := Members(f, m), Members(g, n);
    assert a[8].value == Str(f.riskLevel) && b[8].value == Str(g.riskLevel);
    assert a[9].value == Str(f.decision) && b[9].value == Str(g.decision);
    assert a[10].value == Str(f.result) && b[10].value == Str(g.result);
  }

  lemma LastMembers(f: Fields, metadata: Json)
    ensures Members(f, metadata)[11].value == metadata && Members(f, metadata)[12].value == Str(f.createdAt)
  {
  }

  lemma SameRest(f: Fields, m: Json, g: Fields, n: Json)
    requires SameValues(Members(f, m), Members(g, n))
    ensures Meaning(m, {PROTO}) == Meaning(n, {PROTO}) && f.createdAt == g.createdAt
  {
    LastMembers(f, m);
    LastMembers(g, n);
    SameValueAt(Members(f, m), Members(g, n), 11, m, n);
    SameValueAt(Members(f, m), Members(g, n), 12, Str(f.createdAt), Str(g.createdAt));
  }

  lemma SameValueAt(a: seq<Member>, b: seq<Member>, i: nat, v: Json, w: Json)
    requires SameValues(a, b) && i < |a| && a[i].value == v && b[i].value == w
    ensures Meaning(v, {PROTO}) == Meaning(w, {PROTO})
  {
  }

  lemma SameFields(f: Fields, m: Json, g: Fields, n: Json)
    requires SameValues(Members(f, m), Members(g, n))
    ensures f == g && Meaning(m, {PROTO}) == Meaning(n, {PROTO})
  {
    SameActor(f, m, g, n);
    SameTarget(f, m, g, n);
    SameResult(f, m, g, n);
    SameRest(f, m, g, n);
  }

  lemma SameBodies(f: Fields, m: Json, n: Json)
    requires Meaning(m, {PROTO}) == Meaning(n, {PROTO})
    ensures MemberMeanings(Members(f, m), {PROTO}) == MemberMeanings(Members(f, n), {PROTO})
  {
    ReplaceValue(Members(f, m), 11, n);
    assert Members(f, m)[11 := Member("metadata", n)] == Members(f, n);
  }

  lemma {:induction false} ReplaceValue(ms: seq<Member>, i: nat, v: Json)
    requires i < |ms| && Meaning(ms[i].value, {PROTO}) == Meaning(v, {PROTO})
    ensures MemberMeanings(ms[i := Member(ms[i].key, v)], {PROTO}) == MemberMeanings(ms, {PROTO})
    decreases i
  {
    var after := ms[i := Member(ms[i].key, v)];
    if i == 0 {
      assert after[1..] == ms[1..];
    } else {
      ReplaceValue(ms[1..], i - 1, v);
      assert after[1..] == ms[1..][i - 1 := Member(ms[i].key, v)];
    }
  }

  // ---------------------------------------------------------------- splitting the hashed text

  predicate IsLink(p: string) {
    p == GENESIS || IsHexDigest(p)
  }

  lemma LinkHasNoBrace(p: string)
    requires IsLink(p)
    ensures '{' !in p
  {
  }

  lemma UniqueSplit(p: string, c: string, q: string, d: string)
    requires IsLink(p) && IsLink(q) && c != "" && d != "" && c[0] == '{' && d[0] == '{'
    requires p + c == q + d
    ensures p == q && c == d
  {
    LinkHasNoBrace(p);
    LinkHasNoBrace(q);
    var t := p + c;
    assert t[|p|] == '{' && t[|q|] == '{';
    assert forall i :: 0 <= i < |p| ==> t[i] == p[i];
    assert forall i :: 0 <= i < |q| ==> t[i] == q[i];
    assert |p| == |q|;
    assert p == t[..|p|] == q && c == t[|p|..] == d;
  }

  /** The text hashed for a row determines the link to its predecessor and the event. */
  lemma InputDeterminesRow(p: string, f: Fields, m: Json, q: string, g: Fields, n: Json)
    requires IsLink(p) && IsLink(q) && WellFormed(m) && WellFormed(n)
    requires HashInput(p, f, m) == HashInput(q, g, n)
    ensures p == q && f == g && Meaning(m, {PROTO}) == Meaning(n, {PROTO})
  {
    UniqueSplit(p, CanonicalJson(Body(f, m)), q, CanonicalJson(Body(g, n)));
    BodyDeterminesEvent(f, m, g, n);
  }

  /** `JSON.parse` as the reader of `JsonText`, kept to well-formed results, reads back. */
  lemma ReaderReadsBack(parse: string -> Option<Json>)
    requires forall t :: parse(t) == if Parse(t).Some? && WellFormed(Parse(t).value) then Parse(t) else None
    ensures ReadsBack(parse)
  {
    forall v | WellFormed(v)
      ensures parse(Stringify(v)).Some? && Meaning(parse(Stringify(v)).value, {PROTO}) == Meaning(v, {PROTO})
    {
      ParseStringify(v);
    }
  }

  // ---------------------------------------------------------------- what is hashed

  lemma {:induction false} LookupOf(ms: seq<Member>, i: nat)
    requires DistinctKeys(ms) && i < |ms|
    ensures Lookup(ms, ms[i].key) == Some(ms[i].value)
  {
    if i > 0 {
      assert ms[0].key != ms[i].key;
      LookupOf(ms[1..], i - 1);
    }
  }

  /** Among the hashed members there is one called `name`, with this value. */
  ghost predicate Holds(ms: seq<Member>, name: string, value: Json) {
    Lookup(ms, name) == Some(value)
  }

  lemma HashedMember(f: Fields, metadata: Json, i: nat)
    requires i < 13
    ensures Holds(SortMembers(Members(f, metadata)), Members(f, metadata)[i].key, SortValue(Members(f, metadata)[i].value))
  {
    var ms := Members(f, metadata);
    MembersDistinct(f, metadata);
    SortMembersLookup(ms);
    LookupOf(ms, i);
    assert ms[i] in ms;
  }

  lemma HashedActor(f: Fields, metadata: Json)
    ensures var ms := SortMembers(Members(f, metadata));
            && Holds(ms, "id", Str(f.id)) && Holds(ms, "org_id", if f.orgId.Some? then Str(f.orgId.value) else Null)
            && Holds(ms, "actor_type", Str(f.actorType)) && Holds(ms, "actor_id", Str(f.actorId))
  {
    forall i: nat | i < 4
      ensures Holds(SortMembers(Members(f, metadata)), Members(f, metadata)[i].key, SortValue(Members(f, metadata)[i].value))
    {
      HashedMember(f, metadata, i);
    }
    assert Members(f, metadata)[0].key == "id" && Members(f, metadata)[1].key == "org_id";
    assert Members(f, metadata)[2].key == "actor_type" && Members(f, metadata)[3].key == "actor_id";
  }

  lemma HashedTarget(f: Fields, metadata: Json)
    ensures var ms := SortMembers(Members(f, metadata));
            && Holds(ms, "action", Str(f.action)) && Holds(ms, "resource_type", Str(f.resourceType))
            && Holds(ms, "resource_id", Str(f.resourceId))
            && Holds(ms, "request_id", if f.requestId.Some? then Str(f.requestId.value) else Null)
  {
    forall i: nat | 4 <= i < 8
      ensures Holds(SortMembers(Members(f, metadata)), Members(f, metadata)[i].key, SortValue(Members(f, metadata)[i].value))
    {
      HashedMember(f, metadata, i);
    }
    assert Members(f, metadata)[4].key == "action" && Members(f, metadata)[5].key == "resource_type";
    assert Members(f, metadata)[6].key == "resource_id" && Members(f, metadata)[7].key == "request_id";
  }

  lemma HashedResult(f: Fields, metadata: Json)
    ensures var ms := SortMembers(Members(f, metadata));
            && Holds(ms, "risk_level", Str(f.riskLevel)) && Holds(ms, "decision", Str(f.decision)) && Holds(ms, "result", Str(f.result))
            && Holds(ms, "metadata", SortValue(metadata)) && Holds(ms, "created_at", Str(f.createdAt))
  {
    forall i: nat | 8 <= i < 13
      ensures Holds(SortMembers(Members(f, metadata)), Members(f, metadata)[i].key, SortValue(Members(f, metadata)[i].value))
    {
      HashedMember(f, metadata, i);
    }
    LastMembers(f, metadata);
    assert Members(f, metadata)[8].key == "risk_level" && Members(f, metadata)[9].key == "decision";
    assert Members(f, metadata)[10].key == "result" && Members(f, metadata)[11].key == "metadata" && Members(f, metadata)[12].key == "created_at";
  }

  /** The hashed text is the link, followed by JSON that reads back as one object with sorted members, of which
      the three lemmas above name thirteen; and there are no others. */
  lemma HashedTextReads(p: string, f: Fields, metadata: Json) returns (ms: seq<Member>, text: string)
    requires WellFormed(metadata)
    ensures HashInput(p, f, metadata) == p + text && Parse(text) == Some(Obj(ms)) && Sorted(ms)
    ensures ms == SortMembers(Members(f, metadata)) && |ms| == 13
  {
    ms, text := SortMembers(Members(f, metadata)), CanonicalJson(Body(f, metadata));
    MembersDistinct(f, metadata);
    MembersWellFormed(f, metadata);
    SortMembersLookup(Members(f, metadata));
    SortKeepsWellFormed(Body(f, metadata));
    ParseStringify(Obj(ms));
    SortKeepsCount(Members(f, metadata));
  }

  lemma {:induction false} SortKeepsCount(ms: seq<Member>)
    requires forall m :: m in ms ==> m.key != PROTO
    ensures |SortMembers(ms)| == |ms|
  {
    if ms != [] {
      assert ms[0] in ms && forall m :: m in ms[1..] ==> m in ms;
      SortKeepsCount(ms[1..]);
      InsertCounts(Member(ms[0].key, SortValue(ms[0].value)), SortMembers(ms[1..]));
    }
  }

  lemma {:induction false} InsertCounts(m: Member, ms: seq<Member>)
    ensures |Insert(m, ms)| == |ms| + 1
  {
    if ms != [] && !KeyLess(m.key, ms[0].key) {
      InsertCounts(m, ms[1..]);
    }
  }
}
