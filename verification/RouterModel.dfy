/** Candidates, their order, and one request of the model router as functions of values. */
module RouterModel {
  import opened Optional
  import opened Breaker

  datatype Model = Model(modelId: string, alias: string, tier: string, capabilities: set<string>,
                         contextWindow: int, inputCostPer1k: real, outputCostPer1k: real)

  datatype Provider = Provider(id: string, name: string, models: seq<Model>)

  datatype Candidate = Candidate(providerId: string, providerName: string, model: Model)

  datatype Policy = Policy(preferCheaper: bool, maxFallbacks: nat, maxRetries: int)

  datatype Constraints = Constraints(tier: Option<string>, requiredCapabilities: set<string>)

  function Key(c: Candidate): string {
    c.providerId + ":" + c.model.modelId
  }

  lemma FirstColon(a: string, x: string, b: string, y: string)
    requires ':' !in a && ':' !in b && a + ":" + x == b + ":" + y
    ensures a == b && x == y
  {
    var s := a + ":" + x;
    assert s[|a|] == ':' && s[|b|] == ':';
    assert forall i :: 0 <= i < |a| ==> s[i] == a[i];
    assert forall i :: 0 <= i < |b| ==> s[i] == b[i];
    assert |a| == |b|;
    assert a == s[..|a|] == b && x == s[|a| + 1..] == y;
  }

  /** There is one breaker for each model of each provider, provided provider ids hold no colon. */
  lemma KeysSeparate(a: Candidate, b: Candidate)
    requires ':' !in a.providerId && ':' !in b.providerId
    ensures Key(a) == Key(b) <==> a.providerId == b.providerId && a.model.modelId == b.model.modelId
  {
    if Key(a) == Key(b) {
      FirstColon(a.providerId, a.model.modelId, b.providerId, b.model.modelId);
    }
  }

  // ---------------------------------------------------------------- selection

  predicate Fits(m: Model, want: Constraints) {
    (want.tier.Some? ==> m.tier == want.tier.value) && want.requiredCapabilities <= m.capabilities
  }

  function ModelsFitting(p: Provider, n: nat, want: Constraints): seq<Candidate>
    requires n <= |p.models|
  {
    if n == 0 then []
    else ModelsFitting(p, n - 1, want) + if Fits(p.models[n - 1], want) then [Candidate(p.id, p.name, p.models[n - 1])] else []
  }

  /** The fitting models of the providers not known to be unhealthy, in the order they are listed. */
  function Matching(ps: seq<Provider>, health: map<string, bool>, want: Constraints): seq<Candidate> {
    if ps == [] then []
    else
      var p := ps[|ps| - 1];
      Matching(ps[..|ps| - 1], health, want)
      + if p.id in health && !health[p.id] then [] else ModelsFitting(p, |p.models|, want)
  }

  function Price(c: Candidate): real {
    c.model.inputCostPer1k + c.model.outputCostPer1k
  }

  predicate InOrder(a: Candidate, b: Candidate, cheaper: bool) {
    if cheaper then Price(a) <= Price(b) else Price(a) >= Price(b)
  }

  function Insert(c: Candidate, sorted: seq<Candidate>, cheaper: bool): seq<Candidate> {
    if sorted == [] then [c]
    else if InOrder(c, sorted[0], cheaper) then [c] + sorted
    else [sorted[0]] + Insert(c, sorted[1..], cheaper)
  }

  /** The platform's stable sort under the comparator of `select`. */
  function Ordered(cs: seq<Candidate>, cheaper: bool): seq<Candidate> {
    if cs == [] then [] else Insert(cs[0], Ordered(cs[1..], cheaper), cheaper)
  }

  function Selected(ps: seq<Provider>, health: map<string, bool>, policy: Policy, want: Constraints): seq<Candidate> {
    Ordered(Matching(ps, health, want), policy.preferCheaper)
  }

  function PricedAt(cs: seq<Candidate>, price: real): seq<Candidate> {
    if cs == [] then [] else (if Price(cs[0]) == price then [cs[0]] else []) + PricedAt(cs[1..], price)
  }

  ghost predicate IsSorted(cs: seq<Candidate>, cheaper: bool) {
    forall i, j :: 0 <= i < j < |cs| ==> InOrder(cs[i], cs[j], cheaper)
  }

  /** Sorted, and the candidates of each price are those of `cs` in the same order. */
  ghost predicate IsStableSort(cs: seq<Candidate>, r: seq<Candidate>, cheaper: bool) {
    IsSorted(r, cheaper) && forall p :: PricedAt(r, p) == PricedAt(cs, p)
  }

  lemma {:induction false} InsertKeepsOrder(c: Candidate, s: seq<Candidate>, cheaper: bool)
    requires IsSorted(s, cheaper)
    ensures IsSorted(Insert(c, s, cheaper), cheaper)
    ensures forall x :: x in Insert(c, s, cheaper) <==> x == c || x in s
  {
    if s != [] {
      assert s == [s[0]] + s[1..];
      if !InOrder(c, s[0], cheaper) {
        InsertKeepsOrder(c, s[1..], cheaper);
        var r := Insert(c, s[1..], cheaper);
        forall j | 0 <= j < |r|
          ensures InOrder(s[0], r[j], cheaper)
        {
          assert r[j] in r;
        }
      }
    }
  }

  lemma {:induction false} InsertKeepsPrices(c: Candidate, s: seq<Candidate>, cheaper: bool, p: real)
    ensures PricedAt(Insert(c, s, cheaper), p) == PricedAt([c] + s, p)
  {
    assert ([c] + s)[1..] == s;
    if s != [] && !InOrder(c, s[0], cheaper) {
      InsertKeepsPrices(c, s[1..], cheaper, p);
      assert ([c] + s[1..])[1..] == s[1..];
      assert ([s[0]] + Insert(c, s[1..], cheaper))[1..] == Insert(c, s[1..], cheaper);
    }
  }

  lemma {:induction false} OrderedIsStableSort(cs: seq<Candidate>, cheaper: bool)
    ensures IsStableSort(cs, Ordered(cs, cheaper), cheaper)
  {
    if cs != [] {
      OrderedIsStableSort(cs[1..], cheaper);
      var tail := Ordered(cs[1..], cheaper);
      InsertKeepsOrder(cs[0], tail, cheaper);
      forall p
        ensures PricedAt(Ordered(cs, cheaper), p) == PricedAt(cs, p)
      {
        InsertKeepsPrices(cs[0], tail, cheaper, p);
        assert ([cs[0]] + tail)[1..] == tail;
      }
    }
  }

  lemma {:induction false} PricedAtMember(cs: seq<Candidate>, i: nat)
    requires i < |cs|
    ensures PricedAt(cs, Price(cs[i])) != []
  {
    if i > 0 {
      PricedAtMember(cs[1..], i - 1);
    }
  }

  lemma {:induction false} PricedAtSource(cs: seq<Candidate>, p: real)
    requires PricedAt(cs, p) != []
    ensures exists i :: 0 <= i < |cs| && cs[i] == PricedAt(cs, p)[0] && Price(cs[i]) == p
  {
    if Price(cs[0]) == p {
      assert cs[0] == PricedAt(cs, p)[0];
    } else {
      PricedAtSource(cs[1..], p);
      var i :| 0 <= i < |cs[1..]| && cs[1..][i] == PricedAt(cs[1..], p)[0] && Price(cs[1..][i]) == p;
      assert cs[i + 1] == PricedAt(cs, p)[0];
    }
  }

  /** The head of a sorted sequence is priced no later than any price that occurs in it. */
  lemma HeadIsFirst(s: seq<Candidate>, cheaper: bool, c: Candidate)
    requires s != [] && IsSorted(s, cheaper) && PricedAt(s, Price(c)) != []
    ensures InOrder(s[0], c, cheaper)
  {
    PricedAtSource(s, Price(c));
    var i :| 0 <= i < |s| && s[i] == PricedAt(s, Price(c))[0] && Price(s[i]) == Price(c);
    assert i > 0 ==> InOrder(s[0], s[i], cheaper);
  }

  lemma SameHeads(r: seq<Candidate>, s: seq<Candidate>, cheaper: bool)
    requires r != [] && s != [] && IsSorted(r, cheaper) && IsSorted(s, cheaper)
    requires forall p :: PricedAt(r, p) == PricedAt(s, p)
    ensures r[0] == s[0]
  {
    var p := Price(r[0]);
    assert PricedAt(r, p) == PricedAt(s, p) && PricedAt(r, Price(s[0])) == PricedAt(s, Price(s[0]));
    PricedAtMember(r, 0);
    PricedAtMember(s, 0);
    HeadIsFirst(s, cheaper, r[0]);
    HeadIsFirst(r, cheaper, s[0]);
    assert PricedAt(r, p)[0] == r[0] && PricedAt(s, p)[0] == s[0];
  }

  /** A stable sort leaves no choice. */
  lemma {:induction false} StableSortIsUnique(r: seq<Candidate>, s: seq<Candidate>, cheaper: bool)
    requires IsSorted(r, cheaper) && IsSorted(s, cheaper)
    requires forall p :: PricedAt(r, p) == PricedAt(s, p)
    ensures r == s
  {
    if r == [] || s == [] {
      if r != [] {
        PricedAtMember(r, 0);
      }
      if s != [] {
        PricedAtMember(s, 0);
      }
    } else {
      SameHeads(r, s, cheaper);
      forall p
        ensures PricedAt(r[1..], p) == PricedAt(s[1..], p)
      {
        SameTails(r, s, p);
      }
      StableSortIsUnique(r[1..], s[1..], cheaper);
      assert r == [r[0]] + r[1..] && s == [s[0]] + s[1..];
    }
  }

  lemma SameTails(r: seq<Candidate>, s: seq<Candidate>, p: real)
    requires r != [] && s != [] && r[0] == s[0] && PricedAt(r, p) == PricedAt(s, p)
    ensures PricedAt(r[1..], p) == PricedAt(s[1..], p)
  {
    var a, b := PricedAt(r[1..], p), PricedAt(s[1..], p);
    if Price(r[0]) == p {
      SameAfterHead(r[0], a, b);
    } else {
      assert [] + a == a && [] + b == b;
    }
  }

  lemma SameAfterHead(c: Candidate, a: seq<Candidate>, b: seq<Candidate>)
    requires [c] + a == [c] + b
    ensures a == b
  {
    assert ([c] + a)[1..] == a && ([c] + b)[1..] == b;
  }

  /** The answer of `select` is the only stable sort by price of the matching candidates. */
  lemma SelectedIsTheStableSort(ps: seq<Provider>, health: map<string, bool>, policy: Policy, want: Constraints, r: seq<Candidate>)
    ensures IsStableSort(Matching(ps, health, want), r, policy.preferCheaper) <==> r == Selected(ps, health, policy, want)
  {
    var m := Matching(ps, health, want);
    OrderedIsStableSort(m, policy.preferCheaper);
    if IsStableSort(m, r, policy.preferCheaper) {
      StableSortIsUnique(r, Selected(ps, health, policy, want), policy.preferCheaper);
    }
  }

  lemma {:induction false} FittingMembers(p: Provider, n: nat, want: Constraints, c: Candidate)
    requires n <= |p.models|
    ensures c in ModelsFitting(p, n, want) <==>
            exists b :: 0 <= b < n && Offers(p, p.models[b], want, c)
  {
    if n > 0 {
      FittingMembers(p, n - 1, want, c);
    }
  }

  /** The provider offers the model, of the wanted tier if one is wanted and with every capability required. */
  predicate Offers(p: Provider, m: Model, want: Constraints, c: Candidate) {
    && c == Candidate(p.id, p.name, m) && (want.tier == None || want.tier == Some(m.tier))
    && forall capability :: capability in want.requiredCapabilities ==> capability in m.capabilities
  }

  /** The provider is not known to be unhealthy and has a model that fits. */
  ghost predicate OfferedBy(p: Provider, health: map<string, bool>, want: Constraints, c: Candidate) {
    (p.id in health ==> health[p.id]) && exists b :: 0 <= b < |p.models| && Offers(p, p.models[b], want, c)
  }

  ghost predicate Eligible(ps: seq<Provider>, health: map<string, bool>, want: Constraints, c: Candidate) {
    exists a :: 0 <= a < |ps| && OfferedBy(ps[a], health, want, c)
  }

  lemma {:induction false} MatchingMembers(ps: seq<Provider>, health: map<string, bool>, want: Constraints, c: Candidate)
    ensures c in Matching(ps, health, want) <==> Eligible(ps, health, want, c)
  {
    if ps != [] {
      var n := |ps| - 1;
      MatchingMembers(ps[..n], health, want, c);
      FittingMembers(ps[n], |ps[n].models|, want, c);
      EligibleNext(ps, health, want, c);
    }
  }

  lemma EligibleNext(ps: seq<Provider>, health: map<string, bool>, want: Constraints, c: Candidate)
    requires ps != []
    ensures Eligible(ps, health, want, c) <==> Eligible(ps[..|ps| - 1], health, want, c) || OfferedBy(ps[|ps| - 1], health, want, c)
  {
    assert forall a :: 0 <= a < |ps| - 1 ==> ps[..|ps| - 1][a] == ps[a];
  }

  lemma {:induction false} OrderedMembers(cs: seq<Candidate>, cheaper: bool, c: Candidate)
    ensures c in Ordered(cs, cheaper) <==> c in cs
  {
    if cs != [] {
      OrderedMembers(cs[1..], cheaper, c);
      OrderedIsStableSort(cs[1..], cheaper);
      InsertKeepsOrder(cs[0], Ordered(cs[1..], cheaper), cheaper);
    }
  }

  /** `select` in prices: the eligible candidates, the cheapest first, or the dearest where the policy says so. */
  lemma SelectedMeans(ps: seq<Provider>, health: map<string, bool>, policy: Policy, want: Constraints)
    ensures var r := Selected(ps, health, policy, want);
            && (forall c :: c in r <==> Eligible(ps, health, want, c))
            && (forall i, j :: 0 <= i < j < |r| && policy.preferCheaper ==>
                  r[i].model.inputCostPer1k + r[i].model.outputCostPer1k <= r[j].model.inputCostPer1k + r[j].model.outputCostPer1k)
            && (forall i, j :: 0 <= i < j < |r| && !policy.preferCheaper ==>
                  r[i].model.inputCostPer1k + r[i].model.outputCostPer1k >= r[j].model.inputCostPer1k + r[j].model.outputCostPer1k)
  {
    var r := Selected(ps, health, policy, want);
    forall c
      ensures c in r <==> Eligible(ps, health, want, c)
    {
      OrderedMembers(Matching(ps, health, want), policy.preferCheaper, c);
      MatchingMembers(ps, health, want, c);
    }
    OrderedIsStableSort(Matching(ps, health, want), policy.preferCheaper);
    forall i, j | 0 <= i < j < |r|
      ensures InOrder(r[i], r[j], policy.preferCheaper)
    {
    }
  }

  // ---------------------------------------------------------------- one request

  datatype Reply = Answer(tokensIn: nat, tokensOut: nat) | Transient | Fatal

  /** What the providers reply at each attempt of each candidate, and what the clock reads when a
      candidate's breaker is asked, at each attempt, and when the candidate is given up. */
  datatype Env = Env(reply: (nat, nat) -> Reply, askedAt: nat -> int, calledAt: (nat, nat) -> int, droppedAt: nat -> int)

  datatype Entry = Call(key: string, at: int) | Tripped(key: string, at: int)

  /** Breakers, the calls made and breakers tripped so far, and the spend recorded. */
  datatype Core = Core(breakers: map<string, Status>, log: seq<Entry>, spend: seq<real>)

  function StatusOf(k: Core, key: string): Status {
    if key in k.breakers then k.breakers[key] else FRESH
  }

  /** The attempts made on candidate `i` from attempt `a` on, and whether the last was answered. */
  function Attempts(env: Env, i: nat, a: nat, maxRetries: int): (nat, bool)
    decreases maxRetries + 1 - a
  {
    if a > maxRetries then (a, false)
    else
      match env.reply(i, a)
      case Answer(_, _) => (a + 1, true)
      case Fatal => (a + 1, false)
      case Transient => Attempts(env, i, a + 1, maxRetries)
  }

  function Calls(env: Env, i: nat, key: string, n: nat): seq<Entry> {
    if n == 0 then [] else Calls(env, i, key, n - 1) + [Call(key, env.calledAt(i, n - 1))]
  }

  function Asked(k: Core, key: string, now: int): Core {
    k.(breakers := k.breakers[key := Observed(StatusOf(k, key), COOLDOWN, now)])
  }

  /** A trip is logged when the failure leaves the breaker open. */
  function Dropped(k: Core, key: string, now: int): Core {
    var s := Failed(StatusOf(k, key), THRESHOLD, now);
    k.(breakers := k.breakers[key := s], log := if s.phase == Open then k.log + [Tripped(key, now)] else k.log)
  }

  function CostOf(m: Model, r: Reply): real
    requires r.Answer?
  {
    (r.tokensIn as real / 1000.0) * m.inputCostPer1k + (r.tokensOut as real / 1000.0) * m.outputCostPer1k
  }

  datatype Served = Served(core: Core, answer: Option<(nat, nat)>)

  /** Candidate `i` alone: refused, answered at some attempt, or given up. */
  function ServeOne(k: Core, c: Candidate, env: Env, i: nat, maxRetries: int): (s: Served)
    ensures s.answer.Some? ==> s.answer.value.0 == i && env.reply(i, s.answer.value.1).Answer?
  {
    var key := Key(c);
    var asked := Asked(k, key, env.askedAt(i));
    if !Admits(StatusOf(k, key), COOLDOWN, env.askedAt(i)) then Served(asked, None)
    else
      var (tries, won) := Attempts(env, i, 0, maxRetries);
      var called := asked.(log := asked.log + Calls(env, i, key, tries));
      AttemptsAnswered(env, i, 0, maxRetries);
      if won then
        Served(called.(breakers := called.breakers[key := Recovered(StatusOf(called, key))],
                       spend := called.spend + [CostOf(c.model, env.reply(i, tries - 1))]),
               Some((i, tries - 1)))
      else Served(Dropped(called, key, env.droppedAt(i)), None)
  }

  /** The candidates from `i` on, until one answers. */
  function ServeFrom(k: Core, cs: seq<Candidate>, env: Env, i: nat, maxRetries: int): Served
    requires i <= |cs|
    decreases |cs| - i
  {
    if i == |cs| then Served(k, None)
    else
      var s := ServeOne(k, cs[i], env, i, maxRetries);
      if s.answer.Some? then s else ServeFrom(s.core, cs, env, i + 1, maxRetries)
  }

  lemma {:induction false} AttemptsAnswered(env: Env, i: nat, a: nat, maxRetries: int)
    ensures var (n, won) := Attempts(env, i, a, maxRetries); n >= a && (won ==> n > a && env.reply(i, n - 1).Answer?)
    decreases maxRetries + 1 - a
  {
    if a <= maxRetries && env.reply(i, a).Transient? {
      AttemptsAnswered(env, i, a + 1, maxRetries);
    }
  }

  // ---------------------------------------------------------------- the whole of complete

  datatype Verdict = Allowed | Blocked | Downgrade(tier: string)

  datatype Ask = Ask(want: Constraints, tokens: int, verdict: Verdict)

  datatype Completion =
    | NoModel
    | BudgetExceeded
    | ContextOverflow
    | Answered(candidate: Candidate, fallbackCount: nat, retryCount: nat, reason: Reason, cost: real)
    | AllFailed(fallbackCount: nat)

  datatype Reason = NoReason | AfterFallback(n: nat) | Downgraded(tier: string)

  function First(cs: seq<Candidate>, n: nat): seq<Candidate> {
    if n <= |cs| then cs[..n] else cs
  }

  function Wide(cs: seq<Candidate>, tokens: int): seq<Candidate> {
    if cs == [] then []
    else Wide(cs[..|cs| - 1], tokens) + if tokens <= cs[|cs| - 1].model.contextWindow then [cs[|cs| - 1]] else []
  }

  /** `Wide` keeps what fits, in order: a candidate that fits comes after as many as fit before it. */
  lemma {:induction false} WideKeeps(cs: seq<Candidate>, tokens: int)
    ensures forall c :: c in Wide(cs, tokens) <==> c in cs && tokens <= c.model.contextWindow
    ensures forall i :: 0 <= i < |cs| && tokens <= cs[i].model.contextWindow ==>
              |Wide(cs[..i], tokens)| < |Wide(cs, tokens)| && Wide(cs, tokens)[|Wide(cs[..i], tokens)|] == cs[i]
  {
    if cs != [] {
      var n := |cs| - 1;
      WideKeeps(cs[..n], tokens);
      assert cs == cs[..n] + [cs[n]];
      forall i | 0 <= i < |cs| && tokens <= cs[i].model.contextWindow
        ensures |Wide(cs[..i], tokens)| < |Wide(cs, tokens)| && Wide(cs, tokens)[|Wide(cs[..i], tokens)|] == cs[i]
      {
        assert i < n ==> cs[..n][..i] == cs[..i] && cs[..n][i] == cs[i];
      }
    }
  }

  function ReasonFor(downgraded: Option<string>, fallbacks: nat): Reason {
    if downgraded.Some? then Downgraded(downgraded.value)
    else if fallbacks > 0 then AfterFallback(fallbacks)
    else NoReason
  }
}
