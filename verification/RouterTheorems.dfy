/** What the router promises: who answers, what is spent, and that tripped models are left alone. */
module RouterTheorems {
  import opened Optional
  import opened Breaker
  import opened RouterModel
  import opened ModelRouter

  // ---------------------------------------------------------------- who answers

  /** Candidate `i` answers at attempt `a`, every attempt before having failed in a retryable way. */
  ghost predicate SucceedsAt(env: Env, i: nat, a: nat, maxRetries: int) {
    a <= maxRetries && env.reply(i, a).Answer? && forall b: nat :: b < a ==> env.reply(i, b).Transient?
  }

  lemma {:induction false} AttemptsFind(env: Env, i: nat, from: nat, maxRetries: int)
    requires forall b: nat :: b < from ==> env.reply(i, b).Transient?
    ensures var (n, won) := Attempts(env, i, from, maxRetries);
            && (won ==> n > 0 && SucceedsAt(env, i, n - 1, maxRetries))
            && (!won ==> forall a: nat :: !SucceedsAt(env, i, a, maxRetries))
            && (n <= maxRetries + 1 || n == from)
    decreases maxRetries + 1 - from
  {
    if from <= maxRetries && env.reply(i, from).Transient? {
      AttemptsFind(env, i, from + 1, maxRetries);
    }
  }

  /** Breakers, log and spend once the first `n` candidates have been asked and have not answered. */
  function CoreBefore(k: Core, cs: seq<Candidate>, env: Env, n: nat, maxRetries: int): Core
    requires n <= |cs|
  {
    if n == 0 then k else ServeOne(CoreBefore(k, cs, env, n - 1, maxRetries), cs[n - 1], env, n - 1, maxRetries).core
  }

  ghost predicate AnswersAt(k: Core, cs: seq<Candidate>, env: Env, i: nat, a: nat, maxRetries: int)
    requires i < |cs|
  {
    && Admits(StatusOf(CoreBefore(k, cs, env, i, maxRetries), Key(cs[i])), COOLDOWN, env.askedAt(i))
    && SucceedsAt(env, i, a, maxRetries)
  }

  ghost predicate PassedOver(k: Core, cs: seq<Candidate>, env: Env, i: nat, maxRetries: int)
    requires i < |cs|
  {
    forall a: nat :: !AnswersAt(k, cs, env, i, a, maxRetries)
  }

  lemma ServeOneAnswers(k: Core, cs: seq<Candidate>, env: Env, i: nat, maxRetries: int)
    requires i < |cs|
    ensures var s := ServeOne(CoreBefore(k, cs, env, i, maxRetries), cs[i], env, i, maxRetries);
            && (s.answer.Some? ==> AnswersAt(k, cs, env, i, s.answer.value.1, maxRetries))
            && (s.answer.None? ==> PassedOver(k, cs, env, i, maxRetries))
  {
    AttemptsFind(env, i, 0, maxRetries);
  }

  /** Where the search from candidate `i` on ends. */
  ghost predicate Ends(k: Core, cs: seq<Candidate>, env: Env, i: nat, maxRetries: int, answer: Option<(nat, nat)>) {
    match answer
    case None => forall j :: i <= j < |cs| ==> PassedOver(k, cs, env, j, maxRetries)
    case Some((w, a)) =>
      i <= w < |cs| && AnswersAt(k, cs, env, w, a, maxRetries) && forall j :: i <= j < w ==> PassedOver(k, cs, env, j, maxRetries)
  }

  lemma EndsEarlier(k: Core, cs: seq<Candidate>, env: Env, i: nat, maxRetries: int, answer: Option<(nat, nat)>)
    requires i < |cs| && PassedOver(k, cs, env, i, maxRetries) && Ends(k, cs, env, i + 1, maxRetries, answer)
    ensures Ends(k, cs, env, i, maxRetries, answer)
  {
  }

  lemma {:induction false} ServeFromAnswers(k: Core, cs: seq<Candidate>, env: Env, i: nat, maxRetries: int)
    requires i <= |cs|
    ensures Ends(k, cs, env, i, maxRetries, ServeFrom(CoreBefore(k, cs, env, i, maxRetries), cs, env, i, maxRetries).answer)
    decreases |cs| - i
  {
    if i < |cs| {
      ServeOneAnswers(k, cs, env, i, maxRetries);
      var before := CoreBefore(k, cs, env, i, maxRetries);
      var s := ServeOne(before, cs[i], env, i, maxRetries);
      if s.answer.None? {
        assert s.core == CoreBefore(k, cs, env, i + 1, maxRetries);
        ServeFromAnswers(k, cs, env, i + 1, maxRetries);
        EndsEarlier(k, cs, env, i, maxRetries, ServeFrom(s.core, cs, env, i + 1, maxRetries).answer);
      }
    }
  }

  lemma AttemptIsUnique(env: Env, i: nat, a: nat, b: nat, maxRetries: int)
    requires SucceedsAt(env, i, a, maxRetries) && SucceedsAt(env, i, b, maxRetries)
    ensures a == b
  {
    assert !env.reply(i, a).Transient? && !env.reply(i, b).Transient?;
  }

  lemma EndIsUnique(k: Core, cs: seq<Candidate>, env: Env, maxRetries: int, p: Option<(nat, nat)>, q: Option<(nat, nat)>)
    requires Ends(k, cs, env, 0, maxRetries, p) && Ends(k, cs, env, 0, maxRetries, q) && q.Some?
    ensures p == q
  {
    var (w, a) := q.value;
    assert !PassedOver(k, cs, env, w, maxRetries);
    if p.Some? {
      var (v, b) := p.value;
      assert !PassedOver(k, cs, env, v, maxRetries);
      AttemptIsUnique(env, w, a, if v == w then b else a, maxRetries);
    }
  }

  /** Attempt `a` of candidate `w` answers exactly when the breaker of `w` admits it, every attempt
      before `a` failed in a retryable way, and each candidate before `w` was refused or never answered. */
  lemma AnswersFromFirst(k: Core, cs: seq<Candidate>, env: Env, maxRetries: int, w: nat, a: nat)
    ensures ServeFrom(k, cs, env, 0, maxRetries).answer == Some((w, a)) <==>
            w < |cs| && AnswersAt(k, cs, env, w, a, maxRetries) && forall j :: 0 <= j < w ==> PassedOver(k, cs, env, j, maxRetries)
  {
    ServeFromAnswers(k, cs, env, 0, maxRetries);
    if Ends(k, cs, env, 0, maxRetries, Some((w, a))) {
      EndIsUnique(k, cs, env, maxRetries, ServeFrom(k, cs, env, 0, maxRetries).answer, Some((w, a)));
    }
  }

  lemma OtherKeysUntouched(k: Core, c: Candidate, env: Env, i: nat, maxRetries: int, key: string)
    requires key != Key(c)
    ensures StatusOf(ServeOne(k, c, env, i, maxRetries).core, key) == StatusOf(k, key)
  {
  }

  /** With one breaker per candidate, each breaker is asked in the state it had before the request. */
  lemma {:induction false} BreakersAreSeparate(k: Core, cs: seq<Candidate>, env: Env, n: nat, maxRetries: int, key: string)
    requires n <= |cs| && forall j :: 0 <= j < n ==> Key(cs[j]) != key
    ensures StatusOf(CoreBefore(k, cs, env, n, maxRetries), key) == StatusOf(k, key)
  {
    if n > 0 {
      BreakersAreSeparate(k, cs, env, n - 1, maxRetries, key);
      OtherKeysUntouched(CoreBefore(k, cs, env, n - 1, maxRetries), cs[n - 1], env, n - 1, maxRetries, key);
    }
  }

  lemma AnswersFromInitialBreakers(k: Core, cs: seq<Candidate>, env: Env, i: nat, a: nat, maxRetries: int)
    requires i < |cs| && forall j, l :: 0 <= j < l < |cs| ==> Key(cs[j]) != Key(cs[l])
    ensures AnswersAt(k, cs, env, i, a, maxRetries) <==>
            Admits(StatusOf(k, Key(cs[i])), COOLDOWN, env.askedAt(i)) && SucceedsAt(env, i, a, maxRetries)
  {
    BreakersAreSeparate(k, cs, env, i, maxRetries, Key(cs[i]));
  }

  /** What a request does to the breaker of a candidate is one use of that breaker. */
  lemma ServingIsOneUse(k: Core, c: Candidate, env: Env, i: nat, maxRetries: int)
    ensures var s := ServeOne(k, c, env, i, maxRetries);
            StatusOf(s.core, Key(c)) == AfterUse(DEFAULTS, StatusOf(k, Key(c)), Use(env.askedAt(i), s.answer.Some?, env.droppedAt(i)))
  {
  }

  // ---------------------------------------------------------------- spend

  lemma {:induction false} ServeSpends(k: Core, cs: seq<Candidate>, env: Env, i: nat, maxRetries: int)
    requires i <= |cs|
    ensures var s := ServeFrom(k, cs, env, i, maxRetries);
            match s.answer
            case None => s.core.spend == k.spend
            case Some((w, a)) => w < |cs| && env.reply(w, a).Answer? && s.core.spend == k.spend + [CostOf(cs[w].model, env.reply(w, a))]
    decreases |cs| - i
  {
    if i < |cs| {
      var s := ServeOne(k, cs[i], env, i, maxRetries);
      if s.answer.None? {
        ServeSpends(s.core, cs, env, i + 1, maxRetries);
      }
    }
  }

  /** The candidates `complete` may call. */
  function Candidates(ps: seq<Provider>, health: map<string, bool>, policy: Policy, ask: Ask): seq<Candidate> {
    var cands := Selected(ps, health, policy, ask.want);
    Wide(First(Pool(cands, ps, health, policy, ask).0, policy.maxFallbacks + 1), ask.tokens)
  }

  /** A success records its cost once and nothing else records any; the number of fallbacks is the
      position of the model that answered, all candidates before it having been passed over. */
  lemma CompleteAnswersAndSpends(k: Core, ps: seq<Provider>, health: map<string, bool>, policy: Policy, ask: Ask, env: Env)
    ensures var (t, r) := Completed(k, ps, health, policy, ask, env);
            var cs := Candidates(ps, health, policy, ask);
            if r.Answered? then
              && t.spend == k.spend + [r.cost]
              && r.fallbackCount < |cs| && r.candidate == cs[r.fallbackCount]
              && AnswersAt(k, cs, env, r.fallbackCount, r.retryCount, policy.maxRetries)
              && forall j :: 0 <= j < r.fallbackCount ==> PassedOver(k, cs, env, j, policy.maxRetries)
            else
              && t.spend == k.spend
              && (r.AllFailed? ==> r.fallbackCount == |cs| > 0 && forall j :: 0 <= j < |cs| ==> PassedOver(k, cs, env, j, policy.maxRetries))
              && (r.NoModel? || r.BudgetExceeded? || r.ContextOverflow? ==> t == k)
  {
    var cs := Candidates(ps, health, policy, ask);
    ServeSpends(k, cs, env, 0, policy.maxRetries);
    ServeFromAnswers(k, cs, env, 0, policy.maxRetries);
  }

  /** The recommended tier has candidates and the budget asks for it. */
  ghost predicate Downgrades(ps: seq<Provider>, health: map<string, bool>, policy: Policy, ask: Ask) {
    ask.verdict.Downgrade? && Selected(ps, health, policy, ask.want.(tier := Some(ask.verdict.tier))) != []
  }

  /** What `select` answers for the tier that is followed in the end. */
  ghost function Chosen(ps: seq<Provider>, health: map<string, bool>, policy: Policy, ask: Ask): seq<Candidate> {
    Selected(ps, health, policy, if Downgrades(ps, health, policy, ask) then ask.want.(tier := Some(ask.verdict.tier)) else ask.want)
  }

  /** What is left of `pool` when only the first `n + 1` are kept, and of these only what holds the request. */
  lemma FirstThatFit(pool: seq<Candidate>, n: nat, tokens: int)
    ensures var cs := Wide(First(pool, n + 1), tokens);
            && (forall c :: c in cs ==> c.model.contextWindow >= tokens && exists i :: 0 <= i < |pool| && i <= n && pool[i] == c)
            && (forall i :: 0 <= i < |pool| && i <= n && pool[i].model.contextWindow >= tokens ==> pool[i] in cs)
            && (cs == [] <==> forall i :: 0 <= i < |pool| && i <= n ==> pool[i].model.contextWindow < tokens)
  {
    var first := First(pool, n + 1);
    var cs := Wide(first, tokens);
    WideKeeps(first, tokens);
    FirstMembers(pool, n);
    forall c | c in cs
      ensures exists i :: 0 <= i < |pool| && i <= n && pool[i] == c
    {
      var i :| 0 <= i < |first| && first[i] == c;
      assert pool[i] == c;
    }
    forall i | 0 <= i < |pool| && i <= n && pool[i].model.contextWindow >= tokens
      ensures pool[i] in cs
    {
      assert first[i] == pool[i] && first[i] in first;
    }
    if cs != [] {
      assert cs[0] in cs;
    }
  }

  /** The candidates asked are those among the first `maxFallbacks + 1` that can hold the request. */
  lemma CandidatesMean(ps: seq<Provider>, health: map<string, bool>, policy: Policy, ask: Ask)
    ensures var pool, cs := Chosen(ps, health, policy, ask), Candidates(ps, health, policy, ask);
            && (forall c :: c in cs ==> c.model.contextWindow >= ask.tokens && exists i :: 0 <= i < |pool| && i <= policy.maxFallbacks && pool[i] == c)
            && (cs == [] <==> forall i :: 0 <= i < |pool| && i <= policy.maxFallbacks ==> pool[i].model.contextWindow < ask.tokens)
  {
    CandidatesAre(ps, health, policy, ask);
    FirstThatFit(Chosen(ps, health, policy, ask), policy.maxFallbacks, ask.tokens);
  }

  lemma CandidatesAre(ps: seq<Provider>, health: map<string, bool>, policy: Policy, ask: Ask)
    ensures Candidates(ps, health, policy, ask) == Wide(First(Chosen(ps, health, policy, ask), policy.maxFallbacks + 1), ask.tokens)
  {
  }

  /** When a request is refused, and why. */
  lemma RefusalsMean(k: Core, ps: seq<Provider>, health: map<string, bool>, policy: Policy, ask: Ask, env: Env)
    ensures var r := Completed(k, ps, health, policy, ask, env).1;
            var cands, pool := Selected(ps, health, policy, ask.want), Chosen(ps, health, policy, ask);
            && (r.NoModel? <==> cands == [])
            && (r.BudgetExceeded? <==> cands != [] && ask.verdict == Blocked)
            && (r.ContextOverflow? <==> cands != [] && ask.verdict != Blocked &&
                                        forall i :: 0 <= i < |pool| && i <= policy.maxFallbacks ==> pool[i].model.contextWindow < ask.tokens)
  {
    CandidatesMean(ps, health, policy, ask);
  }

  /** Prices are for a thousand tokens, those of the request and those of the answer apart. */
  lemma CostMeans(m: Model, tokensIn: nat, tokensOut: nat)
    ensures 1000.0 * CostOf(m, Answer(tokensIn, tokensOut)) == tokensIn as real * m.inputCostPer1k + tokensOut as real * m.outputCostPer1k
  {
  }

  /** What an answer costs, and the reason recorded with it. */
  lemma AnswerMeans(k: Core, ps: seq<Provider>, health: map<string, bool>, policy: Policy, ask: Ask, env: Env)
    requires Completed(k, ps, health, policy, ask, env).1.Answered?
    ensures var r := Completed(k, ps, health, policy, ask, env).1;
            && env.reply(r.fallbackCount, r.retryCount).Answer? && r.candidate.model.contextWindow >= ask.tokens
            && r.cost == CostOf(r.candidate.model, env.reply(r.fallbackCount, r.retryCount))
            && r.reason == (if Downgrades(ps, health, policy, ask) then Downgraded(ask.verdict.tier)
                            else if r.fallbackCount > 0 then AfterFallback(r.fallbackCount) else NoReason)
  {
    var cs := Candidates(ps, health, policy, ask);
    var r := Completed(k, ps, health, policy, ask, env).1;
    CompleteAnswersAndSpends(k, ps, health, policy, ask, env);
    CandidatesMean(ps, health, policy, ask);
    assert r.candidate in cs;
    ConcludedMeans(ServeFrom(k, cs, env, 0, policy.maxRetries), cs, env, Pool(Selected(ps, health, policy, ask.want), ps, health, policy, ask).1);
  }

  lemma ConcludedMeans(s: Served, fits: seq<Candidate>, env: Env, downgraded: Option<string>)
    requires Concluded(s, fits, env, downgraded).1.Answered?
    ensures var r := Concluded(s, fits, env, downgraded).1;
            && env.reply(r.fallbackCount, r.retryCount).Answer?
            && r.cost == CostOf(r.candidate.model, env.reply(r.fallbackCount, r.retryCount))
            && r.reason == (if downgraded.Some? then Downgraded(downgraded.value)
                            else if r.fallbackCount > 0 then AfterFallback(r.fallbackCount) else NoReason)
  {
  }

  lemma FirstMembers(cs: seq<Candidate>, n: nat)
    ensures |First(cs, n + 1)| == if n < |cs| then n + 1 else |cs|
    ensures forall i :: 0 <= i < |First(cs, n + 1)| ==> First(cs, n + 1)[i] == cs[i]
  {
  }

  // ---------------------------------------------------------------- cooling down

  /** The clock does not run backwards between `start` and `end`, over `n` candidates. */
  ghost predicate Timely(env: Env, n: nat, start: int, end: int) {
    && start <= end
    && (forall i: nat :: i < n ==> start <= env.askedAt(i) <= env.droppedAt(i) <= end)
    && (forall i: nat, a: nat :: i < n ==> env.askedAt(i) <= env.calledAt(i, a) <= env.droppedAt(i))
    && (forall i: nat, j: nat :: i < j < n ==> env.droppedAt(i) <= env.askedAt(j))
  }

  /** Every trip so far has either left its breaker open ever since, or is a cooldown ago. */
  ghost predicate Cooling(k: Core, now: int) {
    forall i :: 0 <= i < |k.log| && k.log[i].Tripped? ==>
      || now - k.log[i].at >= COOLDOWN
      || (StatusOf(k, k.log[i].key).phase == Open && StatusOf(k, k.log[i].key).openedAt >= k.log[i].at)
  }

  /** No model is called within the cooldown after its breaker tripped. */
  ghost predicate LeftAlone(log: seq<Entry>) {
    forall i, j :: 0 <= i < j < |log| && log[i].Tripped? && log[j].Call? && log[i].key == log[j].key ==>
      log[j].at - log[i].at >= COOLDOWN
  }

  ghost predicate Cold(k: Core, key: string, now: int) {
    forall i :: 0 <= i < |k.log| && k.log[i].Tripped? && k.log[i].key == key ==> now - k.log[i].at >= COOLDOWN
  }

  lemma AskedKeeps(k: Core, key: string, now: int, at: int)
    requires Cooling(k, now) && now <= at
    ensures Cooling(Asked(k, key, at), at)
    ensures Admits(StatusOf(k, key), COOLDOWN, at) ==> Cold(Asked(k, key, at), key, at)
  {
  }

  lemma {:induction false} CallsAre(env: Env, i: nat, key: string, n: nat)
    ensures |Calls(env, i, key, n)| == n
    ensures forall a :: 0 <= a < n ==> Calls(env, i, key, n)[a] == Call(key, env.calledAt(i, a))
  {
    if n > 0 {
      CallsAre(env, i, key, n - 1);
    }
  }

  lemma CalledKeeps(k: Core, env: Env, i: nat, key: string, n: nat, at: int, end: int)
    requires Cooling(k, at) && Cold(k, key, at) && LeftAlone(k.log) && at <= end
    requires forall a: nat :: at <= env.calledAt(i, a)
    ensures var t := k.(log := k.log + Calls(env, i, key, n));
            Cooling(t, end) && Cold(t, key, end) && LeftAlone(t.log)
  {
    CallsAre(env, i, key, n);
  }

  lemma DroppedKeeps(k: Core, key: string, now: int)
    requires Cooling(k, now) && Cold(k, key, now) && LeftAlone(k.log) && StatusOf(k, key).phase != Open
    ensures Cooling(Dropped(k, key, now), now) && LeftAlone(Dropped(k, key, now).log)
  {
  }

  lemma ServeOneKeeps(k: Core, c: Candidate, env: Env, i: nat, maxRetries: int, now: int, end: int)
    requires Cooling(k, now) && LeftAlone(k.log)
    requires now <= env.askedAt(i) <= env.droppedAt(i) <= end && forall a: nat :: env.askedAt(i) <= env.calledAt(i, a)
    ensures var s := ServeOne(k, c, env, i, maxRetries);
            Cooling(s.core, env.droppedAt(i)) && LeftAlone(s.core.log)
  {
    var key := Key(c);
    var asked := Asked(k, key, env.askedAt(i));
    AskedKeeps(k, key, now, env.askedAt(i));
    if Admits(StatusOf(k, key), COOLDOWN, env.askedAt(i)) {
      var (tries, won) := Attempts(env, i, 0, maxRetries);
      CalledKeeps(asked, env, i, key, tries, env.askedAt(i), env.droppedAt(i));
      var called := asked.(log := asked.log + Calls(env, i, key, tries));
      DroppedKeeps(called, key, env.droppedAt(i));
    }
  }

  lemma {:induction false} ServeFromKeeps(k: Core, cs: seq<Candidate>, env: Env, i: nat, maxRetries: int, now: int, start: int, end: int)
    requires i <= |cs| && Timely(env, |cs|, start, end) && Cooling(k, now) && LeftAlone(k.log)
    requires now == if i == 0 then start else env.droppedAt(i - 1)
    ensures var s := ServeFrom(k, cs, env, i, maxRetries);
            Cooling(s.core, end) && LeftAlone(s.core.log)
    decreases |cs| - i
  {
    if i < |cs| {
      ServeOneKeeps(k, cs[i], env, i, maxRetries, now, end);
      var s := ServeOne(k, cs[i], env, i, maxRetries);
      if s.answer.None? {
        ServeFromKeeps(s.core, cs, env, i + 1, maxRetries, env.droppedAt(i), start, end);
      }
    }
  }

  /** One `complete` call: the providers and health at that moment, the request, and what happened between `start` and `end`. */
  datatype Request = Request(providers: seq<Provider>, health: map<string, bool>, ask: Ask, env: Env, start: int, end: int)

  function After(k: Core, policy: Policy, q: Request): Core {
    Completed(k, q.providers, q.health, policy, q.ask, q.env).0
  }

  function AfterAll(policy: Policy, qs: seq<Request>): Core {
    if qs == [] then Core(map[], [], []) else After(AfterAll(policy, qs[..|qs| - 1]), policy, qs[|qs| - 1])
  }

  /** One call after the other, under a clock that does not run backwards. */
  ghost predicate Sequential(policy: Policy, qs: seq<Request>) {
    && (forall i :: 0 <= i < |qs| ==> Timely(qs[i].env, |Candidates(qs[i].providers, qs[i].health, policy, qs[i].ask)|, qs[i].start, qs[i].end))
    && forall i, j :: 0 <= i < j < |qs| ==> qs[i].end <= qs[j].start
  }

  lemma RequestKeeps(k: Core, policy: Policy, q: Request, now: int)
    requires Cooling(k, now) && LeftAlone(k.log) && now <= q.start
    requires Timely(q.env, |Candidates(q.providers, q.health, policy, q.ask)|, q.start, q.end)
    ensures Cooling(After(k, policy, q), q.end) && LeftAlone(After(k, policy, q).log)
  {
    var cs := Candidates(q.providers, q.health, policy, q.ask);
    ServeFromKeeps(k, cs, q.env, 0, policy.maxRetries, q.start, q.start, q.end);
  }

  lemma {:induction false} HistoryKeeps(policy: Policy, qs: seq<Request>)
    requires Sequential(policy, qs)
    ensures LeftAlone(AfterAll(policy, qs).log)
    ensures Cooling(AfterAll(policy, qs), if qs == [] then 0 else qs[|qs| - 1].end)
  {
    if qs != [] {
      var n := |qs| - 1;
      HistoryKeeps(policy, qs[..n]);
      RequestKeeps(AfterAll(policy, qs[..n]), policy, qs[n], if n == 0 then qs[0].start else qs[n - 1].end);
    }
  }

  /** In every sequential history no model is called within the cooldown after its breaker tripped. */
  lemma TrippedModelsAreLeftAlone(policy: Policy, qs: seq<Request>, i: nat, j: nat)
    requires Sequential(policy, qs)
    requires i < j < |AfterAll(policy, qs).log|
    requires AfterAll(policy, qs).log[i].Tripped? && AfterAll(policy, qs).log[j].Call?
    requires AfterAll(policy, qs).log[i].key == AfterAll(policy, qs).log[j].key
    ensures AfterAll(policy, qs).log[j].at - AfterAll(policy, qs).log[i].at >= COOLDOWN
  {
    HistoryKeeps(policy, qs);
  }

  // ---------------------------------------------------------------- refused while cooling down

  /** What serving candidate `i` means to the breaker of `key`. */
  function UseOf(k: Core, c: Candidate, env: Env, i: nat, maxRetries: int, key: string): seq<Use> {
    if Key(c) != key then []
    else [Use(env.askedAt(i), ServeOne(k, c, env, i, maxRetries).answer.Some?, env.droppedAt(i))]
  }

  /** The uses of the breaker of `key` by the first `n` candidates, none of which answers. */
  function UsesBefore(k: Core, cs: seq<Candidate>, env: Env, n: nat, maxRetries: int, key: string): seq<Use>
    requires n <= |cs|
  {
    if n == 0 then []
    else
      UsesBefore(k, cs, env, n - 1, maxRetries, key)
      + UseOf(CoreBefore(k, cs, env, n - 1, maxRetries), cs[n - 1], env, n - 1, maxRetries, key)
  }

  /** The uses by the candidates from `i` on, until one answers. */
  function UsesFrom(k: Core, cs: seq<Candidate>, env: Env, i: nat, maxRetries: int, key: string): seq<Use>
    requires i <= |cs|
    decreases |cs| - i
  {
    if i == |cs| then []
    else
      var s := ServeOne(k, cs[i], env, i, maxRetries);
      UseOf(k, cs[i], env, i, maxRetries, key)
      + if s.answer.Some? then [] else UsesFrom(s.core, cs, env, i + 1, maxRetries, key)
  }

  /** The uses by one request; none when it ends before any candidate is asked. */
  function RequestUses(k: Core, policy: Policy, q: Request, key: string): seq<Use> {
    if Selected(q.providers, q.health, policy, q.ask.want) == [] || q.ask.verdict == Blocked then []
    else UsesFrom(k, Candidates(q.providers, q.health, policy, q.ask), q.env, 0, policy.maxRetries, key)
  }

  function UsesIn(policy: Policy, qs: seq<Request>, key: string): seq<Use> {
    if qs == [] then []
    else
      var n := |qs| - 1;
      UsesIn(policy, qs[..n], key) + RequestUses(AfterAll(policy, qs[..n]), policy, qs[n], key)
  }

  lemma StatusAppend(us: seq<Use>, u: Use)
    ensures StatusAfter(DEFAULTS, us + [u]) == AfterUse(DEFAULTS, StatusAfter(DEFAULTS, us), u)
  {
    assert (us + [u])[..|us|] == us;
  }

  lemma Regroup(a: seq<Use>, b: seq<Use>, c: seq<Use>)
    ensures a + (b + c) == a + b + c
  {
  }

  lemma ServedStatus(k: Core, c: Candidate, env: Env, i: nat, maxRetries: int, key: string, us: seq<Use>)
    requires StatusOf(k, key) == StatusAfter(DEFAULTS, us)
    ensures StatusOf(ServeOne(k, c, env, i, maxRetries).core, key) == StatusAfter(DEFAULTS, us + UseOf(k, c, env, i, maxRetries, key))
  {
    if Key(c) == key {
      ServingIsOneUse(k, c, env, i, maxRetries);
      StatusAppend(us, UseOf(k, c, env, i, maxRetries, key)[0]);
    } else {
      OtherKeysUntouched(k, c, env, i, maxRetries, key);
      assert us + [] == us;
    }
  }

  lemma {:induction false} ServedFromStatus(k: Core, cs: seq<Candidate>, env: Env, i: nat, maxRetries: int, key: string, us: seq<Use>)
    requires i <= |cs| && StatusOf(k, key) == StatusAfter(DEFAULTS, us)
    ensures StatusOf(ServeFrom(k, cs, env, i, maxRetries).core, key) == StatusAfter(DEFAULTS, us + UsesFrom(k, cs, env, i, maxRetries, key))
    decreases |cs| - i
  {
    if i == |cs| {
      assert us + [] == us;
    } else {
      var s, use := ServeOne(k, cs[i], env, i, maxRetries), UseOf(k, cs[i], env, i, maxRetries, key);
      ServedStatus(k, cs[i], env, i, maxRetries, key, us);
      if s.answer.Some? {
        Regroup(us, use, []);
        assert us + use + [] == us + use;
      } else {
        ServedFromStatus(s.core, cs, env, i + 1, maxRetries, key, us + use);
        Regroup(us, use, UsesFrom(s.core, cs, env, i + 1, maxRetries, key));
      }
    }
  }

  lemma RequestStatus(k: Core, policy: Policy, q: Request, key: string, us: seq<Use>)
    requires StatusOf(k, key) == StatusAfter(DEFAULTS, us)
    ensures StatusOf(After(k, policy, q), key) == StatusAfter(DEFAULTS, us + RequestUses(k, policy, q, key))
  {
    var cs := Candidates(q.providers, q.health, policy, q.ask);
    assert us + [] == us;
    ServedFromStatus(k, cs, q.env, 0, policy.maxRetries, key, us);
  }

  lemma {:induction false} HistoryStatus(policy: Policy, qs: seq<Request>, key: string)
    ensures StatusOf(AfterAll(policy, qs), key) == StatusAfter(DEFAULTS, UsesIn(policy, qs, key))
  {
    if qs != [] {
      var n := |qs| - 1;
      HistoryStatus(policy, qs[..n], key);
      RequestStatus(AfterAll(policy, qs[..n]), policy, qs[n], key, UsesIn(policy, qs[..n], key));
    }
  }

  lemma {:induction false} PassedOverStatus(k: Core, cs: seq<Candidate>, env: Env, n: nat, maxRetries: int, key: string, us: seq<Use>)
    requires n <= |cs| && StatusOf(k, key) == StatusAfter(DEFAULTS, us)
    ensures StatusOf(CoreBefore(k, cs, env, n, maxRetries), key) == StatusAfter(DEFAULTS, us + UsesBefore(k, cs, env, n, maxRetries, key))
  {
    if n == 0 {
      assert us + [] == us;
    } else {
      var before, uses := CoreBefore(k, cs, env, n - 1, maxRetries), UsesBefore(k, cs, env, n - 1, maxRetries, key);
      PassedOverStatus(k, cs, env, n - 1, maxRetries, key, us);
      ServedStatus(before, cs[n - 1], env, n - 1, maxRetries, key, us + uses);
      var use := UseOf(before, cs[n - 1], env, n - 1, maxRetries, key);
      Regroup(us, uses, use);
    }
  }

  /** After any history of requests one after the other, and `n` candidates of the next one, a candidate is
      refused exactly while its own outcomes are cooling down: its last five or more uses that were
      admitted failed, the last of them less than the cooldown ago. */
  lemma RefusedIffCoolingDown(policy: Policy, qs: seq<Request>, cs: seq<Candidate>, env: Env, n: nat)
    requires n < |cs|
    ensures var k := AfterAll(policy, qs);
            var uses := UsesIn(policy, qs, Key(cs[n])) + UsesBefore(k, cs, env, n, policy.maxRetries, Key(cs[n]));
            Admits(StatusOf(CoreBefore(k, cs, env, n, policy.maxRetries), Key(cs[n])), COOLDOWN, env.askedAt(n)) <==>
            !CoolingDown(DEFAULTS, Outcomes(DEFAULTS, uses), env.askedAt(n))
  {
    var k, key := AfterAll(policy, qs), Key(cs[n]);
    HistoryStatus(policy, qs, key);
    PassedOverStatus(k, cs, env, n, policy.maxRetries, key, UsesIn(policy, qs, key));
    RefusesIffCoolingDown(DEFAULTS, UsesIn(policy, qs, key) + UsesBefore(k, cs, env, n, policy.maxRetries, key), env.askedAt(n));
  }
}
