/** The router that picks models, retries, falls back and keeps one breaker per model. */
module ModelRouter {
  import opened Optional
  import opened Breaker
  import opened RouterModel

  /** What one request does to the breakers, the log and the spend, and how it ends. */
  function Completed(k: Core, ps: seq<Provider>, health: map<string, bool>, policy: Policy, ask: Ask, env: Env): (Core, Completion) {
    var cands := Selected(ps, health, policy, ask.want);
    if cands == [] then (k, NoModel)
    else if ask.verdict == Blocked then (k, BudgetExceeded)
    else
      var (pool, downgraded) := Pool(cands, ps, health, policy, ask);
      var fits := Wide(First(pool, policy.maxFallbacks + 1), ask.tokens);
      if fits == [] then (k, ContextOverflow) else Concluded(ServeFrom(k, fits, env, 0, policy.maxRetries), fits, env, downgraded)
  }

  /** A downgrade is followed only when the recommended tier has candidates. */
  function Pool(cands: seq<Candidate>, ps: seq<Provider>, health: map<string, bool>, policy: Policy, ask: Ask): (seq<Candidate>, Option<string>) {
    if !ask.verdict.Downgrade? then (cands, None)
    else
      var cheaper := Selected(ps, health, policy, ask.want.(tier := Some(ask.verdict.tier)));
      if cheaper == [] then (cands, None) else (cheaper, Some(ask.verdict.tier))
  }

  function Concluded(s: Served, fits: seq<Candidate>, env: Env, downgraded: Option<string>): (Core, Completion) {
    match s.answer
    case Some((w, a)) =>
      if w < |fits| && env.reply(w, a).Answer? then
        (s.core, Answered(fits[w], w, a, ReasonFor(downgraded, w), CostOf(fits[w].model, env.reply(w, a))))
      else (s.core, AllFailed(|fits|))
    case None => (s.core, AllFailed(|fits|))
  }

  lemma {:induction false} ServedInRange(k: Core, cs: seq<Candidate>, env: Env, i: nat, maxRetries: int)
    requires i <= |cs|
    ensures var s := ServeFrom(k, cs, env, i, maxRetries);
            s.answer.Some? ==> i <= s.answer.value.0 < |cs| && env.reply(s.answer.value.0, s.answer.value.1).Answer?
    decreases |cs| - i
  {
    if i < |cs| {
      var s := ServeOne(k, cs[i], env, i, maxRetries);
      if s.answer.None? {
        ServedInRange(s.core, cs, env, i + 1, maxRetries);
      }
    }
  }

  class ModelRouter {
    var providers: seq<Provider>
    var health: map<string, bool>
    var breakers: map<string, CircuitBreaker>
    var spend: seq<real>
    ghost var log: seq<Entry>
    const policy: Policy

    ghost predicate Valid()
      reads this, breakers.Values
    {
      && (forall k :: k in breakers ==> breakers[k].threshold == THRESHOLD && breakers[k].cooldownMs == COOLDOWN)
      && forall j, k :: j in breakers && k in breakers && j != k ==> breakers[j] != breakers[k]
    }

    ghost function Kernel(): Core
      reads this, breakers.Values
    {
      Core(map k | k in breakers :: breakers[k].Value(), log, spend)
    }

    constructor (providers: seq<Provider>, policy: Policy)
      ensures Valid() && Kernel() == Core(map[], [], [])
      ensures this.providers == providers && this.policy == policy
      ensures health == map p | p in providers :: p.id := true
    {
      this.providers, this.policy := providers, policy;
      health := map p | p in providers :: p.id := true;
      breakers, spend, log := map[], [], [];
    }

    method Select(want: Constraints) returns (cands: seq<Candidate>)
      ensures cands == Selected(providers, health, policy, want)
    {
      var found := [];
      for n := 0 to |providers|
        invariant found == Matching(providers[..n], health, want)
      {
        var p := providers[n];
        assert providers[..n + 1][..n] == providers[..n];
        if p.id in health && !health[p.id] {
          continue;
        }
        var fitting := FittingOf(p, want);
        found := found + fitting;
      }
      assert providers[..|providers|] == providers;
      cands := Ordered(found, policy.preferCheaper);
    }

    method FittingOf(p: Provider, want: Constraints) returns (cands: seq<Candidate>)
      ensures cands == ModelsFitting(p, |p.models|, want)
    {
      cands := [];
      for n := 0 to |p.models|
        invariant cands == ModelsFitting(p, n, want)
      {
        if want.tier.Some? && p.models[n].tier != want.tier.value {
          continue;
        }
        if !(want.requiredCapabilities <= p.models[n].capabilities) {
          continue;
        }
        cands := cands + [Candidate(p.id, p.name, p.models[n])];
      }
    }

    method BreakerFor(key: string) returns (b: CircuitBreaker)
      requires Valid()
      modifies this`breakers
      ensures Valid() && key in breakers && breakers[key] == b && breakers.Keys == old(breakers.Keys) + {key}
      ensures forall k :: k in old(breakers) ==> breakers[k] == old(breakers[k])
      ensures b.Value() == StatusOf(old(Kernel()), key)
      ensures key !in old(breakers) ==> fresh(b)
    {
      if key !in breakers {
        var made := new CircuitBreaker(THRESHOLD, COOLDOWN);
        breakers := breakers[key := made];
      }
      b := breakers[key];
    }

    /** Asks the breaker of `key` whether it admits a call. */
    method Acquire(key: string, now: int) returns (admitted: bool)
      requires Valid()
      modifies this`breakers, breakers.Values
      ensures Valid() && fresh(breakers.Values - old(breakers.Values)) && key in breakers
      ensures Kernel() == Asked(old(Kernel()), key, now)
      ensures admitted == Admits(StatusOf(old(Kernel()), key), COOLDOWN, now)
    {
      var b := BreakerFor(key);
      admitted := b.Acquire(now);
      ghost var before := old(Kernel());
      assert b.Value() == Observed(StatusOf(before, key), COOLDOWN, now);
      assert forall k :: k in breakers && k != key ==> breakers[k].Value() == before.breakers[k];
      assert Kernel().breakers == before.breakers[key := b.Value()];
    }

    /** The retry loop on one admitted candidate. */
    method TryCandidate(key: string, env: Env, i: nat) returns (tries: nat, won: bool)
      modifies this`log
      ensures (tries, won) == Attempts(env, i, 0, policy.maxRetries)
      ensures log == old(log) + Calls(env, i, key, tries)
    {
      tries, won := 0, false;
      while tries <= policy.maxRetries
        invariant Attempts(env, i, tries, policy.maxRetries) == Attempts(env, i, 0, policy.maxRetries)
        invariant log == old(log) + Calls(env, i, key, tries)
        decreases policy.maxRetries + 1 - tries
      {
        log := log + [Call(key, env.calledAt(i, tries))];
        tries := tries + 1;
        match env.reply(i, tries - 1) {
          case Answer(_, _) => return tries, true;
          case Fatal => return tries, false;
          case Transient =>
        }
      }
    }

    method Succeed(key: string, cost: real)
      requires Valid() && key in breakers
      modifies this`spend, breakers.Values
      ensures Valid()
      ensures var k := old(Kernel());
              Kernel() == k.(breakers := k.breakers[key := Recovered(StatusOf(k, key))], spend := k.spend + [cost])
    {
      breakers[key].OnSuccess();
      spend := spend + [cost];
      assert forall k :: k in breakers && k != key ==> breakers[k].Value() == old(breakers[k].Value());
    }

    method Drop(key: string, now: int)
      requires Valid() && key in breakers
      modifies this`log, breakers.Values
      ensures Valid() && Kernel() == Dropped(old(Kernel()), key, now)
    {
      breakers[key].OnFailure(now);
      if breakers[key].state == Open {
        log := log + [Tripped(key, now)];
      }
      assert forall k :: k in breakers && k != key ==> breakers[k].Value() == old(breakers[k].Value());
    }

    /** One candidate of the fallback loop. */
    method ServeCandidate(c: Candidate, env: Env, i: nat) returns (answer: Option<(nat, nat)>)
      requires Valid()
      modifies this`breakers, this`spend, this`log, breakers.Values
      ensures Valid() && fresh(breakers.Values - old(breakers.Values))
      ensures Served(Kernel(), answer) == ServeOne(old(Kernel()), c, env, i, policy.maxRetries)
    {
      var admitted := Acquire(Key(c), env.askedAt(i));
      ghost var asked := Kernel();
      if !admitted {
        return None;
      }
      var tries, won := TryCandidate(Key(c), env, i);
      ghost var called := Kernel();
      assert called == asked.(log := asked.log + Calls(env, i, Key(c), tries));
      AttemptsAnswered(env, i, 0, policy.maxRetries);
      if won {
        var cost := CostOf(c.model, env.reply(i, tries - 1));
        Succeed(Key(c), cost);
        return Some((i, tries - 1));
      }
      Drop(Key(c), env.droppedAt(i));
      return None;
    }

    method FitsOf(cs: seq<Candidate>, tokens: int) returns (fits: seq<Candidate>)
      ensures fits == Wide(cs, tokens)
    {
      fits := [];
      for n := 0 to |cs|
        invariant fits == Wide(cs[..n], tokens)
      {
        assert cs[..n + 1][..n] == cs[..n];
        if tokens <= cs[n].model.contextWindow {
          fits := fits + [cs[n]];
        }
      }
      assert cs[..|cs|] == cs;
    }

    method Complete(ask: Ask, env: Env) returns (r: Completion)
      requires Valid()
      modifies this`breakers, this`spend, this`log, breakers.Values
      ensures Valid() && fresh(breakers.Values - old(breakers.Values))
      ensures (Kernel(), r) == Completed(old(Kernel()), providers, health, policy, ask, env)
    {
      var cands := Select(ask.want);
      if cands == [] {
        return NoModel;
      }
      if ask.verdict == Blocked {
        return BudgetExceeded;
      }
      var pool, downgraded := PoolOf(cands, ask);
      var fits := FitsOf(First(pool, policy.maxFallbacks + 1), ask.tokens);
      if fits == [] {
        return ContextOverflow;
      }
      r := Serve(fits, env, downgraded);
    }

    method PoolOf(cands: seq<Candidate>, ask: Ask) returns (pool: seq<Candidate>, downgraded: Option<string>)
      ensures (pool, downgraded) == Pool(cands, providers, health, policy, ask)
    {
      pool, downgraded := cands, None;
      if ask.verdict.Downgrade? {
        var cheaper := Select(ask.want.(tier := Some(ask.verdict.tier)));
        if cheaper != [] {
          pool, downgraded := cheaper, Some(ask.verdict.tier);
        }
      }
    }

    /** The fallback loop. */
    method Serve(fits: seq<Candidate>, env: Env, downgraded: Option<string>) returns (r: Completion)
      requires Valid()
      modifies this`breakers, this`spend, this`log, breakers.Values
      ensures Valid() && fresh(breakers.Values - old(breakers.Values))
      ensures (Kernel(), r) == Concluded(ServeFrom(old(Kernel()), fits, env, 0, policy.maxRetries), fits, env, downgraded)
    {
      var fallbackCount := 0;
      for i := 0 to |fits|
        invariant fallbackCount == i && Valid() && fresh(breakers.Values - old(breakers.Values))
        invariant ServeFrom(Kernel(), fits, env, i, policy.maxRetries) == ServeFrom(old(Kernel()), fits, env, 0, policy.maxRetries)
      {
        var cand := fits[i];
        var answer := ServeCandidate(cand, env, i);
        if answer.Some? {
          var attempt := answer.value.1;
          var cost := CostOf(cand.model, env.reply(i, attempt));
          return Answered(cand, fallbackCount, attempt, ReasonFor(downgraded, fallbackCount), cost);
        }
        fallbackCount := fallbackCount + 1;
      }
      r := AllFailed(fallbackCount);
    }
  }
}
