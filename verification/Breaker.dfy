/** The circuit breaker of a model, its log of outcomes, and when it refuses a call. */
module Breaker {
  datatype Phase = Closed | Open | HalfOpen

  /** The fields of a breaker as a value. */
  datatype Status = Status(phase: Phase, failures: int, openedAt: int)

  const FRESH := Status(Closed, 0, 0)
  const THRESHOLD := 5
  const COOLDOWN := 30_000

  /** What the getter leaves behind when the clock reads `now`. */
  function Observed(s: Status, cooldown: int, now: int): Status {
    if s.phase == Open && now - s.openedAt >= cooldown then s.(phase := HalfOpen) else s
  }

  predicate Admits(s: Status, cooldown: int, now: int) {
    Observed(s, cooldown, now).phase != Open
  }

  function Recovered(s: Status): Status {
    s.(phase := Closed, failures := 0)
  }

  function Failed(s: Status, threshold: int, now: int): Status {
    if s.phase == HalfOpen || s.failures + 1 >= threshold then Status(Open, threshold, now)
    else s.(failures := s.failures + 1)
  }

  class CircuitBreaker {
    var state: Phase
    var failures: int
    var openedAt: int
    const threshold: int
    const cooldownMs: int

    constructor (threshold: int, cooldownMs: int)
      ensures Value() == FRESH && this.threshold == threshold && this.cooldownMs == cooldownMs
    {
      state, failures, openedAt := Closed, 0, 0;
      this.threshold, this.cooldownMs := threshold, cooldownMs;
    }

    function Value(): Status
      reads this
    {
      Status(state, failures, openedAt)
    }

    method CurrentState(now: int) returns (s: Phase)
      modifies this
      ensures Value() == Observed(old(Value()), cooldownMs, now) && s == state
      ensures failures == old(failures) && openedAt == old(openedAt)
      ensures state == if old(state) == Open && now >= openedAt + cooldownMs then HalfOpen else old(state)
    {
      if state == Open && now - openedAt >= cooldownMs {
        state := HalfOpen;
      }
      s := state;
    }

    method Acquire(now: int) returns (admitted: bool)
      modifies this
      ensures Value() == Observed(old(Value()), cooldownMs, now)
      ensures admitted == Admits(old(Value()), cooldownMs, now)
      ensures admitted <==> old(state) != Open || now >= old(openedAt) + cooldownMs
    {
      var s := CurrentState(now);
      admitted := s != Open;
    }

    method OnSuccess()
      modifies this
      ensures Value() == Recovered(old(Value()))
      ensures state == Closed && failures == 0 && openedAt == old(openedAt)
    {
      failures := 0;
      state := Closed;
    }

    method OnFailure(now: int)
      modifies this
      ensures Value() == Failed(old(Value()), threshold, now)
      ensures if old(state) == HalfOpen || old(failures) + 1 >= threshold then state == Open && failures == threshold && openedAt == now
              else state == old(state) && failures == old(failures) + 1 && openedAt == old(openedAt)
    {
      if state == HalfOpen {
        Trip(now);
        return;
      }
      failures := failures + 1;
      if failures >= threshold {
        Trip(now);
      }
    }

    method Trip(now: int)
      modifies this
      ensures Value() == Status(Open, threshold, now)
    {
      state := Open;
      openedAt := now;
      failures := threshold;
    }
  }

  // ---------------------------------------------------------------- outcomes

  /** One admitted or refused request against a breaker: refused at `at`, or admitted at `at` and over at `end`. */
  datatype Use = Use(at: int, ok: bool, end: int)

  datatype Outcome = Won | Lost(at: int)

  /** A breaker's construction parameters. */
  datatype Settings = Settings(threshold: int, cooldown: int)

  const DEFAULTS := Settings(THRESHOLD, COOLDOWN)

  /** The state after one use. */
  function AfterUse(p: Settings, s: Status, u: Use): Status {
    var o := Observed(s, p.cooldown, u.at);
    if o.phase == Open then o else if u.ok then Recovered(o) else Failed(o, p.threshold, u.end)
  }

  function StatusAfter(p: Settings, us: seq<Use>): Status {
    if us == [] then FRESH else AfterUse(p, StatusAfter(p, us[..|us| - 1]), us[|us| - 1])
  }

  /** What a use adds to the outcomes: nothing when it is refused. */
  function OutcomeOf(p: Settings, s: Status, u: Use): seq<Outcome> {
    if !Admits(s, p.cooldown, u.at) then [] else if u.ok then [Won] else [Lost(u.end)]
  }

  /** The outcomes of the uses that were admitted. */
  function Outcomes(p: Settings, us: seq<Use>): seq<Outcome> {
    if us == [] then []
    else
      var n := |us| - 1;
      Outcomes(p, us[..n]) + OutcomeOf(p, StatusAfter(p, us[..n]), us[n])
  }

  /** How many failures there have been since the last success. */
  function Streak(os: seq<Outcome>): nat {
    if os == [] || os[|os| - 1].Won? then 0 else Streak(os[..|os| - 1]) + 1
  }

  /** Failures in a row, at least as many as the threshold. */
  predicate Tripping(p: Settings, os: seq<Outcome>) {
    os != [] && os[|os| - 1].Lost? && Streak(os) >= p.threshold
  }

  /** The last failure of them is less than the cooldown ago. */
  predicate CoolingDown(p: Settings, os: seq<Outcome>, now: int) {
    Tripping(p, os) && now - os[|os| - 1].at < p.cooldown
  }

  ghost predicate Reflects(p: Settings, s: Status, os: seq<Outcome>) {
    if Tripping(p, os) then s.phase == Open && s.failures == p.threshold && s.openedAt == os[|os| - 1].at
    else s.phase == Closed && s.failures == Streak(os)
  }

  lemma StreakGrows(os: seq<Outcome>, o: Outcome)
    ensures Streak(os + [o]) == if o.Won? then 0 else Streak(os) + 1
  {
    assert (os + [o])[..|os|] == os;
  }

  lemma ReflectsStep(p: Settings, s: Status, os: seq<Outcome>, u: Use)
    requires Reflects(p, s, os)
    ensures Reflects(p, AfterUse(p, s, u), os + OutcomeOf(p, s, u))
  {
    if !Admits(s, p.cooldown, u.at) {
      assert os + [] == os;
    } else {
      StreakGrows(os, if u.ok then Won else Lost(u.end));
    }
  }

  lemma {:induction false} AlwaysReflects(p: Settings, us: seq<Use>)
    ensures Reflects(p, StatusAfter(p, us), Outcomes(p, us))
  {
    if us != [] {
      AlwaysReflects(p, us[..|us| - 1]);
      ReflectsStep(p, StatusAfter(p, us[..|us| - 1]), Outcomes(p, us[..|us| - 1]), us[|us| - 1]);
    }
  }

  /** Whatever its threshold and cooldown, after any history a breaker refuses at `now` exactly while it is
      cooling down from failures in a row, at least as many as the threshold. */
  lemma RefusesIffCoolingDown(p: Settings, us: seq<Use>, now: int)
    ensures Admits(StatusAfter(p, us), p.cooldown, now) <==> !CoolingDown(p, Outcomes(p, us), now)
  {
    AlwaysReflects(p, us);
  }
}
