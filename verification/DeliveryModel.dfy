/** One delivery as functions of everything the outside world answers: the heal loop, the gates, and landing. */
module DeliveryModel {
  import opened Optional
  import opened Reviewer

  type Commit = string

  /** A test run either raises or yields an exit code (none when killed) and the failures it printed. */
  datatype TestRun = Crashed | Ran(exitCode: Option<int>, printed: Option<nat>, parseable: bool)

  function FailedCount(t: TestRun): nat
    requires t.Ran?
  {
    if t.printed.Some? then t.printed.value else if t.exitCode == Some(0) then 0 else 1
  }

  /** The gate on a run in the worktree; the gate on main looks at the count alone. */
  predicate Passes(t: TestRun) {
    t.Ran? && t.exitCode == Some(0) && FailedCount(t) == 0
  }

  predicate Green(t: TestRun) {
    t.Ran? && FailedCount(t) == 0
  }

  datatype Repair = RepairRaises | NoChange(diagnosis: string) | Rewritten(files: seq<FileArtifact>, diagnosis: string)

  datatype Advice = NoAdvisor | AdvisorRaises | Advice(findings: seq<Finding>)

  /** The answers of git, the file system, the generator, the test runner and the advisor. `None` and
      `false` stand for a call that raises, except where a gate answers `Some(false)`. */
  datatype World = World(
    base: Option<Commit>,
    generated: Option<seq<FileArtifact>>,
    scanFinds: seq<FileArtifact> -> bool,
    broken: seq<FileArtifact> -> Option<seq<FileArtifact>>,
    writes: (nat, seq<FileArtifact>) -> bool,
    tests: (nat, seq<FileArtifact>) -> TestRun,
    repairs: (nat, seq<FileArtifact>) -> Repair,
    contract: seq<FileArtifact> -> Option<bool>,
    benchmark: seq<FileArtifact> -> Option<bool>,
    collected: seq<FileArtifact> -> Option<seq<FileArtifact>>,
    advice: seq<FileArtifact> -> Advice,
    matchesMain: seq<FileArtifact> -> Option<bool>,
    committed: seq<FileArtifact> -> Option<Commit>,
    merges: bool,
    removes: bool,
    resets: bool,
    mainTests: Commit -> TestRun)

  datatype Options = Options(injectFault: bool, maxRepairs: int)

  datatype Reason =
    | Raised | StaticAnalysis | BudgetExhausted | Unparseable | NotRepaired(diagnosis: string) | ContractMismatch
    | TooSlow | ReviewSays(verdict: Verdict) | MainFails | Reverted

  datatype Attempt = Attempt(n: nat, passed: bool, failed: nat, diagnosis: Option<string>)

  datatype Outcome = Delivered(converged: bool) | Stopped(reason: Reason)

  // ---------------------------------------------------------------- test, diagnose, repair

  datatype Healed = Healed(stop: Option<Reason>, files: seq<FileArtifact>, attempts: seq<Attempt>)

  /** The loop from attempt `n` on. */
  function Heal(w: World, files: seq<FileArtifact>, n: nat, maxRepairs: int): Healed
    decreases 1 + maxRepairs - n
  {
    if n > 1 + maxRepairs then Healed(None, files, [])
    else
      var t := w.tests(n, files);
      if t.Crashed? then Healed(Some(Raised), files, [])
      else
        var a := Attempt(n, Passes(t), FailedCount(t), None);
        if Passes(t) then Healed(None, files, [a])
        else if n > maxRepairs then Healed(Some(BudgetExhausted), files, [a])
        else if !t.parseable then Healed(Some(Unparseable), files, [a])
        else
          match w.repairs(n, files)
          case RepairRaises => Healed(Some(Raised), files, [a])
          case NoChange(why) => Healed(Some(NotRepaired(why)), files, [a])
          case Rewritten(next, why) =>
            if !w.writes(n, next) then Healed(Some(Raised), next, [a])
            else
              var later := Heal(w, next, n + 1, maxRepairs);
              later.(attempts := [a.(diagnosis := Some(why))] + later.attempts)
  }

  // ---------------------------------------------------------------- gates

  function Judged(w: World, diff: seq<FileArtifact>): Verdict {
    var r := Reviewed(diff, DEFAULTS);
    match w.advice(diff)
    case Advice(findings) => Merged(r, findings).verdict
    case _ => r.verdict
  }

  /** Contract, benchmark and review: nothing when all pass. */
  function Gates(w: World, files: seq<FileArtifact>): Option<Reason> {
    match w.contract(files)
    case None => Some(Raised)
    case Some(false) => Some(ContractMismatch)
    case Some(true) =>
      match w.benchmark(files)
      case None => Some(Raised)
      case Some(false) => Some(TooSlow)
      case Some(true) =>
        var diff := w.collected(files);
        if diff.None? then Some(Raised)
        else if Judged(w, diff.value) != Approve then Some(ReviewSays(Judged(w, diff.value)))
        else None
  }

  // ---------------------------------------------------------------- landing

  datatype Landed = Landed(outcome: Outcome, main: Commit)

  function Land(w: World, files: seq<FileArtifact>, base: Commit): Landed {
    match w.matchesMain(files)
    case None => Landed(Stopped(Raised), base)
    case Some(true) =>
      var t := w.mainTests(base);
      if !w.removes || t.Crashed? then Landed(Stopped(Raised), base)
      else if FailedCount(t) > 0 then Landed(Stopped(MainFails), base)
      else Landed(Delivered(true), base)
    case Some(false) =>
      var sha := w.committed(files);
      if sha.None? || !w.merges then Landed(Stopped(Raised), base)
      else
        var t := w.mainTests(sha.value);
        if t.Crashed? || !w.removes then Landed(Stopped(Raised), sha.value)
        else if FailedCount(t) > 0 then Landed(Stopped(Reverted), if w.resets then base else sha.value)
        else Landed(Delivered(false), sha.value)
  }

  // ---------------------------------------------------------------- the whole

  /** The files handed to the heal loop: as generated, or with the fault injected. */
  function Prepared(w: World, o: Options): Option<seq<FileArtifact>> {
    if w.base.None? || w.generated.None? || w.scanFinds(w.generated.value) then None
    else
      var files := if o.injectFault then w.broken(w.generated.value) else w.generated;
      if files.None? || !w.writes(0, files.value) then None else files
  }

  function WhyNotPrepared(w: World): Reason {
    if w.base.Some? && w.generated.Some? && w.scanFinds(w.generated.value) then StaticAnalysis else Raised
  }

  datatype Delivery = Delivery(outcome: Outcome, main: Commit, files: seq<FileArtifact>, attempts: seq<Attempt>)

  function Deliver(w: World, o: Options, main: Commit): Delivery {
    var files := Prepared(w, o);
    if files.None? then Delivery(Stopped(WhyNotPrepared(w)), main, [], [])
    else
      var h := Heal(w, files.value, 1, o.maxRepairs);
      if h.stop.Some? then Delivery(Stopped(h.stop.value), main, h.files, h.attempts)
      else
        var stop := Gates(w, h.files);
        if stop.Some? then Delivery(Stopped(stop.value), main, h.files, h.attempts)
        else
          var l := Land(w, h.files, main);
          Delivery(l.outcome, l.main, h.files, h.attempts)
  }
}
