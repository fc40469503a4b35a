/** What a delivery guarantees about the main branch, whatever the outside world answers. */
module DeliverySafety {
  import opened Optional
  import opened Reviewer
  import opened DeliveryModel

  // ---------------------------------------------------------------- test runs

  /** The run printed that nothing failed, or printed no count and ended with exit code 0. */
  predicate ReportsNoFailure(t: TestRun) {
    t.Ran? && (t.printed == Some(0) || (t.printed == None && t.exitCode == Some(0)))
  }

  /** The run ended with exit code 0 and printed no failure. */
  predicate RunPasses(t: TestRun) {
    t.Ran? && t.exitCode == Some(0) && (t.printed == None || t.printed == Some(0))
  }

  /** The gate in the worktree and the gate on main, in what a run printed and how it ended. */
  lemma GatesOnRuns(t: TestRun)
    ensures Passes(t) <==> RunPasses(t)
    ensures Green(t) <==> ReportsNoFailure(t)
    ensures t.Ran? ==> FailedCount(t) == if t.printed.Some? then t.printed.value else if t.exitCode == Some(0) then 0 else 1
  {
  }

  // ---------------------------------------------------------------- the heal loop

  /** The files under test at attempt `k`: there is one when every earlier attempt failed in a readable
      way and was followed by a repair that changed something and could be written. */
  function Version(w: World, files: seq<FileArtifact>, k: nat): Option<seq<FileArtifact>>
    requires k >= 1
  {
    if k == 1 then Some(files)
    else
      var before := Version(w, files, k - 1);
      if before.None? then None else NextVersion(w, before.value, k - 1)
  }

  function NextVersion(w: World, files: seq<FileArtifact>, n: nat): Option<seq<FileArtifact>> {
    var t := w.tests(n, files);
    var r := w.repairs(n, files);
    if t.Ran? && !RunPasses(t) && t.parseable && r.Rewritten? && w.writes(n, r.files) then Some(r.files) else None
  }

  /** The tests pass at attempt `k`. */
  ghost predicate PassesAt(w: World, files: seq<FileArtifact>, k: nat) {
    k >= 1 && Version(w, files, k).Some? && RunPasses(w.tests(k, Version(w, files, k).value))
  }

  /** Attempts are numbered on from `n`, only the last can have passed, and it did exactly when the loop let go. */
  ghost predicate WellLogged(h: Healed, n: nat) {
    && (forall i :: 0 <= i < |h.attempts| ==> h.attempts[i].n == n + i)
    && (forall i :: 0 <= i < |h.attempts| - 1 ==> !h.attempts[i].passed)
    && (h.attempts != [] ==> (h.attempts[|h.attempts| - 1].passed <==> h.stop.None?))
  }

  lemma {:induction false} HealLogs(w: World, files: seq<FileArtifact>, n: nat, maxRepairs: int)
    requires n <= 1 + maxRepairs
    ensures WellLogged(Heal(w, files, n, maxRepairs), n)
    ensures |Heal(w, files, n, maxRepairs).attempts| <= 2 + maxRepairs - n
    ensures Heal(w, files, n, maxRepairs).stop.None? ==> Heal(w, files, n, maxRepairs).attempts != []
    decreases 1 + maxRepairs - n
  {
    var next := NextVersion(w, files, n);
    if n <= maxRepairs && next.Some? {
      HealLogs(w, next.value, n + 1, maxRepairs);
    }
  }

  lemma {:induction false} HealFollows(w: World, files: seq<FileArtifact>, start: seq<FileArtifact>, n: nat, maxRepairs: int)
    requires 1 <= n <= 1 + maxRepairs && Version(w, start, n) == Some(files)
    ensures var h := Heal(w, files, n, maxRepairs);
            var k := n + |h.attempts| - 1;
            if h.stop.None? then
              n <= k <= 1 + maxRepairs && PassesAt(w, start, k) && Version(w, start, k) == Some(h.files)
            else
              forall j :: n <= j <= 1 + maxRepairs ==> !PassesAt(w, start, j)
    decreases 1 + maxRepairs - n
  {
    var next := NextVersion(w, files, n);
    if !Passes(w.tests(n, files)) {
      if n <= maxRepairs && next.Some? {
        HealFollows(w, next.value, start, n + 1, maxRepairs);
      } else {
        NoLaterVersion(w, files, start, n, maxRepairs);
      }
    }
  }

  lemma NoLaterVersion(w: World, files: seq<FileArtifact>, start: seq<FileArtifact>, n: nat, maxRepairs: int)
    requires 1 <= n <= 1 + maxRepairs && Version(w, start, n) == Some(files) && !Passes(w.tests(n, files))
    requires n > maxRepairs || NextVersion(w, files, n).None?
    ensures forall j :: n <= j <= 1 + maxRepairs ==> !PassesAt(w, start, j)
  {
    forall j | n < j <= 1 + maxRepairs
      ensures Version(w, start, j).None?
    {
      StaysGone(w, start, n + 1, j);
    }
  }

  lemma {:induction false} StaysGone(w: World, start: seq<FileArtifact>, k: nat, j: nat)
    requires 1 <= k <= j && Version(w, start, k).None?
    ensures Version(w, start, j).None?
  {
    if k < j {
      StaysGone(w, start, k, j - 1);
    }
  }

  lemma {:induction false} NoVersionAfterPass(w: World, start: seq<FileArtifact>, k: nat, j: nat)
    requires PassesAt(w, start, k) && k < j
    ensures !PassesAt(w, start, j)
  {
    StaysGone(w, start, k + 1, j);
  }

  /** With a repair budget that is not negative the loop lets go exactly when the tests pass within
      1 + maxRepairs attempts, and then with the files that passed. */
  lemma HealsIff(w: World, files: seq<FileArtifact>, maxRepairs: nat)
    ensures var h := Heal(w, files, 1, maxRepairs);
            && (h.stop.None? <==> exists k: nat :: k <= 1 + maxRepairs && PassesAt(w, files, k))
            && |h.attempts| <= 1 + maxRepairs
            && (h.stop.None? ==> PassesAt(w, files, |h.attempts|) && Version(w, files, |h.attempts|) == Some(h.files))
  {
    HealLogs(w, files, 1, maxRepairs);
    HealFollows(w, files, files, 1, maxRepairs);
  }

  /** Why the loop stopped, in what happened at its last attempt `m`. */
  ghost predicate StopsBecause(w: World, start: seq<FileArtifact>, m: nat, maxRepairs: int, why: Reason) {
    var at := if m >= 1 then Version(w, start, m) else None;
    match why
    case BudgetExhausted => m == 1 + maxRepairs
    case Unparseable => m <= maxRepairs && at.Some? && w.tests(m, at.value).Ran? && !w.tests(m, at.value).parseable
    case NotRepaired(diagnosis) => m <= maxRepairs && at.Some? && w.repairs(m, at.value) == NoChange(diagnosis)
    case Raised =>
      || (Version(w, start, m + 1).Some? && w.tests(m + 1, Version(w, start, m + 1).value).Crashed?)
      || (m <= maxRepairs && at.Some? && w.repairs(m, at.value).RepairRaises?)
      || (m <= maxRepairs && at.Some? && w.repairs(m, at.value).Rewritten? && !w.writes(m, w.repairs(m, at.value).files))
    case _ => false
  }

  lemma {:induction false} HealStops(w: World, files: seq<FileArtifact>, start: seq<FileArtifact>, n: nat, maxRepairs: int)
    requires 1 <= n <= 1 + maxRepairs && Version(w, start, n) == Some(files)
    ensures var h := Heal(w, files, n, maxRepairs);
            h.stop.Some? ==> StopsBecause(w, start, n - 1 + |h.attempts|, maxRepairs, h.stop.value)
    decreases 1 + maxRepairs - n
  {
    var next := NextVersion(w, files, n);
    if next.Some? && n <= maxRepairs {
      HealStops(w, next.value, start, n + 1, maxRepairs);
    } else {
      StopsAtOnce(w, files, start, n, maxRepairs);
    }
  }

  lemma StopsAtOnce(w: World, files: seq<FileArtifact>, start: seq<FileArtifact>, n: nat, maxRepairs: int)
    requires 1 <= n <= 1 + maxRepairs && Version(w, start, n) == Some(files)
    requires n > maxRepairs || NextVersion(w, files, n).None?
    ensures var h := Heal(w, files, n, maxRepairs);
            && h.attempts == (if w.tests(n, files).Crashed? then [] else [Attempt(n, Passes(w.tests(n, files)), FailedCount(w.tests(n, files)), None)])
            && (h.stop.Some? ==> StopsBecause(w, start, if w.tests(n, files).Crashed? then n - 1 else n, maxRepairs, h.stop.value))
  {
  }

  // ---------------------------------------------------------------- the main branch

  ghost predicate GatesPass(w: World, files: seq<FileArtifact>) {
    && w.contract(files) == Some(true) && w.benchmark(files) == Some(true)
    && w.collected(files).Some? && Judged(w, w.collected(files).value) == Approve
  }

  /** The change was committed and merged. */
  ghost predicate Merges(w: World, files: seq<FileArtifact>) {
    w.matchesMain(files) == Some(false) && w.committed(files).Some? && w.merges
  }

  /** Files that went through the tests and all gates. */
  ghost predicate Cleared(w: World, o: Options, files: seq<FileArtifact>) {
    && Prepared(w, o).Some?
    && GatesPass(w, files)
    && exists k: nat :: k <= 1 + o.maxRepairs && PassesAt(w, Prepared(w, o).value, k) && Version(w, Prepared(w, o).value, k) == Some(files)
  }

  /** What is put to the tests first: generated code that the scan does not object to, broken on purpose if
      a fault is to be injected, and written to a worktree. */
  lemma PreparedMeans(w: World, o: Options, files: seq<FileArtifact>)
    ensures Prepared(w, o) == Some(files) <==>
            && w.base.Some? && w.generated.Some? && !w.scanFinds(w.generated.value) && w.writes(0, files)
            && (if o.injectFault then w.broken(w.generated.value) == Some(files) else w.generated == Some(files))
    ensures WhyNotPrepared(w) == StaticAnalysis <==> w.base.Some? && w.generated.Some? && w.scanFinds(w.generated.value)
    ensures WhyNotPrepared(w) == StaticAnalysis || WhyNotPrepared(w) == Raised
  {
  }

  /** The gates in their order: the contract, the benchmark, the review. */
  lemma GatesSay(w: World, files: seq<FileArtifact>)
    ensures Gates(w, files) == Some(ContractMismatch) <==> w.contract(files) == Some(false)
    ensures Gates(w, files) == Some(TooSlow) <==> w.contract(files) == Some(true) && w.benchmark(files) == Some(false)
    ensures forall v :: Gates(w, files) == Some(ReviewSays(v)) <==>
              && w.contract(files) == Some(true) && w.benchmark(files) == Some(true)
              && w.collected(files).Some? && Judged(w, w.collected(files).value) == v && v != Approve
    ensures Gates(w, files) == Some(Raised) <==>
              || w.contract(files) == None || (w.contract(files) == Some(true) && w.benchmark(files) == None)
              || (w.contract(files) == Some(true) && w.benchmark(files) == Some(true) && w.collected(files) == None)
  {
  }

  /** The review approves a diff exactly when it has at least one file and at most twelve, at most 800 lines, no
      secret, no unsafe path and no debug logging in sources, and no advice that counts is major. */
  lemma JudgedApproves(w: World, diff: seq<FileArtifact>)
    ensures Judged(w, diff) == Approve <==>
            && 0 < |diff| <= 12 && TotalLines(diff) <= 800
            && (forall i :: 0 <= i < |diff| ==> !Dangerous(diff[i]) && !LogsFromSource(diff[i]))
            && (w.advice(diff).Advice? ==> !Has(Extended(Reviewed(diff, DEFAULTS).findings, w.advice(diff).findings), Major))
  {
    VerdictIff(diff, DEFAULTS);
    if w.advice(diff).Advice? {
      AdvisoriesOnlyWorsen(diff, DEFAULTS, w.advice(diff).findings);
    }
  }

  lemma GatesIff(w: World, files: seq<FileArtifact>)
    ensures Gates(w, files).None? <==> GatesPass(w, files)
  {
  }

  /** The heal loop let go with `files`, which then passed the gates. */
  ghost predicate ReachesLanding(w: World, o: Options, files: seq<FileArtifact>) {
    && Prepared(w, o).Some?
    && var h := Heal(w, Prepared(w, o).value, 1, o.maxRepairs);
       h.stop.None? && h.files == files && Gates(w, files).None?
  }

  lemma PassingVersionIsUnique(w: World, start: seq<FileArtifact>, j: nat, k: nat)
    requires PassesAt(w, start, j) && PassesAt(w, start, k)
    ensures j == k
  {
    if j < k {
      NoVersionAfterPass(w, start, j, k);
    } else if k < j {
      NoVersionAfterPass(w, start, k, j);
    }
  }

  lemma HealedFilesIff(w: World, start: seq<FileArtifact>, maxRepairs: nat, files: seq<FileArtifact>)
    ensures var h := Heal(w, start, 1, maxRepairs);
            h.stop.None? && h.files == files <==>
            exists k: nat :: k <= 1 + maxRepairs && PassesAt(w, start, k) && Version(w, start, k) == Some(files)
  {
    HealsIff(w, start, maxRepairs);
    var m := |Heal(w, start, 1, maxRepairs).attempts|;
    if k: nat :| k <= 1 + maxRepairs && PassesAt(w, start, k) && Version(w, start, k) == Some(files) {
      PassingVersionIsUnique(w, start, k, m);
    }
  }

  /** Files reach the landing step exactly when they are cleared. */
  lemma ReachesLandingIff(w: World, o: Options, files: seq<FileArtifact>)
    requires o.maxRepairs >= 0
    ensures Cleared(w, o, files) <==> ReachesLanding(w, o, files)
  {
    if Prepared(w, o).Some? {
      HealedFilesIff(w, Prepared(w, o).value, o.maxRepairs, files);
      GatesIff(w, files);
    }
  }

  /** A delivery lands exactly the cleared files; otherwise it stops and leaves main alone. */
  lemma LandsIffCleared(w: World, o: Options, main: Commit)
    requires o.maxRepairs >= 0
    ensures var d := Deliver(w, o, main);
            if Cleared(w, o, d.files) then d.outcome == Land(w, d.files, main).outcome && d.main == Land(w, d.files, main).main
            else d.outcome.Stopped? && d.main == main
  {
    ReachesLandingIff(w, o, Deliver(w, o, main).files);
  }

  /** Success with a new commit: exactly when cleared files were committed and merged and the tests on the
      merged main report no failure. Main is then that commit. */
  lemma DeliversIff(w: World, o: Options, main: Commit)
    requires o.maxRepairs >= 0
    ensures var d := Deliver(w, o, main);
            && (d.outcome == Delivered(false) <==>
                Cleared(w, o, d.files) && Merges(w, d.files) && w.removes && ReportsNoFailure(w.mainTests(w.committed(d.files).value)))
            && (d.outcome == Delivered(false) ==> Some(d.main) == w.committed(d.files))
  {
    LandsIffCleared(w, o, main);
  }

  /** Success without a commit: exactly when cleared files equal main and main is green. Main stays. */
  lemma ConvergesIff(w: World, o: Options, main: Commit)
    requires o.maxRepairs >= 0
    ensures var d := Deliver(w, o, main);
            && (d.outcome == Delivered(true) <==>
                Cleared(w, o, d.files) && w.matchesMain(d.files) == Some(true) && w.removes && ReportsNoFailure(w.mainTests(main)))
            && (d.outcome == Delivered(true) ==> d.main == main)
  {
    LandsIffCleared(w, o, main);
  }

  /** The change was merged and could then not be verified or taken back. */
  ghost predicate LeftBehind(w: World, files: seq<FileArtifact>) {
    && Merges(w, files)
    && var t := w.mainTests(w.committed(files).value);
       t.Crashed? || !w.removes || (!ReportsNoFailure(t) && !w.resets)
  }

  /** A delivery that does not succeed leaves main at its base, except when a call after the merge raised
      or the reset failed: then main is the new commit. */
  lemma FailureRestoresMain(w: World, o: Options, main: Commit)
    requires o.maxRepairs >= 0 && Deliver(w, o, main).outcome.Stopped?
    ensures var d := Deliver(w, o, main);
            if Cleared(w, o, d.files) && LeftBehind(w, d.files) then Some(d.main) == w.committed(d.files) else d.main == main
  {
    LandsIffCleared(w, o, main);
  }

  /** The tests run at most 1 + maxRepairs times before the gates. */
  lemma AttemptsAreBounded(w: World, o: Options, main: Commit)
    requires o.maxRepairs >= 0
    ensures |Deliver(w, o, main).attempts| <= 1 + o.maxRepairs
    ensures forall i :: 0 <= i < |Deliver(w, o, main).attempts| ==> Deliver(w, o, main).attempts[i].n == 1 + i
  {
    if Prepared(w, o).Some? {
      HealLogs(w, Prepared(w, o).value, 1, o.maxRepairs);
    }
  }

  // ---------------------------------------------------------------- what is not guaranteed

  const CLEAN := [FileArtifact("a", "")]
  const FLAGGED := [FileArtifact("b", "")]
  const PASS := Ran(Some(0), Some(0), true)
  const FAIL := Ran(Some(1), Some(1), true)

  /** Everything works; the scan objects to `FLAGGED` alone; the first test run in the worktree yields
      `first`, and runs on main what `onMain` says. The change is committed as `sha`. */
  function Friendly(first: TestRun, onMain: Commit -> TestRun, sha: Commit): World {
    World(Some("base"), Some(CLEAN), f => f == FLAGGED, _ => Some(FLAGGED), (_, _) => true,
          (n, _) => if n == 1 then first else PASS, (_, _) => Rewritten(FLAGGED, "fixed"),
          _ => Some(true), _ => Some(true), _ => Some(CLEAN), _ => NoAdvisor, _ => Some(false),
          _ => Some(sha), true, true, true, onMain)
  }

  /** The friendly world in which runs on main pass. */
  function Passing(first: TestRun): World {
    Friendly(first, _ => PASS, "new")
  }

  lemma CleanIsApproved()
    ensures Reviewed(CLEAN, DEFAULTS).verdict == Approve
  {
    VerdictIff(CLEAN, DEFAULTS);
    assert TotalLines(CLEAN[..0]) == 0 && LineCount("") == 1;
    assert Secrets("") == [];
  }

  lemma FriendlyDelivers(w: World, o: Options, first: TestRun, onMain: Commit -> TestRun, sha: Commit)
    requires w == Friendly(first, onMain, sha) && Green(onMain(sha)) && (first == PASS || (first == FAIL && o.maxRepairs >= 1))
    ensures Deliver(w, o, "base").outcome == Delivered(false) && Deliver(w, o, "base").main == sha
    ensures Deliver(w, o, "base").files == if o.injectFault || first == FAIL then FLAGGED else CLEAN
    ensures Deliver(w, o, "base").attempts == [] <==> o.maxRepairs < 0
  {
    CleanIsApproved();
    assert CLEAN[0].path != FLAGGED[0].path;
    var files := Prepared(w, o).value;
    if o.maxRepairs >= 0 && first == FAIL {
      assert Heal(w, FLAGGED, 2, o.maxRepairs).files == FLAGGED;
    }
  }

  ghost predicate AlwaysTested(o: Options) {
    forall w: World, main: Commit :: Deliver(w, o, main).outcome.Delivered? ==>
      exists i :: 0 <= i < |Deliver(w, o, main).attempts| && Deliver(w, o, main).attempts[i].passed
  }

  /** No success goes untested exactly when the repair budget is not negative. */
  lemma TestedIff(o: Options)
    ensures AlwaysTested(o) <==> o.maxRepairs >= 0
  {
    if o.maxRepairs >= 0 {
      forall w: World, main: Commit | Deliver(w, o, main).outcome.Delivered?
        ensures exists i :: 0 <= i < |Deliver(w, o, main).attempts| && Deliver(w, o, main).attempts[i].passed
      {
        HealLogs(w, Prepared(w, o).value, 1, o.maxRepairs);
        assert Deliver(w, o, main).attempts[|Deliver(w, o, main).attempts| - 1].passed;
      }
    } else {
      FriendlyDelivers(Passing(PASS), o, PASS, _ => PASS, "new");
      assert Deliver(Passing(PASS), o, "base").outcome.Delivered?;
    }
  }

  ghost predicate AlwaysScanned(o: Options) {
    forall w: World, main: Commit :: Deliver(w, o, main).outcome.Delivered? ==> !w.scanFinds(Deliver(w, o, main).files)
  }

  /** The scan sees the files as generated: what is delivered has passed it in every case exactly when
      nothing can change the files afterwards. */
  lemma ScannedIff(o: Options)
    ensures AlwaysScanned(o) <==> !o.injectFault && o.maxRepairs <= 0
  {
    if o.injectFault {
      FriendlyDelivers(Passing(PASS), o, PASS, _ => PASS, "new");
      assert Passing(PASS).scanFinds(Deliver(Passing(PASS), o, "base").files);
    } else if o.maxRepairs >= 1 {
      FriendlyDelivers(Passing(FAIL), o, FAIL, _ => PASS, "new");
      assert Passing(FAIL).scanFinds(Deliver(Passing(FAIL), o, "base").files);
    }
  }

  /** Whatever is delivered, the tests pass on the main branch it leaves. */
  ghost predicate AlwaysPassesOnMain(o: Options, onMain: Commit -> TestRun) {
    forall w: World, main: Commit :: w.mainTests == onMain && Deliver(w, o, main).outcome.Delivered? ==>
      RunPasses(onMain(Deliver(w, o, main).main))
  }

  /** The gate on main reads the failure count only: a success means that the tests pass on main exactly
      when no run on main can report no failure and yet fail or be killed. */
  lemma MainPassesIff(o: Options, onMain: Commit -> TestRun)
    ensures AlwaysPassesOnMain(o, onMain) <==> forall c :: ReportsNoFailure(onMain(c)) ==> RunPasses(onMain(c))
  {
    if AlwaysPassesOnMain(o, onMain) {
      forall c | ReportsNoFailure(onMain(c))
        ensures RunPasses(onMain(c))
      {
        FriendlyDelivers(Friendly(PASS, onMain, c), o, PASS, onMain, c);
        assert Deliver(Friendly(PASS, onMain, c), o, "base").outcome.Delivered?;
      }
    } else {
      var w: World, main: Commit :| w.mainTests == onMain && Deliver(w, o, main).outcome.Delivered? &&
        !RunPasses(onMain(Deliver(w, o, main).main));
      DeliveredMainIsGreen(w, o, main);
    }
  }

  lemma DeliveredMainIsGreen(w: World, o: Options, main: Commit)
    requires Deliver(w, o, main).outcome.Delivered?
    ensures ReportsNoFailure(w.mainTests(Deliver(w, o, main).main))
  {
    var h := Heal(w, Prepared(w, o).value, 1, o.maxRepairs);
    LandedIsGreen(w, h.files, main);
    DeliveredLanded(w, o, main, h);
  }

  lemma DeliveredLanded(w: World, o: Options, main: Commit, h: Healed)
    requires Deliver(w, o, main).outcome.Delivered? && Prepared(w, o).Some? && h == Heal(w, Prepared(w, o).value, 1, o.maxRepairs)
    ensures Deliver(w, o, main).outcome == Land(w, h.files, main).outcome && Deliver(w, o, main).main == Land(w, h.files, main).main
  {
  }

  lemma LandedIsGreen(w: World, files: seq<FileArtifact>, base: Commit)
    ensures Land(w, files, base).outcome.Delivered? ==> ReportsNoFailure(w.mainTests(Land(w, files, base).main))
  {
  }

  /** Such a run: killed after it printed that nothing failed. */
  lemma KilledRunOnMainPasses(o: Options) returns (w: World)
    ensures Deliver(w, o, "base").outcome == Delivered(false)
    ensures w.mainTests(Deliver(w, o, "base").main) == Ran(None, Some(0), true)
    ensures !RunPasses(w.mainTests(Deliver(w, o, "base").main))
  {
    w := Friendly(PASS, _ => Ran(None, Some(0), true), "new");
    FriendlyDelivers(w, o, PASS, w.mainTests, "new");
  }
}
