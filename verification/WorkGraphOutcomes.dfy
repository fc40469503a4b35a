/** The closed form of an execution: what each reported status says about the transitive
    dependencies of a node, whatever order tasks finish in. */
module WorkGraphOutcomes {
  import opened Optional
  import opened Graphs
  import opened WorkGraphLevels
  import opened WorkGraphCompile
  import opened WorkGraphTheorems
  import opened WorkGraphExecute

  ghost function LevelList(nodes: seq<Node>, k: nat): seq<string> {
    InRosterOrder(nodes, LevelSet(nodes, k))
  }

  ghost function StateAfter(nodes: seq<Node>, env: Environment, initial: Context, k: nat): State {
    RunLevels(nodes, env, LevelsUpTo(nodes, k), State(initial, {}, {})).1
  }

  /** The report of a node of level `k`, computed from the state before that level alone. */
  ghost function ReportAt(nodes: seq<Node>, env: Environment, initial: Context, k: nat, x: string): Report {
    var st := StateAfter(nodes, env, initial, k);
    FinalReport(env, st.ctx, x, Decide(nodes, env, st, x))
  }

  ghost predicate IsSink(nodes: seq<Node>, level: seq<string>) {
    forall x, d :: x in level && d in Deps(nodes, x) ==> d !in level
  }

  lemma SomeInCongruence(deps: seq<string>, s: set<string>, t: set<string>)
    requires forall d :: d in deps ==> (d in s <==> d in t)
    ensures SomeIn(deps, s) <==> SomeIn(deps, t)
  {
    if SomeIn(deps, s) {
      var i :| 0 <= i < |deps| && deps[i] in s;
      assert deps[i] in deps;
    }
    if SomeIn(deps, t) {
      var i :| 0 <= i < |deps| && deps[i] in t;
      assert deps[i] in deps;
    }
  }

  /** Without dependencies inside the level, each task decides as if it were started alone. */
  lemma {:induction false} DecisionsAreIndependent(nodes: seq<Node>, env: Environment, level: seq<string>, st: State)
    requires IsSink(nodes, level)
    ensures var (ds, mid) := StartAll(nodes, env, level, st);
            && (forall i :: 0 <= i < |level| ==> ds[i] == Decide(nodes, env, st, level[i]))
            && mid.ctx == st.ctx
            && (forall y :: y in mid.blocked <==> y in st.blocked || (y in level && Decide(nodes, env, st, y) == Settle(Blocked(DependencyBlocked))))
            && (forall y :: y in mid.skipped <==> y in st.skipped || (y in level && Decide(nodes, env, st, y) == Settle(Skipped(DependencySkipped))))
  {
    if level != [] {
      var n := |level| - 1;
      var init := level[..n];
      assert level == init + [level[n]];
      assert forall y :: y in init ==> y in level;
      DecisionsAreIndependent(nodes, env, init, st);
      var mid := StartAll(nodes, env, init, st).1;
      DecideElsewhere(nodes, env, level, st, mid, level[n]);
    }
  }

  lemma DecideElsewhere(nodes: seq<Node>, env: Environment, level: seq<string>, st: State, mid: State, x: string)
    requires IsSink(nodes, level) && x in level && mid.ctx == st.ctx
    requires forall y :: y !in level ==> (y in mid.blocked <==> y in st.blocked) && (y in mid.skipped <==> y in st.skipped)
    ensures Decide(nodes, env, mid, x) == Decide(nodes, env, st, x)
  {
    SomeInCongruence(Deps(nodes, x), st.blocked, mid.blocked);
    SomeInCongruence(Deps(nodes, x), st.skipped, mid.skipped);
  }

  lemma LevelIsSink(nodes: seq<Node>, k: nat)
    requires DistinctIds(nodes)
    ensures IsSink(nodes, LevelList(nodes, k))
    ensures NoDuplicates(LevelList(nodes, k))
    ensures forall x :: x in LevelList(nodes, k) <==> x in LevelSet(nodes, k)
  {
    InRosterOrderMembers(nodes, LevelSet(nodes, k));
    forall x, d | x in LevelList(nodes, k) && d in Deps(nodes, x)
      ensures d !in LevelList(nodes, k)
    {
      assert DepsWithin(nodes, x, Done(nodes, k));
    }
  }

  lemma StateAfterNext(nodes: seq<Node>, env: Environment, initial: Context, k: nat)
    ensures StateAfter(nodes, env, initial, k + 1) ==
            RunLevel(nodes, env, LevelList(nodes, k), StateAfter(nodes, env, initial, k)).1
    ensures RunLevels(nodes, env, LevelsUpTo(nodes, k + 1), State(initial, {}, {})).0 ==
            RunLevels(nodes, env, LevelsUpTo(nodes, k), State(initial, {}, {})).0 +
            RunLevel(nodes, env, LevelList(nodes, k), StateAfter(nodes, env, initial, k)).0
  {
    var levels := LevelsUpTo(nodes, k + 1);
    assert levels[..|levels| - 1] == LevelsUpTo(nodes, k);
  }

  /** What running a level adds to the blocked and skipped sets. */
  lemma RunLevelRecords(nodes: seq<Node>, env: Environment, level: seq<string>, st: State, x: string)
    requires IsSink(nodes, level) && x in level
    ensures var after := RunLevel(nodes, env, level, st).1;
            var report := FinalReport(env, st.ctx, x, Decide(nodes, env, st, x));
            && (x in after.blocked <==> x in st.blocked || report.Blocked?)
            && (x in after.skipped <==> x in st.skipped || report.Skipped?)
  {
    DecisionsAreIndependent(nodes, env, level, st);
    var (ds, mid) := StartAll(nodes, env, level, st);
    var results := Reports(env, st.ctx, level, ds);
    var i :| 0 <= i < |level| && level[i] == x;
    assert ds[i] == Decide(nodes, env, st, x);
    assert results[i] == Result(x, FinalReport(env, st.ctx, x, ds[i]));
    assert x in Started(level, ds) <==> ds[i] == Start by {
      if x in Started(level, ds) {
        var j :| 0 <= j < |level| && ds[j] == Start && level[j] == x;
      }
    }
    assert x in SkippedIn(results) <==> results[i].report.Skipped? by {
      if x in SkippedIn(results) {
        var j :| 0 <= j < |results| && results[j].report.Skipped? && results[j].id == x;
        assert results[j] == Result(level[j], FinalReport(env, st.ctx, level[j], ds[j]));
      }
    }
  }

  lemma RunLevelKeeps(nodes: seq<Node>, env: Environment, level: seq<string>, st: State, x: string)
    requires IsSink(nodes, level) && x !in level
    ensures var after := RunLevel(nodes, env, level, st).1;
            (x in after.blocked <==> x in st.blocked) && (x in after.skipped <==> x in st.skipped)
  {
    DecisionsAreIndependent(nodes, env, level, st);
  }

  lemma LevelListMember(nodes: seq<Node>, k: nat, x: string)
    requires DistinctIds(nodes)
    ensures IsSink(nodes, LevelList(nodes, k))
    ensures x in LevelList(nodes, k) ==> x in Done(nodes, k + 1) && x !in Done(nodes, k)
    ensures x in LevelList(nodes, k) <==> x in LevelSet(nodes, k)
  {
    LevelIsSink(nodes, k);
  }

  ghost predicate SameRecord(s: State, t: State, x: string) {
    (x in s.blocked <==> x in t.blocked) && (x in s.skipped <==> x in t.skipped)
  }

  lemma StepKeeps(nodes: seq<Node>, env: Environment, initial: Context, k: nat, x: string)
    requires DistinctIds(nodes) && x !in LevelSet(nodes, k)
    ensures SameRecord(StateAfter(nodes, env, initial, k), StateAfter(nodes, env, initial, k + 1), x)
  {
    StateAfterNext(nodes, env, initial, k);
    LevelListMember(nodes, k, x);
    RunLevelKeeps(nodes, env, LevelList(nodes, k), StateAfter(nodes, env, initial, k), x);
  }

  lemma StepRecords(nodes: seq<Node>, env: Environment, initial: Context, k: nat, x: string)
    requires DistinctIds(nodes) && x in LevelSet(nodes, k)
    requires x !in StateAfter(nodes, env, initial, k).blocked && x !in StateAfter(nodes, env, initial, k).skipped
    ensures x in StateAfter(nodes, env, initial, k + 1).blocked <==> ReportAt(nodes, env, initial, k, x).Blocked?
    ensures x in StateAfter(nodes, env, initial, k + 1).skipped <==> ReportAt(nodes, env, initial, k, x).Skipped?
  {
    StateAfterNext(nodes, env, initial, k);
    LevelListMember(nodes, k, x);
    RunLevelRecords(nodes, env, LevelList(nodes, k), StateAfter(nodes, env, initial, k), x);
  }

  /** Only nodes already placed are ever recorded as blocked or skipped. */
  lemma {:induction false} OnlyPlacedRecorded(nodes: seq<Node>, env: Environment, initial: Context, k: nat, x: string)
    requires DistinctIds(nodes) && x !in Done(nodes, k)
    ensures var st := StateAfter(nodes, env, initial, k);
            x !in st.blocked && x !in st.skipped
    decreases k
  {
    if k > 0 {
      OnlyPlacedRecorded(nodes, env, initial, k - 1, x);
      StepKeeps(nodes, env, initial, k - 1, x);
    }
  }

  lemma DoneIsNotNext(nodes: seq<Node>, k: nat, x: string)
    requires x in Done(nodes, k)
    ensures x !in LevelSet(nodes, k) && x in Done(nodes, k + 1)
  {
  }

  lemma {:induction false} RecordPersists(nodes: seq<Node>, env: Environment, initial: Context, j: nat, k: nat, x: string)
    requires DistinctIds(nodes) && j <= k && x in Done(nodes, j)
    ensures SameRecord(StateAfter(nodes, env, initial, j), StateAfter(nodes, env, initial, k), x)
    decreases k - j
  {
    if j < k {
      DoneIsNotNext(nodes, j, x);
      StepKeeps(nodes, env, initial, j, x);
      RecordPersists(nodes, env, initial, j + 1, k, x);
    }
  }

  /** Before level `k` the sets record exactly the reports of the nodes placed earlier. */
  lemma ReportsAreRecorded(nodes: seq<Node>, env: Environment, initial: Context, k: nat, j: nat, x: string)
    requires DistinctIds(nodes) && j < k && x in LevelSet(nodes, j)
    ensures x in StateAfter(nodes, env, initial, k).blocked <==> ReportAt(nodes, env, initial, j, x).Blocked?
    ensures x in StateAfter(nodes, env, initial, k).skipped <==> ReportAt(nodes, env, initial, j, x).Skipped?
  {
    OnlyPlacedRecorded(nodes, env, initial, j, x);
    StepRecords(nodes, env, initial, j, x);
    LevelInDone(nodes, j, j + 1, x);
    RecordPersists(nodes, env, initial, j + 1, k, x);
  }

  // ---------------------------------------------------------------- closed form

  ghost predicate RaisedAt(nodes: seq<Node>, env: Environment, initial: Context, k: nat, x: string) {
    var r := ReportAt(nodes, env, initial, k, x);
    r.Blocked? && r.cause.HandlerRaised?
  }

  ghost predicate ConditionFailedAt(nodes: seq<Node>, env: Environment, initial: Context, k: nat, x: string) {
    var r := ReportAt(nodes, env, initial, k, x);
    r.Skipped? && r.why.ConditionNotMet?
  }

  lemma DepLevel(nodes: seq<Node>, k: nat, x: string, d: string) returns (j: nat)
    requires DistinctIds(nodes) && x in LevelSet(nodes, k) && d in Deps(nodes, x)
    ensures j < k && d in LevelSet(nodes, j) && (x, d) in Edges(nodes)
  {
    EdgeIffDep(nodes, x, d);
    assert DepsWithin(nodes, x, Done(nodes, k));
    j := LevelOf(nodes, k, d);
  }

  /** A node is blocked by its own handler or through a blocked dependency. */
  lemma BlockedLocally(nodes: seq<Node>, env: Environment, initial: Context, k: nat, x: string) returns (d: string)
    requires ReportAt(nodes, env, initial, k, x).Blocked? && !RaisedAt(nodes, env, initial, k, x)
    ensures d in Deps(nodes, x) && d in StateAfter(nodes, env, initial, k).blocked
  {
    var st := StateAfter(nodes, env, initial, k);
    var i :| 0 <= i < |Deps(nodes, x)| && Deps(nodes, x)[i] in st.blocked;
    d := Deps(nodes, x)[i];
  }

  lemma BlockedThrough(nodes: seq<Node>, env: Environment, initial: Context, k: nat, x: string, d: string)
    requires d in Deps(nodes, x) && d in StateAfter(nodes, env, initial, k).blocked
    ensures ReportAt(nodes, env, initial, k, x).Blocked?
  {
    var i :| 0 <= i < |Deps(nodes, x)| && Deps(nodes, x)[i] == d;
    assert SomeIn(Deps(nodes, x), StateAfter(nodes, env, initial, k).blocked);
  }

  lemma {:induction false} BlockedHasRaiser(nodes: seq<Node>, env: Environment, initial: Context, k: nat, x: string)
      returns (y: string, j: nat)
    requires DistinctIds(nodes) && x in LevelSet(nodes, k) && ReportAt(nodes, env, initial, k, x).Blocked?
    ensures j <= k && y in LevelSet(nodes, j) && Reaches(Edges(nodes), x, y) && RaisedAt(nodes, env, initial, j, y)
    decreases k
  {
    if RaisedAt(nodes, env, initial, k, x) {
      ReachesSelf(Edges(nodes), x);
      return x, k;
    }
    var d := BlockedLocally(nodes, env, initial, k, x);
    var i := DepLevel(nodes, k, x, d);
    ReportsAreRecorded(nodes, env, initial, k, i, d);
    y, j := BlockedHasRaiser(nodes, env, initial, i, d);
    ReachesStep(Edges(nodes), x, d, y);
  }

  lemma {:induction false} RaiserBlocks(nodes: seq<Node>, env: Environment, initial: Context, k: nat, x: string, j: nat, y: string)
    requires DistinctIds(nodes) && x in LevelSet(nodes, k) && y in LevelSet(nodes, j)
    requires Reaches(Edges(nodes), x, y) && RaisedAt(nodes, env, initial, j, y)
    ensures ReportAt(nodes, env, initial, k, x).Blocked?
    decreases k
  {
    if x == y {
      LevelIsUnique(nodes, j, k, x);
    } else {
      var d := ReachesUnfold(Edges(nodes), x, y);
      EdgeIffDep(nodes, x, d);
      var i := DepLevel(nodes, k, x, d);
      RaiserBlocks(nodes, env, initial, i, d, j, y);
      ReportsAreRecorded(nodes, env, initial, k, i, d);
      BlockedThrough(nodes, env, initial, k, x, d);
    }
  }

  lemma SkippedLocally(nodes: seq<Node>, env: Environment, initial: Context, k: nat, x: string) returns (d: string)
    requires ReportAt(nodes, env, initial, k, x).Skipped? && !ConditionFailedAt(nodes, env, initial, k, x)
    ensures d in Deps(nodes, x) && d in StateAfter(nodes, env, initial, k).skipped
  {
    var st := StateAfter(nodes, env, initial, k);
    var i :| 0 <= i < |Deps(nodes, x)| && Deps(nodes, x)[i] in st.skipped;
    d := Deps(nodes, x)[i];
  }

  lemma SkippedThrough(nodes: seq<Node>, env: Environment, initial: Context, k: nat, x: string, d: string)
    requires d in Deps(nodes, x) && d in StateAfter(nodes, env, initial, k).skipped
    requires !ReportAt(nodes, env, initial, k, x).Blocked?
    ensures ReportAt(nodes, env, initial, k, x).Skipped?
  {
    var i :| 0 <= i < |Deps(nodes, x)| && Deps(nodes, x)[i] == d;
    assert SomeIn(Deps(nodes, x), StateAfter(nodes, env, initial, k).skipped);
  }

  lemma {:induction false} SkippedHasCondition(nodes: seq<Node>, env: Environment, initial: Context, k: nat, x: string)
      returns (y: string, j: nat)
    requires DistinctIds(nodes) && x in LevelSet(nodes, k) && ReportAt(nodes, env, initial, k, x).Skipped?
    ensures j <= k && y in LevelSet(nodes, j) && Reaches(Edges(nodes), x, y)
    ensures ConditionFailedAt(nodes, env, initial, j, y)
    decreases k
  {
    if ConditionFailedAt(nodes, env, initial, k, x) {
      ReachesSelf(Edges(nodes), x);
      return x, k;
    }
    var d := SkippedLocally(nodes, env, initial, k, x);
    var i := DepLevel(nodes, k, x, d);
    ReportsAreRecorded(nodes, env, initial, k, i, d);
    y, j := SkippedHasCondition(nodes, env, initial, i, d);
    ReachesStep(Edges(nodes), x, d, y);
  }

  lemma {:induction false} ConditionSkips(nodes: seq<Node>, env: Environment, initial: Context, k: nat, x: string, j: nat, y: string)
    requires DistinctIds(nodes) && x in LevelSet(nodes, k) && y in LevelSet(nodes, j)
    requires Reaches(Edges(nodes), x, y) && ConditionFailedAt(nodes, env, initial, j, y)
    requires !ReportAt(nodes, env, initial, k, x).Blocked?
    ensures ReportAt(nodes, env, initial, k, x).Skipped?
    decreases k
  {
    if x == y {
      LevelIsUnique(nodes, j, k, x);
    } else {
      var d := ReachesUnfold(Edges(nodes), x, y);
      EdgeIffDep(nodes, x, d);
      var i := DepLevel(nodes, k, x, d);
      ReportsAreRecorded(nodes, env, initial, k, i, d);
      if ReportAt(nodes, env, initial, i, d).Blocked? {
        BlockedThrough(nodes, env, initial, k, x, d);
        assert false;
      }
      ConditionSkips(nodes, env, initial, i, d, j, y);
      SkippedThrough(nodes, env, initial, k, x, d);
    }
  }

  // ---------------------------------------------------------------- the list of results

  ghost function ResultsUpTo(nodes: seq<Node>, env: Environment, initial: Context, h: nat): seq<Result> {
    RunLevels(nodes, env, LevelsUpTo(nodes, h), State(initial, {}, {})).0
  }

  /** The entry for `x`, a node of level `k`. */
  ghost predicate IsEntry(nodes: seq<Node>, env: Environment, initial: Context, r: Result, k: nat) {
    r.id in LevelSet(nodes, k) && r.report == ReportAt(nodes, env, initial, k, r.id)
  }

  lemma LevelResults(nodes: seq<Node>, env: Environment, initial: Context, k: nat)
    requires DistinctIds(nodes)
    ensures var rs := RunLevel(nodes, env, LevelList(nodes, k), StateAfter(nodes, env, initial, k)).0;
            |rs| == |LevelList(nodes, k)| &&
            forall i :: 0 <= i < |rs| ==> rs[i].id == LevelList(nodes, k)[i] && IsEntry(nodes, env, initial, rs[i], k)
  {
    var level, st := LevelList(nodes, k), StateAfter(nodes, env, initial, k);
    LevelIsSink(nodes, k);
    DecisionsAreIndependent(nodes, env, level, st);
    var rs := RunLevel(nodes, env, level, st).0;
    forall i | 0 <= i < |rs|
      ensures rs[i].id == level[i] && IsEntry(nodes, env, initial, rs[i], k)
    {
      assert level[i] in level;
    }
  }

  ghost predicate EntryBelow(nodes: seq<Node>, env: Environment, initial: Context, r: Result, h: nat) {
    exists k :: 0 <= k < h && IsEntry(nodes, env, initial, r, k)
  }

  /** `rs` lists `ids` in order, each with its report, all from the first `h` levels. */
  ghost predicate Follows(nodes: seq<Node>, env: Environment, initial: Context, rs: seq<Result>, ids: seq<string>, h: nat) {
    |rs| == |ids| && forall i :: 0 <= i < |rs| ==> rs[i].id == ids[i] && EntryBelow(nodes, env, initial, rs[i], h)
  }

  lemma FollowsAppend(nodes: seq<Node>, env: Environment, initial: Context, rs: seq<Result>, ids: seq<string>, h: nat,
                      more: seq<Result>, level: seq<string>)
    requires Follows(nodes, env, initial, rs, ids, h) && |more| == |level|
    requires forall i :: 0 <= i < |more| ==> more[i].id == level[i] && IsEntry(nodes, env, initial, more[i], h)
    ensures Follows(nodes, env, initial, rs + more, ids + level, h + 1)
  {
    var all := rs + more;
    IdsAppend(rs, ids, more, level);
    forall i | 0 <= i < |all|
      ensures EntryBelow(nodes, env, initial, all[i], h + 1)
    {
      if i < |rs| {
        EntryLater(nodes, env, initial, rs[i], h);
        assert all[i] == rs[i];
      } else {
        EntryNow(nodes, env, initial, more[i - |rs|], h);
        assert all[i] == more[i - |rs|];
      }
    }
  }

  lemma IdsAppend(rs: seq<Result>, ids: seq<string>, more: seq<Result>, level: seq<string>)
    requires |rs| == |ids| && forall i :: 0 <= i < |rs| ==> rs[i].id == ids[i]
    requires |more| == |level| && forall i :: 0 <= i < |more| ==> more[i].id == level[i]
    ensures forall i :: 0 <= i < |rs + more| ==> (rs + more)[i].id == (ids + level)[i]
  {
  }

  lemma EntryNow(nodes: seq<Node>, env: Environment, initial: Context, r: Result, h: nat)
    requires IsEntry(nodes, env, initial, r, h)
    ensures EntryBelow(nodes, env, initial, r, h + 1)
  {
  }

  lemma EntryLater(nodes: seq<Node>, env: Environment, initial: Context, r: Result, h: nat)
    requires EntryBelow(nodes, env, initial, r, h)
    ensures EntryBelow(nodes, env, initial, r, h + 1)
  {
    var k :| 0 <= k < h && IsEntry(nodes, env, initial, r, k);
    assert 0 <= k < h + 1;
  }

  lemma ResultsFollowNext(nodes: seq<Node>, env: Environment, initial: Context, h: nat, more: seq<Result>)
    requires DistinctIds(nodes)
    requires more == RunLevel(nodes, env, LevelList(nodes, h), StateAfter(nodes, env, initial, h)).0
    requires Follows(nodes, env, initial, ResultsUpTo(nodes, env, initial, h), Flatten(LevelsUpTo(nodes, h)), h)
    ensures Follows(nodes, env, initial, ResultsUpTo(nodes, env, initial, h) + more,
                    Flatten(LevelsUpTo(nodes, h)) + LevelList(nodes, h), h + 1)
  {
    LevelResults(nodes, env, initial, h);
    FollowsAppend(nodes, env, initial, ResultsUpTo(nodes, env, initial, h), Flatten(LevelsUpTo(nodes, h)), h,
                  more, LevelList(nodes, h));
  }

  /** The results list the levels in order, one entry a node. */
  lemma {:induction false} ResultsFollowLevels(nodes: seq<Node>, env: Environment, initial: Context, h: nat)
    requires DistinctIds(nodes)
    ensures Follows(nodes, env, initial, ResultsUpTo(nodes, env, initial, h), Flatten(LevelsUpTo(nodes, h)), h)
    decreases h
  {
    if h > 0 {
      var k := h - 1;
      ResultsFollowLevels(nodes, env, initial, k);
      ResultsNext(nodes, env, initial, k);
      FlattenNext(nodes, k);
      ResultsFollowNext(nodes, env, initial, k,
                        RunLevel(nodes, env, LevelList(nodes, k), StateAfter(nodes, env, initial, k)).0);
    }
  }

  lemma FlattenNext(nodes: seq<Node>, h: nat)
    ensures Flatten(LevelsUpTo(nodes, h + 1)) == Flatten(LevelsUpTo(nodes, h)) + LevelList(nodes, h)
  {
    assert LevelsUpTo(nodes, h + 1)[..|LevelsUpTo(nodes, h)|] == LevelsUpTo(nodes, h);
  }

  lemma ResultsNext(nodes: seq<Node>, env: Environment, initial: Context, h: nat)
    ensures ResultsUpTo(nodes, env, initial, h + 1) == ResultsUpTo(nodes, env, initial, h) +
            RunLevel(nodes, env, LevelList(nodes, h), StateAfter(nodes, env, initial, h)).0
  {
    StateAfterNext(nodes, env, initial, h);
  }

  predicate HandlerFailed(r: Result) {
    r.report.Blocked? && r.report.cause.HandlerRaised?
  }

  predicate ConditionFailed(r: Result) {
    r.report.Skipped? && r.report.why.ConditionNotMet?
  }

  /** Among the results, one of the transitive dependencies of `x` (or `x` itself) has `mark`. */
  ghost predicate SomeBelow(nodes: seq<Node>, rs: seq<Result>, x: string, mark: Result -> bool) {
    exists j :: 0 <= j < |rs| && Reaches(Edges(nodes), x, rs[j].id) && mark(rs[j])
  }

  /** The closed form, for every distinct-id node list and every placed node. */
  lemma StatusClosedForm(nodes: seq<Node>, env: Environment, initial: Context, i: nat)
    requires DistinctIds(nodes) && i < |ResultsUpTo(nodes, env, initial, Height(nodes))|
    ensures var rs := ResultsUpTo(nodes, env, initial, Height(nodes));
            && (rs[i].report.Blocked? <==> SomeBelow(nodes, rs, rs[i].id, HandlerFailed))
            && (rs[i].report.Skipped? <==> !rs[i].report.Blocked? && SomeBelow(nodes, rs, rs[i].id, ConditionFailed))
  {
    var h := Height(nodes);
    var rs := ResultsUpTo(nodes, env, initial, h);
    ResultsFollowLevels(nodes, env, initial, h);
    assert EntryBelow(nodes, env, initial, rs[i], h);
    var k :| 0 <= k < h && IsEntry(nodes, env, initial, rs[i], k);
    var x := rs[i].id;
    if rs[i].report.Blocked? {
      var y, j := BlockedHasRaiser(nodes, env, initial, k, x);
      var m := EntryOf(nodes, env, initial, h, j, y);
      assert HandlerFailed(rs[m]);
    }
    if SomeBelow(nodes, rs, x, HandlerFailed) {
      var m :| 0 <= m < |rs| && Reaches(Edges(nodes), x, rs[m].id) && HandlerFailed(rs[m]);
      assert EntryBelow(nodes, env, initial, rs[m], h);
      var j :| 0 <= j < h && IsEntry(nodes, env, initial, rs[m], j);
      RaiserBlocks(nodes, env, initial, k, x, j, rs[m].id);
    }
    if rs[i].report.Skipped? {
      var y, j := SkippedHasCondition(nodes, env, initial, k, x);
      var m := EntryOf(nodes, env, initial, h, j, y);
      assert ConditionFailed(rs[m]);
    }
    if !rs[i].report.Blocked? && SomeBelow(nodes, rs, x, ConditionFailed) {
      var m :| 0 <= m < |rs| && Reaches(Edges(nodes), x, rs[m].id) && ConditionFailed(rs[m]);
      assert EntryBelow(nodes, env, initial, rs[m], h);
      var j :| 0 <= j < h && IsEntry(nodes, env, initial, rs[m], j);
      ConditionSkips(nodes, env, initial, k, x, j, rs[m].id);
    }
  }

  lemma EntryOf(nodes: seq<Node>, env: Environment, initial: Context, h: nat, k: nat, x: string) returns (i: nat)
    requires DistinctIds(nodes) && k < h && x in LevelSet(nodes, k)
    ensures var rs := ResultsUpTo(nodes, env, initial, h);
            i < |rs| && rs[i].id == x && rs[i].report == ReportAt(nodes, env, initial, k, x)
  {
    var rs := ResultsUpTo(nodes, env, initial, h);
    ResultsFollowLevels(nodes, env, initial, h);
    FlattenLevels(nodes, h);
    LevelInDone(nodes, k, h, x);
    var ids := Flatten(LevelsUpTo(nodes, h));
    assert x in Elements(ids);
    i :| 0 <= i < |ids| && ids[i] == x;
    assert EntryBelow(nodes, env, initial, rs[i], h);
    var j :| 0 <= j < h && IsEntry(nodes, env, initial, rs[i], j);
    LevelIsUnique(nodes, j, k, x);
  }

  /** On an acyclic graph without missing dependencies, `execute` reports every node exactly
      once, and the status of each follows from the failures and false conditions below it. */
  lemma ExecutionClosedForm(nodes: seq<Node>, env: Environment, initial: Context)
    requires DistinctIds(nodes) && Acyclic(Edges(nodes)) && Complete(nodes)
    ensures var rs := RunLevels(nodes, env, CompiledLevels(nodes), State(initial, {}, {})).0;
            && multiset(ReportedIds(rs)) == multiset(Roster(nodes))
            && forall i :: 0 <= i < |rs| ==>
                 && (rs[i].report.Blocked? <==> SomeBelow(nodes, rs, rs[i].id, HandlerFailed))
                 && (rs[i].report.Skipped? <==> !rs[i].report.Blocked? && SomeBelow(nodes, rs, rs[i].id, ConditionFailed))
  {
    CompleteGraphsSort(nodes);
    var h := Height(nodes);
    var rs := ResultsUpTo(nodes, env, initial, h);
    assert rs == RunLevels(nodes, env, CompiledLevels(nodes), State(initial, {}, {})).0;
    ResultsFollowLevels(nodes, env, initial, h);
    assert ReportedIds(rs) == Flatten(LevelsUpTo(nodes, h));
    forall i | 0 <= i < |rs|
      ensures rs[i].report.Blocked? <==> SomeBelow(nodes, rs, rs[i].id, HandlerFailed)
      ensures rs[i].report.Skipped? <==> !rs[i].report.Blocked? && SomeBelow(nodes, rs, rs[i].id, ConditionFailed)
    {
      StatusClosedForm(nodes, env, initial, i);
    }
  }

  function ReportedIds(rs: seq<Result>): seq<string> {
    seq(|rs|, i requires 0 <= i < |rs| => rs[i].id)
  }

  // ---------------------------------------------------------------- levels with dependencies inside

  /** Going back from task `i` along dependencies listed earlier and earlier in the level, one reaches a
      task with a dependency that was blocked before the level. */
  predicate BlockedBack(nodes: seq<Node>, level: seq<string>, blocked: set<string>, i: nat)
    requires i < |level|
  {
    || SomeIn(Deps(nodes, level[i]), blocked)
    || exists j: nat :: j < i && level[j] in Deps(nodes, level[i]) && BlockedBack(nodes, level, blocked, j)
  }

  /** The same for skipping, through tasks that neither are blocked nor have a false condition. A task
      that its own condition skips does not count: it tells the others only when the level is over. */
  predicate SkippedBack(nodes: seq<Node>, env: Environment, level: seq<string>, st: State, i: nat)
    requires i < |level|
  {
    && !BlockedBack(nodes, level, st.blocked, i) && !ConditionFails(env, ConditionOf(nodes, level[i]), st.ctx)
    && (|| SomeIn(Deps(nodes, level[i]), st.skipped)
        || exists j: nat :: j < i && level[j] in Deps(nodes, level[i]) && SkippedBack(nodes, env, level, st, j))
  }

  function DecisionFor(nodes: seq<Node>, env: Environment, level: seq<string>, st: State, i: nat): Decision
    requires i < |level|
  {
    if BlockedBack(nodes, level, st.blocked, i) then Settle(Blocked(DependencyBlocked))
    else if ConditionFails(env, ConditionOf(nodes, level[i]), st.ctx) then
      Settle(Skipped(ConditionNotMet(ConditionOf(nodes, level[i]).value)))
    else if SkippedBack(nodes, env, level, st, i) then Settle(Skipped(DependencySkipped))
    else Start
  }

  /** What the first `n` tasks of the level have added to the blocked and the skipped. */
  ghost predicate AddedSoFar(nodes: seq<Node>, env: Environment, level: seq<string>, st: State, n: nat, mid: State)
    requires n <= |level|
  {
    && mid.ctx == st.ctx
    && (forall y :: y in mid.blocked <==> y in st.blocked || exists j: nat :: j < n && level[j] == y && BlockedBack(nodes, level, st.blocked, j))
    && (forall y :: y in mid.skipped <==> y in st.skipped || exists j: nat :: j < n && level[j] == y && SkippedBack(nodes, env, level, st, j))
  }

  lemma SomeInNow(nodes: seq<Node>, env: Environment, level: seq<string>, st: State, n: nat, mid: State)
    requires n < |level| && AddedSoFar(nodes, env, level, st, n, mid)
    ensures SomeIn(Deps(nodes, level[n]), mid.blocked) <==> BlockedBack(nodes, level, st.blocked, n)
    ensures SomeIn(Deps(nodes, level[n]), mid.skipped) <==>
            SomeIn(Deps(nodes, level[n]), st.skipped) ||
            exists j: nat :: j < n && level[j] in Deps(nodes, level[n]) && SkippedBack(nodes, env, level, st, j)
  {
    var deps := Deps(nodes, level[n]);
    assert forall d :: d in deps <==> exists i :: 0 <= i < |deps| && deps[i] == d;
  }

  lemma DecidedNow(nodes: seq<Node>, env: Environment, level: seq<string>, st: State, n: nat, mid: State)
    requires n < |level| && AddedSoFar(nodes, env, level, st, n, mid)
    ensures Decide(nodes, env, mid, level[n]) == DecisionFor(nodes, env, level, st, n)
  {
    SomeInNow(nodes, env, level, st, n, mid);
  }

  lemma AddedNow(nodes: seq<Node>, env: Environment, level: seq<string>, st: State, n: nat, mid: State)
    requires n < |level| && AddedSoFar(nodes, env, level, st, n, mid)
    ensures AddedSoFar(nodes, env, level, st, n + 1, AfterDecision(mid, level[n], DecisionFor(nodes, env, level, st, n)))
  {
    var after := AfterDecision(mid, level[n], DecisionFor(nodes, env, level, st, n));
    assert DecisionFor(nodes, env, level, st, n) == Settle(Blocked(DependencyBlocked)) <==> BlockedBack(nodes, level, st.blocked, n);
    assert DecisionFor(nodes, env, level, st, n) == Settle(Skipped(DependencySkipped)) <==> SkippedBack(nodes, env, level, st, n);
  }

  /** In every level, also one that holds dependencies of its own tasks, a task is blocked at once exactly
      when going back through earlier listed dependencies leads to one blocked before the level, and
      likewise for skipping; all others start, beside their own dependencies if need be. */
  lemma {:induction false} DecisionsGoBack(nodes: seq<Node>, env: Environment, level: seq<string>, st: State, n: nat)
    requires n <= |level|
    ensures var (ds, mid) := StartAll(nodes, env, level[..n], st);
            && AddedSoFar(nodes, env, level, st, n, mid)
            && forall i :: 0 <= i < n ==> ds[i] == DecisionFor(nodes, env, level, st, i)
  {
    if n > 0 {
      var (ds, mid) := StartAll(nodes, env, level[..n - 1], st);
      assert level[..n][..n - 1] == level[..n - 1];
      DecisionsGoBack(nodes, env, level, st, n - 1);
      DecidedNow(nodes, env, level, st, n - 1, mid);
      AddedNow(nodes, env, level, st, n - 1, mid);
    }
  }

  /** What `execute` reports of the stranded level, which follows Kahn's: each task as going back decides,
      with its handler's outcome when it starts. */
  lemma StrandedClosedForm(nodes: seq<Node>, env: Environment, initial: Context)
    requires DistinctIds(nodes) && Acyclic(Edges(nodes)) && Stuck(nodes) != {}
    ensures var level, st := InRosterOrder(nodes, Stuck(nodes)), StateAfter(nodes, env, initial, Height(nodes));
            RunLevels(nodes, env, CompiledLevels(nodes), State(initial, {}, {})).0 ==
            ResultsUpTo(nodes, env, initial, Height(nodes)) +
            seq(|level|, i requires 0 <= i < |level| =>
              Result(level[i], FinalReport(env, st.ctx, level[i], DecisionFor(nodes, env, level, st, i))))
  {
    var kahn, level := KahnLevels(nodes), InRosterOrder(nodes, Stuck(nodes));
    var st := StateAfter(nodes, env, initial, Height(nodes));
    assert (kahn + [level])[..|kahn|] == kahn;
    assert level[..|level|] == level;
    DecisionsGoBack(nodes, env, level, st, |level|);
    var ds := StartAll(nodes, env, level, st).0;
    assert Reports(env, st.ctx, level, ds) == seq(|level|, i requires 0 <= i < |level| =>
      Result(level[i], FinalReport(env, st.ctx, level[i], DecisionFor(nodes, env, level, st, i))));
  }

  /** On the stranded level a node completes although the handler of its own dependency raised. */
  lemma StrandedRunsBeside()
    ensures var nodes := [Node("a", ["ghost"], None), Node("b", ["a"], None)];
            var env := Environment((id, _) => if id == "a" then Raised("failed") else Returned("done"), map[]);
            RunLevels(nodes, env, CompiledLevels(nodes), State(map[], {}, {})).0 ==
            [Result("a", Blocked(HandlerRaised("failed"))), Result("b", Completed("done"))]
  {
    var nodes := [Node("a", ["ghost"], None), Node("b", ["a"], None)];
    var env := Environment((id, _) => if id == "a" then Raised("failed") else Returned("done"), map[]);
    var level, st := ["a", "b"], State(map[], {}, {});
    StrandedExample();
    BothStart(nodes, env, level, st);
    OneLevel(nodes, env, level, st);
    BothReport(env, st.ctx);
  }

  lemma OneLevel(nodes: seq<Node>, env: Environment, level: seq<string>, st: State)
    ensures RunLevels(nodes, env, [level], st).0 == Reports(env, st.ctx, level, StartAll(nodes, env, level, st).0)
  {
    var none: seq<seq<string>> := [];
    assert [level][..0] == none;
    assert RunLevels(nodes, env, [level], st).0 == [] + Reports(env, st.ctx, level, StartAll(nodes, env, level, st).0);
  }

  lemma BothReport(env: Environment, ctx: Context)
    requires env.run("a", ctx) == Raised("failed") && env.run("b", ctx) == Returned("done")
    ensures Reports(env, ctx, ["a", "b"], [Start, Start]) ==
            [Result("a", Blocked(HandlerRaised("failed"))), Result("b", Completed("done"))]
  {
  }

  lemma BothStart(nodes: seq<Node>, env: Environment, level: seq<string>, st: State)
    requires |level| == 2 && st.blocked == {} && st.skipped == {} && env.conditions == map[]
    ensures StartAll(nodes, env, level, st).0 == [Start, Start]
  {
    NothingBlocked(nodes, env, level, st, 0);
    NothingBlocked(nodes, env, level, st, 1);
    DecisionsGoBack(nodes, env, level, st, 2);
    assert level[..2] == level;
  }

  /** With nothing blocked, skipped or conditional, every task starts. */
  lemma {:induction false} NothingBlocked(nodes: seq<Node>, env: Environment, level: seq<string>, st: State, i: nat)
    requires i < |level| && st.blocked == {} && st.skipped == {} && env.conditions == map[]
    ensures !BlockedBack(nodes, level, {}, i) && !SkippedBack(nodes, env, level, st, i) && DecisionFor(nodes, env, level, st, i) == Start
  {
    forall j: nat | j < i
      ensures !BlockedBack(nodes, level, {}, j) && !SkippedBack(nodes, env, level, st, j)
    {
      NothingBlocked(nodes, env, level, st, j);
    }
  }
}
