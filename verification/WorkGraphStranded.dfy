/** For which node lists the statuses of an execution follow from the failures and false conditions
    below each node: the condition looks at the dependencies alone, not at handlers or conditions. */
module WorkGraphStranded {
  import opened Graphs
  import opened WorkGraphLevels
  import opened WorkGraphCompile
  import opened WorkGraphExecute
  import opened WorkGraphOutcomes

  /** What `execute` reports. */
  ghost function Executed(nodes: seq<Node>, env: Environment, initial: Context): seq<Result> {
    RunLevels(nodes, env, CompiledLevels(nodes), State(initial, {}, {})).0
  }

  /** Result `i` is blocked exactly if a handler raised at or below its node, and otherwise skipped
      exactly if a condition was false there. */
  ghost predicate FollowsBelow(nodes: seq<Node>, rs: seq<Result>, i: nat)
    requires i < |rs|
  {
    && (rs[i].report.Blocked? <==> SomeBelow(nodes, rs, rs[i].id, HandlerFailed))
    && (rs[i].report.Skipped? <==> !rs[i].report.Blocked? && SomeBelow(nodes, rs, rs[i].id, ConditionFailed))
  }

  ghost predicate StatusesFollow(nodes: seq<Node>, env: Environment, initial: Context) {
    forall i: nat :: i < |Executed(nodes, env, initial)| ==> FollowsBelow(nodes, Executed(nodes, env, initial), i)
  }

  /** A node that cannot be placed depends on another such node. */
  ghost predicate StuckOnStuck(nodes: seq<Node>) {
    exists x, d :: x in Stuck(nodes) && d in Stuck(nodes) && d in Deps(nodes, x)
  }

  // ---------------------------------------------------------------- what a node can reach

  lemma ReachedIsPlaced(nodes: seq<Node>, k: nat, d: string, y: string) returns (j: nat)
    requires DistinctIds(nodes) && d in LevelSet(nodes, k) && Reaches(Edges(nodes), d, y)
    ensures j <= k && y in LevelSet(nodes, j)
  {
    var p :| Connects(Edges(nodes), p, d, y);
    j := WalkDescends(nodes, k, p);
  }

  lemma PlacedReachesPlaced(nodes: seq<Node>, d: string, y: string)
    requires DistinctIds(nodes) && d in Layered(nodes) && Reaches(Edges(nodes), d, y)
    ensures y in Layered(nodes)
  {
    var h := Height(nodes);
    var k := LevelOf(nodes, h, d);
    var j := ReachedIsPlaced(nodes, k, d, y);
    LevelInDone(nodes, j, h, y);
  }

  /** A stuck node that waits for no stuck node reaches other nodes through placed dependencies only. */
  lemma FirstStepDown(nodes: seq<Node>, x: string, y: string) returns (d: string)
    requires DistinctIds(nodes) && !StuckOnStuck(nodes) && x in Stuck(nodes)
    requires y in IdSet(nodes) && y != x && Reaches(Edges(nodes), x, y)
    ensures d in Deps(nodes, x) && d in Layered(nodes) && Reaches(Edges(nodes), d, y)
  {
    d := ReachesUnfold(Edges(nodes), x, y);
    EdgeIffDep(nodes, x, d);
    if d !in IdSet(nodes) {
      var e := ReachesUnfold(Edges(nodes), d, y);
      EdgeIffDep(nodes, d, e);
      DepsOfUnknown(nodes, d);
      assert false;
    }
    assert d in Stuck(nodes) ==> StuckOnStuck(nodes);
  }

  // ---------------------------------------------------------------- the results, when no stuck node waits for another

  /** `all` is what Kahn's levels report, followed by one report for each stuck node. */
  ghost predicate Extends(nodes: seq<Node>, env: Environment, initial: Context, all: seq<Result>) {
    var rs := ResultsUpTo(nodes, env, initial, Height(nodes));
    && |rs| <= |all| && all[..|rs|] == rs
    && forall m :: |rs| <= m < |all| ==> all[m].id in Stuck(nodes) && all[m].report == ReportAt(nodes, env, initial, Height(nodes), all[m].id)
  }

  /** What the stranded level reports. */
  ghost function StrandedReports(nodes: seq<Node>, env: Environment, initial: Context): (rs: seq<Result>)
    ensures |rs| == |InRosterOrder(nodes, Stuck(nodes))|
  {
    var level, st := InRosterOrder(nodes, Stuck(nodes)), StateAfter(nodes, env, initial, Height(nodes));
    seq(|level|, i requires 0 <= i < |level| => Result(level[i], FinalReport(env, st.ctx, level[i], DecisionFor(nodes, env, level, st, i))))
  }

  lemma ExecutedSplits(nodes: seq<Node>, env: Environment, initial: Context)
    requires DistinctIds(nodes) && Acyclic(Edges(nodes)) && Stuck(nodes) != {}
    ensures Executed(nodes, env, initial) == ResultsUpTo(nodes, env, initial, Height(nodes)) + StrandedReports(nodes, env, initial)
  {
    StrandedClosedForm(nodes, env, initial);
  }

  lemma SecondPart(rs: seq<Result>, more: seq<Result>, i: nat)
    requires i < |more|
    ensures (rs + more)[|rs| + i] == more[i]
  {
  }

  lemma ExecutedExtends(nodes: seq<Node>, env: Environment, initial: Context)
    requires DistinctIds(nodes) && !StuckOnStuck(nodes)
    ensures Extends(nodes, env, initial, Executed(nodes, env, initial))
  {
    if Acyclic(Edges(nodes)) && Stuck(nodes) != {} {
      ExecutedSplits(nodes, env, initial);
      StrandedAreIndependent(nodes, env, initial);
    } else {
      assert CompiledLevels(nodes) == KahnLevels(nodes);
    }
  }

  lemma StrandedAreIndependent(nodes: seq<Node>, env: Environment, initial: Context)
    requires DistinctIds(nodes) && !StuckOnStuck(nodes)
    ensures forall r :: r in StrandedReports(nodes, env, initial) ==>
              r.id in Stuck(nodes) && r.report == ReportAt(nodes, env, initial, Height(nodes), r.id)
  {
    var level, st := InRosterOrder(nodes, Stuck(nodes)), StateAfter(nodes, env, initial, Height(nodes));
    InRosterOrderMembers(nodes, Stuck(nodes));
    assert IsSink(nodes, level);
    forall i | 0 <= i < |level|
      ensures level[i] in Stuck(nodes) && DecisionFor(nodes, env, level, st, i) == Decide(nodes, env, st, level[i])
    {
      assert level[i] in level;
      SinkDecides(nodes, env, level, st, i);
    }
  }

  lemma SinkDecides(nodes: seq<Node>, env: Environment, level: seq<string>, st: State, i: nat)
    requires IsSink(nodes, level) && i < |level|
    ensures DecisionFor(nodes, env, level, st, i) == Decide(nodes, env, st, level[i])
  {
    assert level[..|level|] == level;
    DecisionsAreIndependent(nodes, env, level, st);
    DecisionsGoBack(nodes, env, level, st, |level|);
  }

  lemma PlacedResult(nodes: seq<Node>, env: Environment, initial: Context, m: nat) returns (k: nat)
    requires DistinctIds(nodes) && m < |ResultsUpTo(nodes, env, initial, Height(nodes))|
    ensures var r := ResultsUpTo(nodes, env, initial, Height(nodes))[m];
            k < Height(nodes) && IsEntry(nodes, env, initial, r, k) && r.id in Layered(nodes)
  {
    var h := Height(nodes);
    var rs := ResultsUpTo(nodes, env, initial, h);
    ResultsFollowLevels(nodes, env, initial, h);
    assert EntryBelow(nodes, env, initial, rs[m], h);
    k :| 0 <= k < h && IsEntry(nodes, env, initial, rs[m], k);
    LevelInDone(nodes, k, h, rs[m].id);
  }

  /** Below a placed node the stranded level adds nothing. */
  lemma SameBelowPlaced(nodes: seq<Node>, env: Environment, initial: Context, all: seq<Result>, d: string, mark: Result -> bool)
    requires DistinctIds(nodes) && Extends(nodes, env, initial, all) && d in Layered(nodes)
    ensures SomeBelow(nodes, all, d, mark) <==> SomeBelow(nodes, ResultsUpTo(nodes, env, initial, Height(nodes)), d, mark)
  {
    var rs := ResultsUpTo(nodes, env, initial, Height(nodes));
    if SomeBelow(nodes, all, d, mark) {
      var m :| 0 <= m < |all| && Reaches(Edges(nodes), d, all[m].id) && mark(all[m]);
      PlacedReachesPlaced(nodes, d, all[m].id);
      assert all[m] == rs[m];
    }
    if SomeBelow(nodes, rs, d, mark) {
      var m :| 0 <= m < |rs| && Reaches(Edges(nodes), d, rs[m].id) && mark(rs[m]);
      assert all[m] == rs[m];
    }
  }

  /** `mark` is found below one of the placed dependencies of `x`. */
  ghost predicate SomeDepAbove(nodes: seq<Node>, rs: seq<Result>, x: string, mark: Result -> bool) {
    exists d :: d in Deps(nodes, x) && d in Layered(nodes) && SomeBelow(nodes, rs, d, mark)
  }

  lemma BelowStuckSplits(nodes: seq<Node>, env: Environment, initial: Context, all: seq<Result>, i: nat, mark: Result -> bool)
    requires DistinctIds(nodes) && !StuckOnStuck(nodes) && Extends(nodes, env, initial, all)
    requires i < |all| && all[i].id in Stuck(nodes) && SomeBelow(nodes, all, all[i].id, mark)
    ensures mark(all[i]) || SomeDepAbove(nodes, ResultsUpTo(nodes, env, initial, Height(nodes)), all[i].id, mark)
  {
    var rs, x := ResultsUpTo(nodes, env, initial, Height(nodes)), all[i].id;
    var m: nat :| m < |all| && Reaches(Edges(nodes), x, all[m].id) && mark(all[m]);
    DoneWithinIds(nodes, Height(nodes));
    KindOfResult(nodes, env, initial, all, i);
    KindOfResult(nodes, env, initial, all, m);
    if all[m].id != x {
      var d := FirstStepDown(nodes, x, all[m].id);
      assert SomeBelow(nodes, all, d, mark);
      SameBelowPlaced(nodes, env, initial, all, d, mark);
    }
  }

  /** Every result is placed or stuck; results of one stuck node are equal. */
  lemma KindOfResult(nodes: seq<Node>, env: Environment, initial: Context, all: seq<Result>, m: nat)
    requires DistinctIds(nodes) && Extends(nodes, env, initial, all) && m < |all|
    ensures all[m].id in Layered(nodes) || all[m].id in Stuck(nodes)
    ensures all[m].id in Stuck(nodes) ==> all[m] == Result(all[m].id, ReportAt(nodes, env, initial, Height(nodes), all[m].id))
  {
    var rs := ResultsUpTo(nodes, env, initial, Height(nodes));
    if m < |rs| {
      assert all[m] == rs[m];
      var _ := PlacedResult(nodes, env, initial, m);
    }
  }

  lemma BelowStuckJoins(nodes: seq<Node>, env: Environment, initial: Context, all: seq<Result>, i: nat, mark: Result -> bool)
    requires DistinctIds(nodes) && Extends(nodes, env, initial, all) && i < |all|
    requires mark(all[i]) || SomeDepAbove(nodes, ResultsUpTo(nodes, env, initial, Height(nodes)), all[i].id, mark)
    ensures SomeBelow(nodes, all, all[i].id, mark)
  {
    var rs, x := ResultsUpTo(nodes, env, initial, Height(nodes)), all[i].id;
    if mark(all[i]) {
      ReachesSelf(Edges(nodes), x);
    } else {
      var d :| d in Deps(nodes, x) && d in Layered(nodes) && SomeBelow(nodes, rs, d, mark);
      var m :| 0 <= m < |rs| && Reaches(Edges(nodes), d, rs[m].id) && mark(rs[m]);
      EdgeIffDep(nodes, x, d);
      ReachesStep(Edges(nodes), x, d, rs[m].id);
      assert all[m] == rs[m];
    }
  }

  /** After Kahn's levels a placed node is recorded as blocked or skipped as the closed form says. */
  lemma RecordedClosedForm(nodes: seq<Node>, env: Environment, initial: Context, d: string)
    requires DistinctIds(nodes) && d in Layered(nodes)
    ensures var rs, st := ResultsUpTo(nodes, env, initial, Height(nodes)), StateAfter(nodes, env, initial, Height(nodes));
            && (d in st.blocked <==> SomeBelow(nodes, rs, d, HandlerFailed))
            && (d in st.skipped <==> d !in st.blocked && SomeBelow(nodes, rs, d, ConditionFailed))
  {
    var h := Height(nodes);
    var j := LevelOf(nodes, h, d);
    var m := EntryOf(nodes, env, initial, h, j, d);
    StatusClosedForm(nodes, env, initial, m);
    ReportsAreRecorded(nodes, env, initial, h, j, d);
  }

  lemma SomeBlocked(nodes: seq<Node>, env: Environment, initial: Context, x: string)
    requires DistinctIds(nodes)
    ensures var rs, st := ResultsUpTo(nodes, env, initial, Height(nodes)), StateAfter(nodes, env, initial, Height(nodes));
            SomeIn(Deps(nodes, x), st.blocked) <==> SomeDepAbove(nodes, rs, x, HandlerFailed)
  {
    var rs, st := ResultsUpTo(nodes, env, initial, Height(nodes)), StateAfter(nodes, env, initial, Height(nodes));
    var deps := Deps(nodes, x);
    if SomeIn(deps, st.blocked) {
      var i :| 0 <= i < |deps| && deps[i] in st.blocked;
      if deps[i] !in Layered(nodes) {
        OnlyPlacedRecorded(nodes, env, initial, Height(nodes), deps[i]);
        assert false;
      }
      RecordedClosedForm(nodes, env, initial, deps[i]);
    }
    if SomeDepAbove(nodes, rs, x, HandlerFailed) {
      var d :| d in deps && d in Layered(nodes) && SomeBelow(nodes, rs, d, HandlerFailed);
      RecordedClosedForm(nodes, env, initial, d);
    }
  }

  lemma SomeSkipped(nodes: seq<Node>, env: Environment, initial: Context, x: string)
    requires DistinctIds(nodes) && !SomeIn(Deps(nodes, x), StateAfter(nodes, env, initial, Height(nodes)).blocked)
    ensures var rs, st := ResultsUpTo(nodes, env, initial, Height(nodes)), StateAfter(nodes, env, initial, Height(nodes));
            SomeIn(Deps(nodes, x), st.skipped) <==> SomeDepAbove(nodes, rs, x, ConditionFailed)
  {
    var rs, st := ResultsUpTo(nodes, env, initial, Height(nodes)), StateAfter(nodes, env, initial, Height(nodes));
    var deps := Deps(nodes, x);
    if SomeIn(deps, st.skipped) {
      var i :| 0 <= i < |deps| && deps[i] in st.skipped;
      if deps[i] !in Layered(nodes) {
        OnlyPlacedRecorded(nodes, env, initial, Height(nodes), deps[i]);
        assert false;
      }
      RecordedClosedForm(nodes, env, initial, deps[i]);
    }
    if SomeDepAbove(nodes, rs, x, ConditionFailed) {
      var d :| d in deps && d in Layered(nodes) && SomeBelow(nodes, rs, d, ConditionFailed);
      RecordedClosedForm(nodes, env, initial, d);
      var i :| 0 <= i < |deps| && deps[i] == d;
    }
  }

  lemma StuckFollows(nodes: seq<Node>, env: Environment, initial: Context, all: seq<Result>, i: nat)
    requires DistinctIds(nodes) && !StuckOnStuck(nodes) && Extends(nodes, env, initial, all)
    requires i < |all| && all[i].id in Stuck(nodes)
    ensures FollowsBelow(nodes, all, i)
  {
    var rs, st, x := ResultsUpTo(nodes, env, initial, Height(nodes)), StateAfter(nodes, env, initial, Height(nodes)), all[i].id;
    KindOfResult(nodes, env, initial, all, i);
    BelowStuck(nodes, env, initial, all, i, HandlerFailed);
    BelowStuck(nodes, env, initial, all, i, ConditionFailed);
    SomeBlocked(nodes, env, initial, x);
    if !SomeIn(Deps(nodes, x), st.blocked) {
      SomeSkipped(nodes, env, initial, x);
    }
  }

  lemma BelowStuck(nodes: seq<Node>, env: Environment, initial: Context, all: seq<Result>, i: nat, mark: Result -> bool)
    requires DistinctIds(nodes) && !StuckOnStuck(nodes) && Extends(nodes, env, initial, all)
    requires i < |all| && all[i].id in Stuck(nodes)
    ensures SomeBelow(nodes, all, all[i].id, mark) <==>
            mark(all[i]) || SomeDepAbove(nodes, ResultsUpTo(nodes, env, initial, Height(nodes)), all[i].id, mark)
  {
    if SomeBelow(nodes, all, all[i].id, mark) {
      BelowStuckSplits(nodes, env, initial, all, i, mark);
    } else if mark(all[i]) || SomeDepAbove(nodes, ResultsUpTo(nodes, env, initial, Height(nodes)), all[i].id, mark) {
      BelowStuckJoins(nodes, env, initial, all, i, mark);
    }
  }

  lemma PlacedFollows(nodes: seq<Node>, env: Environment, initial: Context, all: seq<Result>, i: nat)
    requires DistinctIds(nodes) && Extends(nodes, env, initial, all)
    requires i < |ResultsUpTo(nodes, env, initial, Height(nodes))|
    ensures FollowsBelow(nodes, all, i)
  {
    var rs := ResultsUpTo(nodes, env, initial, Height(nodes));
    var _ := PlacedResult(nodes, env, initial, i);
    StatusClosedForm(nodes, env, initial, i);
    assert all[i] == rs[i];
    SameBelowPlaced(nodes, env, initial, all, rs[i].id, HandlerFailed);
    SameBelowPlaced(nodes, env, initial, all, rs[i].id, ConditionFailed);
  }

  /** The closed form holds if no stuck node waits for another, whatever handlers and conditions do. */
  lemma FollowsUnlessStuckOnStuck(nodes: seq<Node>, env: Environment, initial: Context)
    requires DistinctIds(nodes) && !StuckOnStuck(nodes)
    ensures StatusesFollow(nodes, env, initial)
  {
    var rs, all := ResultsUpTo(nodes, env, initial, Height(nodes)), Executed(nodes, env, initial);
    ExecutedExtends(nodes, env, initial);
    forall i: nat | i < |all|
      ensures FollowsBelow(nodes, all, i)
    {
      if i < |rs| {
        PlacedFollows(nodes, env, initial, all, i);
      } else {
        StuckFollows(nodes, env, initial, all, i);
      }
    }
  }

  lemma FollowsIfCyclic(nodes: seq<Node>, env: Environment, initial: Context)
    requires DistinctIds(nodes) && !Acyclic(Edges(nodes))
    ensures StatusesFollow(nodes, env, initial)
  {
    var all := Executed(nodes, env, initial);
    assert CompiledLevels(nodes) == KahnLevels(nodes);
    forall i: nat | i < |all|
      ensures FollowsBelow(nodes, all, i)
    {
      StatusClosedForm(nodes, env, initial, i);
    }
  }

  // ---------------------------------------------------------------- the results, when one stuck node waits for another

  /** Handlers of which only that of `d` raises, and no conditions. */
  function OnlyRaiser(d: string): Environment {
    Environment((id, _) => if id == d then Raised("failed") else Returned("done"), map[])
  }

  /** While only the handler of a stuck node raises, Kahn's levels block and skip nothing. */
  lemma NothingRecorded(nodes: seq<Node>, d: string, initial: Context)
    requires DistinctIds(nodes) && d in Stuck(nodes)
    ensures var st := StateAfter(nodes, OnlyRaiser(d), initial, Height(nodes)); st.blocked == {} && st.skipped == {}
  {
    var h, env := Height(nodes), OnlyRaiser(d);
    var st := StateAfter(nodes, env, initial, h);
    forall x
      ensures x !in st.blocked && x !in st.skipped
    {
      if x !in Layered(nodes) {
        OnlyPlacedRecorded(nodes, env, initial, h, x);
      } else {
        var k := LevelOf(nodes, h, x);
        NotReported(nodes, d, initial, k, x);
        ReportsAreRecorded(nodes, env, initial, h, k, x);
      }
    }
  }

  lemma NotReported(nodes: seq<Node>, d: string, initial: Context, k: nat, x: string)
    requires DistinctIds(nodes) && d in Stuck(nodes) && k < Height(nodes) && x in LevelSet(nodes, k)
    ensures var r := ReportAt(nodes, OnlyRaiser(d), initial, k, x); !r.Blocked? && !r.Skipped?
  {
    var env := OnlyRaiser(d);
    if ReportAt(nodes, env, initial, k, x).Blocked? {
      var y, j := BlockedHasRaiser(nodes, env, initial, k, x);
      LevelInDone(nodes, j, Height(nodes), y);
      OnlyRaises(nodes, d, initial, j, y);
      assert false;
    }
    if ReportAt(nodes, env, initial, k, x).Skipped? {
      var y, j := SkippedHasCondition(nodes, env, initial, k, x);
      OnlyRaises(nodes, d, initial, j, y);
      assert false;
    }
  }

  lemma OnlyRaises(nodes: seq<Node>, d: string, initial: Context, j: nat, y: string)
    ensures RaisedAt(nodes, OnlyRaiser(d), initial, j, y) ==> y == d
    ensures !ConditionFailedAt(nodes, OnlyRaiser(d), initial, j, y)
  {
    var st := StateAfter(nodes, OnlyRaiser(d), initial, j);
    RaiserIsOnly(nodes, d, st, y);
  }

  lemma RaiserIsOnly(nodes: seq<Node>, d: string, st: State, y: string)
    ensures var r := FinalReport(OnlyRaiser(d), st.ctx, y, Decide(nodes, OnlyRaiser(d), st, y));
            && (r.Blocked? && r.cause.HandlerRaised? ==> y == d)
            && !(r.Skipped? && r.why.ConditionNotMet?)
  {
  }

  lemma StrandedResult(nodes: seq<Node>, d: string, initial: Context, x: string) returns (m: nat)
    requires DistinctIds(nodes) && Acyclic(Edges(nodes)) && d in Stuck(nodes) && x in Stuck(nodes)
    ensures var all := Executed(nodes, OnlyRaiser(d), initial);
            m < |all| && all[m] == Result(x, if x == d then Blocked(HandlerRaised("failed")) else Completed("done"))
  {
    var level := InRosterOrder(nodes, Stuck(nodes));
    InRosterOrderMembers(nodes, Stuck(nodes));
    var i: nat :| i < |level| && level[i] == x;
    StrandedStarts(nodes, d, initial, i);
    m := StrandedAt(nodes, OnlyRaiser(d), initial, i);
  }

  lemma StrandedAt(nodes: seq<Node>, env: Environment, initial: Context, i: nat) returns (m: nat)
    requires DistinctIds(nodes) && Acyclic(Edges(nodes)) && Stuck(nodes) != {} && i < |InRosterOrder(nodes, Stuck(nodes))|
    ensures var level, st := InRosterOrder(nodes, Stuck(nodes)), StateAfter(nodes, env, initial, Height(nodes));
            m < |Executed(nodes, env, initial)| &&
            Executed(nodes, env, initial)[m] == Result(level[i], FinalReport(env, st.ctx, level[i], DecisionFor(nodes, env, level, st, i)))
  {
    ExecutedSplits(nodes, env, initial);
    m := |ResultsUpTo(nodes, env, initial, Height(nodes))| + i;
    SecondPart(ResultsUpTo(nodes, env, initial, Height(nodes)), StrandedReports(nodes, env, initial), i);
  }

  lemma StrandedStarts(nodes: seq<Node>, d: string, initial: Context, i: nat)
    requires DistinctIds(nodes) && d in Stuck(nodes) && i < |InRosterOrder(nodes, Stuck(nodes))|
    ensures var level, st := InRosterOrder(nodes, Stuck(nodes)), StateAfter(nodes, OnlyRaiser(d), initial, Height(nodes));
            FinalReport(OnlyRaiser(d), st.ctx, level[i], DecisionFor(nodes, OnlyRaiser(d), level, st, i)) ==
            if level[i] == d then Blocked(HandlerRaised("failed")) else Completed("done")
  {
    var level, st := InRosterOrder(nodes, Stuck(nodes)), StateAfter(nodes, OnlyRaiser(d), initial, Height(nodes));
    NothingRecorded(nodes, d, initial);
    NothingBlocked(nodes, OnlyRaiser(d), level, st, i);
  }

  /** If one stuck node waits for another, there are handlers for which the closed form fails. */
  lemma FailsIfStuckOnStuck(nodes: seq<Node>, x: string, d: string, initial: Context)
    requires DistinctIds(nodes) && Acyclic(Edges(nodes))
    requires x in Stuck(nodes) && d in Stuck(nodes) && d in Deps(nodes, x)
    ensures !StatusesFollow(nodes, OnlyRaiser(d), initial)
  {
    EdgeIffDep(nodes, x, d);
    assert !IsClosedWalk(Edges(nodes), [x, d]);
    assert x != d;
    var i := StrandedResult(nodes, d, initial, x);
    var m := StrandedResult(nodes, d, initial, d);
    CompletedAboveRaiser(nodes, Executed(nodes, OnlyRaiser(d), initial), i, m);
  }

  lemma CompletedAboveRaiser(nodes: seq<Node>, all: seq<Result>, i: nat, m: nat)
    requires i < |all| && m < |all| && all[i].report.Completed? && HandlerFailed(all[m])
    requires (all[i].id, all[m].id) in Edges(nodes)
    ensures !FollowsBelow(nodes, all, i)
  {
    ReachesSelf(Edges(nodes), all[m].id);
    ReachesStep(Edges(nodes), all[i].id, all[m].id, all[m].id);
  }

  /** For which node lists every execution follows the closed form: exactly those with a cycle to report or
      without a stuck node that depends on a stuck node. */
  lemma ClosedFormIff(nodes: seq<Node>)
    requires DistinctIds(nodes)
    ensures (forall env, initial :: StatusesFollow(nodes, env, initial)) <==> !Acyclic(Edges(nodes)) || !StuckOnStuck(nodes)
  {
    if Acyclic(Edges(nodes)) && StuckOnStuck(nodes) {
      var x, d :| x in Stuck(nodes) && d in Stuck(nodes) && d in Deps(nodes, x);
      FailsIfStuckOnStuck(nodes, x, d, map[]);
    } else {
      forall env, initial
        ensures StatusesFollow(nodes, env, initial)
      {
        if Acyclic(Edges(nodes)) {
          FollowsUnlessStuckOnStuck(nodes, env, initial);
        } else {
          FollowsIfCyclic(nodes, env, initial);
        }
      }
    }
  }
}
