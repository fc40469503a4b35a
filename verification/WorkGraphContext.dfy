/** What handlers find in the shared context: a handler runs only once the dependencies of its node that could
    be placed have completed, and it reads all of their outputs. */
module WorkGraphContext {
  import opened Graphs
  import opened WorkGraphLevels
  import opened WorkGraphCompile
  import opened WorkGraphTheorems
  import opened WorkGraphExecute
  import opened WorkGraphOutcomes
  import opened WorkGraphStranded

  predicate HandlerRan(report: Report) {
    report.Completed? || (report.Blocked? && report.cause.HandlerRaised?)
  }

  // ---------------------------------------------------------------- dependencies complete first

  /** A placed node that is neither recorded as blocked nor as skipped has completed. */
  lemma UnrecordedCompleted(nodes: seq<Node>, env: Environment, initial: Context, k: nat, d: string) returns (m: nat)
    requires DistinctIds(nodes) && k <= Height(nodes) && d in Done(nodes, k)
    requires d !in StateAfter(nodes, env, initial, k).blocked && d !in StateAfter(nodes, env, initial, k).skipped
    ensures var rs := ResultsUpTo(nodes, env, initial, Height(nodes)); m < |rs| && rs[m].id == d && rs[m].report.Completed?
  {
    var j := LevelOf(nodes, k, d);
    ReportsAreRecorded(nodes, env, initial, k, j, d);
    m := EntryOf(nodes, env, initial, Height(nodes), j, d);
  }

  lemma StartedUnhindered(nodes: seq<Node>, env: Environment, st: State, x: string, d: string)
    requires HandlerRan(FinalReport(env, st.ctx, x, Decide(nodes, env, st, x))) && d in Deps(nodes, x)
    ensures d !in st.blocked && d !in st.skipped
  {
    var i :| 0 <= i < |Deps(nodes, x)| && Deps(nodes, x)[i] == d;
  }

  lemma StartedBackUnhindered(nodes: seq<Node>, env: Environment, level: seq<string>, st: State, i: nat, d: string)
    requires i < |level| && HandlerRan(FinalReport(env, st.ctx, level[i], DecisionFor(nodes, env, level, st, i)))
    requires d in Deps(nodes, level[i])
    ensures d !in st.blocked && d !in st.skipped
  {
    var j :| 0 <= j < |Deps(nodes, level[i])| && Deps(nodes, level[i])[j] == d;
  }

  /** Nobody's handler runs before a placed dependency has completed. */
  lemma DependencyCompleted(nodes: seq<Node>, env: Environment, initial: Context, i: nat, d: string) returns (m: nat)
    requires DistinctIds(nodes) && i < |Executed(nodes, env, initial)| && HandlerRan(Executed(nodes, env, initial)[i].report)
    requires d in Deps(nodes, Executed(nodes, env, initial)[i].id) && d in Layered(nodes)
    ensures var all := Executed(nodes, env, initial); m < |all| && all[m].id == d && all[m].report.Completed?
  {
    ExecutedStarts(nodes, env, initial);
    if i < |ResultsUpTo(nodes, env, initial, Height(nodes))| {
      m := PlacedDependencyCompleted(nodes, env, initial, i, d);
    } else {
      var j := i - |ResultsUpTo(nodes, env, initial, Height(nodes))|;
      ExecutedSplits(nodes, env, initial);
      SecondPart(ResultsUpTo(nodes, env, initial, Height(nodes)), StrandedReports(nodes, env, initial), j);
      m := StrandedDependencyCompleted(nodes, env, initial, j, d);
    }
  }

  lemma StrandedDependencyCompleted(nodes: seq<Node>, env: Environment, initial: Context, j: nat, d: string) returns (m: nat)
    requires DistinctIds(nodes) && d in Layered(nodes)
    requires j < |StrandedReports(nodes, env, initial)| && HandlerRan(StrandedReports(nodes, env, initial)[j].report)
    requires d in Deps(nodes, StrandedReports(nodes, env, initial)[j].id)
    ensures var rs := ResultsUpTo(nodes, env, initial, Height(nodes)); m < |rs| && rs[m].id == d && rs[m].report.Completed?
  {
    StrandedDependencyFree(nodes, env, initial, j, d);
    m := UnrecordedCompleted(nodes, env, initial, Height(nodes), d);
  }

  lemma PlacedDependencyCompleted(nodes: seq<Node>, env: Environment, initial: Context, i: nat, d: string) returns (m: nat)
    requires DistinctIds(nodes) && i < |ResultsUpTo(nodes, env, initial, Height(nodes))|
    requires HandlerRan(ResultsUpTo(nodes, env, initial, Height(nodes))[i].report)
    requires d in Deps(nodes, ResultsUpTo(nodes, env, initial, Height(nodes))[i].id)
    ensures var rs := ResultsUpTo(nodes, env, initial, Height(nodes)); m < |rs| && rs[m].id == d && rs[m].report.Completed?
  {
    var k := PlacedResult(nodes, env, initial, i);
    var x := ResultsUpTo(nodes, env, initial, Height(nodes))[i].id;
    StartedUnhindered(nodes, env, StateAfter(nodes, env, initial, k), x, d);
    var j := DepLevel(nodes, k, x, d);
    LevelInDone(nodes, j, k, d);
    m := UnrecordedCompleted(nodes, env, initial, k, d);
  }

  lemma StrandedDependencyFree(nodes: seq<Node>, env: Environment, initial: Context, j: nat, d: string)
    requires j < |StrandedReports(nodes, env, initial)| && HandlerRan(StrandedReports(nodes, env, initial)[j].report)
    requires d in Deps(nodes, StrandedReports(nodes, env, initial)[j].id)
    ensures var st := StateAfter(nodes, env, initial, Height(nodes)); d !in st.blocked && d !in st.skipped
  {
    var level, st := InRosterOrder(nodes, Stuck(nodes)), StateAfter(nodes, env, initial, Height(nodes));
    StartedBackUnhindered(nodes, env, level, st, j, d);
  }

  /** Kahn's levels come first, and are all there is unless some nodes are stranded. */
  lemma ExecutedStarts(nodes: seq<Node>, env: Environment, initial: Context)
    requires DistinctIds(nodes)
    ensures var all, rs := Executed(nodes, env, initial), ResultsUpTo(nodes, env, initial, Height(nodes));
            && |rs| <= |all| && all[..|rs|] == rs && (|all| > |rs| ==> Acyclic(Edges(nodes)) && Stuck(nodes) != {})
  {
    if Acyclic(Edges(nodes)) && Stuck(nodes) != {} {
      StrandedClosedForm(nodes, env, initial);
    } else {
      assert CompiledLevels(nodes) == KahnLevels(nodes);
    }
  }

  // ---------------------------------------------------------------- and their outputs are read

  /** The level that lists result `i`, and the number of results before it. */
  lemma {:induction false} LevelOfResult(nodes: seq<Node>, env: Environment, levels: seq<seq<string>>, ctx0: Context, results: seq<Result>,
                                         ran: map<string, Outcome>, i: nat) returns (k: nat, start: nat)
    requires Accounted(nodes, env, levels, ctx0, results, ran) && i < |results|
    ensures k < |levels| && start == |Flatten(levels[..k])| && start <= i < start + |levels[k]| && start <= |results|
    ensures results[i].id == levels[k][i - start]
    ensures Accounts(nodes, env, levels[k], ctx0 + Stored(results[..start]), results[i], ran)
    decreases |levels|
  {
    var n := |levels| - 1;
    var m := |results| - |levels[n]|;
    AccountedIds(nodes, env, levels[..n], ctx0, results[..m], ran);
    if i < m {
      k, start := LevelOfResult(nodes, env, levels[..n], ctx0, results[..m], ran, i);
      assert levels[..n][..k] == levels[..k] && results[..m][..start] == results[..start];
    } else {
      k, start := n, m;
      assert results[m..][i - m] == results[i];
    }
  }

  /** A placed dependency sits in an earlier level than its dependent, also if that one is stranded. */
  lemma PlacedComesEarlier(nodes: seq<Node>, k: nat, x: string, d: string)
    requires DistinctIds(nodes) && k < |CompiledLevels(nodes)| && x in CompiledLevels(nodes)[k]
    requires d in Deps(nodes, x) && d in Layered(nodes)
    ensures d in Flatten(CompiledLevels(nodes)[..k])
  {
    var kahn, levels := KahnLevels(nodes), CompiledLevels(nodes);
    LevelsUpToLength(nodes, Height(nodes));
    if k < |kahn| {
      KahnIsTopological(nodes);
      assert levels[..k] == kahn[..k];
    } else {
      FlattenLevels(nodes, Height(nodes));
      assert levels[..k] == kahn;
      assert d in Elements(Flatten(kahn));
    }
  }

  lemma {:induction false} FlattenPrefix(levels: seq<seq<string>>, k: nat)
    requires k <= |levels|
    ensures Flatten(levels[..k]) <= Flatten(levels)
    ensures k < |levels| ==> Flatten(levels[..k]) + levels[k] <= Flatten(levels)
    decreases |levels|
  {
    if k == |levels| {
      assert levels[..k] == levels;
    } else {
      var n := |levels| - 1;
      FlattenPrefix(levels[..n], k);
      assert levels[..n][..k] == levels[..k];
    }
  }

  /** What the context of a level holds of results listed before it. */
  lemma HeldBefore(ctx0: Context, results: seq<Result>, start: nat, m: nat)
    requires m < start <= |results| && results[m].report.Completed?
    requires forall i, j :: 0 <= i < j < |results| ==> results[i].id != results[j].id
    ensures var before := ctx0 + Stored(results[..start]);
            results[m].id in before && before[results[m].id] == results[m].report.output
  {
    CompletedIsStored(results[..start], m);
  }

  /** `c` holds the output of every placed dependency of `x`, and each of them has completed. */
  ghost predicate HoldsDependencies(nodes: seq<Node>, results: seq<Result>, x: string, c: Context) {
    forall d :: d in Deps(nodes, x) && d in Layered(nodes) ==> d in c && Result(d, Completed(c[d])) in results
  }

  lemma DependencyHeld(nodes: seq<Node>, env: Environment, initial: Context, results: seq<Result>, ran: map<string, Outcome>,
                       i: nat, k: nat, start: nat, c: Context, d: string)
    requires DistinctIds(nodes) && results == Executed(nodes, Fixed(env, ran), initial)
    requires Accounted(nodes, env, CompiledLevels(nodes), initial, results, ran)
    requires i < |results| && HandlerRan(results[i].report)
    requires k < |CompiledLevels(nodes)| && start == |Flatten(CompiledLevels(nodes)[..k])| <= |results|
    requires results[i].id in CompiledLevels(nodes)[k]
    requires c - Elements(CompiledLevels(nodes)[k]) == (initial + Stored(results[..start])) - Elements(CompiledLevels(nodes)[k])
    requires d in Deps(nodes, results[i].id) && d in Layered(nodes)
    ensures d in c && Result(d, Completed(c[d])) in results
  {
    var levels := CompiledLevels(nodes);
    CompiledOnce(nodes);
    AccountedIds(nodes, env, levels, initial, results, ran);
    var m := DependencyCompleted(nodes, Fixed(env, ran), initial, i, d);
    PlacedComesEarlier(nodes, k, results[i].id, d);
    FlattenPrefix(levels, k);
    var p :| 0 <= p < start && Flatten(levels[..k])[p] == d;
    assert Flatten(levels)[p] == d && Flatten(levels)[m] == d;
    HeldBefore(initial, results, start, m);
    LevelIsNew(levels, k);
    assert d in Elements(Flatten(levels[..k]));
    KeptOutside(c, initial + Stored(results[..start]), Elements(levels[k]), d);
    assert results[m] == Result(d, Completed(c[d]));
  }

  lemma KeptOutside(c: Context, before: Context, part: set<string>, d: string)
    requires c - part == before - part && d in before && d !in part
    ensures d in c && c[d] == before[d]
  {
    assert d in before - part && (before - part)[d] == before[d];
    assert d in c - part;
  }

  /** Whatever handlers do and in whatever order they finish: when a handler runs, every dependency of its node
      that could be placed has completed, and it returned what it returns on a context with all their outputs. */
  lemma HandlersReadDependencies(nodes: seq<Node>, env: Environment, initial: Context, results: seq<Result>, ran: map<string, Outcome>,
                                 x: string)
    requires DistinctIds(nodes) && results == Executed(nodes, Fixed(env, ran), initial)
    requires Accounted(nodes, env, CompiledLevels(nodes), initial, results, ran)
    requires ran.Keys <= Elements(Flatten(CompiledLevels(nodes))) && x in ran
    ensures exists c :: ran[x] == env.run(x, c) && HoldsDependencies(nodes, results, x, c)
  {
    var levels := CompiledLevels(nodes);
    AccountedIds(nodes, env, levels, initial, results, ran);
    assert x in Elements(Flatten(levels));
    var i: nat :| i < |results| && Flatten(levels)[i] == x;
    var k, start := LevelOfResult(nodes, env, levels, initial, results, ran, i);
    var c: Context :| c - Elements(levels[k]) == (initial + Stored(results[..start])) - Elements(levels[k]) && ran[x] == env.run(x, c);
    RanIsReported(nodes, env, levels[k], initial + Stored(results[..start]), results[i], ran);
    forall d | d in Deps(nodes, x) && d in Layered(nodes)
      ensures d in c && Result(d, Completed(c[d])) in results
    {
      DependencyHeld(nodes, env, initial, results, ran, i, k, start, c, d);
    }
    assert HoldsDependencies(nodes, results, x, c);
  }

  lemma RanIsReported(nodes: seq<Node>, env: Environment, level: seq<string>, before: Context, r: Result, ran: map<string, Outcome>)
    requires Accounts(nodes, env, level, before, r, ran) && r.id in ran
    ensures HandlerRan(r.report)
  {
    if ran[r.id].Returned? {
      assert r.report == Completed(ran[r.id].output);
    } else {
      assert r.report == Blocked(HandlerRaised(ran[r.id].message));
    }
  }
}
