/** Progress of workflow runs: from every row a history leaves running, calls without faults finish the
    run. Also where the engine stops short of that: failed runs, and stages without a name. */
module WorkflowProgress {
  import opened Optional
  import opened Graphs
  import opened WorkflowModel
  import opened WorkflowEngine
  import opened WorkflowRuns
  import opened WorkflowOutputs

  /** Every handler of the definition is registered and none throws. */
  ghost predicate NoFaults(f: Faults, d: Definition) {
    forall i :: 0 <= i < |d.stages| ==>
      !Throws(f, d.stages[i].name) && forall b :: b in d.stages[i].branches ==> !Throws(f, b)
  }

  /** The row has moved past stage `i` and can be called again or has ended. */
  ghost predicate Beyond(row: Row, i: nat) {
    exists j: nat, c, bs :: i < j && StandsAt(row, j, c, bs) && (row.status == Running || row.status == Succeeded)
  }

  /** All that is left to do in stage `i` is the write that converges. */
  ghost predicate Converging(row: Row, i: nat) {
    exists c, bs :: StandsAt(row, i, c, bs) && i < |row.definition.stages| && row.status == Running
      && !IsSkipped(row.tier, row.definition.stages[i]) && row.definition.stages[i].branches != []
      && Unfinished(row.definition.stages[i].branches, row.completed) == []
  }

  lemma CheckpointPassesAll(row: Row, f: Faults, i: nat, c: seq<string>, bs: seq<string>)
    requires StandsAt(row, i, c, bs) && i < |row.definition.stages| && NoFaults(f, row.definition)
    ensures var stage := row.definition.stages[i];
            var pending := Unfinished(stage.branches, row.completed);
            Passing(pending, f) == pending && Unfinished(stage.branches, row.completed + pending) == []
  {
    var stage := row.definition.stages[i];
    var pending := Unfinished(stage.branches, row.completed);
    UnfinishedMembers(stage.branches, row.completed);
    AllPass(pending, f);
    AllPassed(stage.branches, row.completed, f);
  }

  lemma LeavingIsBeyond(row: Row, f: Faults, h: Handlers, i: nat, c: seq<string>, bs: seq<string>)
    requires StandsAt(row, i, c, bs) && i < |row.definition.stages| && row.status == Running && Leaves(row, i, f)
    ensures Beyond(Write(row, i, f, h).0, i)
  {
    var written := Write(row, i, f, h).0;
    WriteMoves(row, f, h, i, c, bs);
    assert written.status == Running || written.status == Succeeded;
    assert StandsAt(written, i + 1, c + bs + [row.definition.stages[i].name], []);
  }

  /** Without faults a write either moves on or leaves a stage with nothing but the converging write to do. */
  lemma FaultlessWrite(row: Row, f: Faults, h: Handlers, i: nat, c: seq<string>, bs: seq<string>)
    requires StandsAt(row, i, c, bs) && i < |row.definition.stages| && row.status == Running && NoFaults(f, row.definition)
    ensures if Leaves(row, i, f) then Beyond(Write(row, i, f, h).0, i)
            else Write(row, i, f, h).1.Continue? && Converging(Write(row, i, f, h).0, i)
  {
    if Leaves(row, i, f) {
      LeavingIsBeyond(row, f, h, i, c, bs);
    } else {
      CheckpointPassesAll(row, f, i, c, bs);
      WriteMoves(row, f, h, i, c, bs);
      WriteKeeps(row, f, h, i);
      assert StandsAt(Write(row, i, f, h).0, i, c, bs + Added(row, i, f));
    }
  }

  lemma ConvergingCall(row: Row, f: Faults, h: Handlers, i: nat, budget: nat)
    requires Converging(row, i) && budget > 0
    ensures Beyond(Advance(row, f, h, budget).row, i)
  {
    var c, bs :| StandsAt(row, i, c, bs) && Unfinished(row.definition.stages[i].branches, row.completed) == [];
    PositionFound(row, i, c, bs);
    LeavingIsBeyond(row, f, h, i, c, bs);
    assert Write(row, i, f, h).1.End?;
  }

  /** The row a call reaches with its first write, and what is left of the call. */
  lemma FaultlessTurn(row: Row, f: Faults, h: Handlers, i: nat, c: seq<string>, bs: seq<string>, budget: nat)
      returns (left: nat, written: Row)
    requires StandsAt(row, i, c, bs) && i < |row.definition.stages| && row.status == Running
    requires NoFaults(f, row.definition) && budget > |row.definition.stages| - i
    ensures written.definition == row.definition && written.tier == row.tier && left <= budget <= left + 1
    ensures Advance(row, f, h, budget).row == if left < budget then Advance(written, f, h, left).row else written
    ensures Beyond(written, i) || (left < budget && Converging(written, i))
    ensures left < budget ==> written.status == Running
  {
    PositionFound(row, i, c, bs);
    FaultlessWrite(row, f, h, i, c, bs);
    WriteKeeps(row, f, h, i);
    written := Write(row, i, f, h).0;
    left := if Write(row, i, f, h).1.Continue? then budget - 1 else budget;
  }

  lemma NextPosition(row: Row, i: nat) returns (j: nat, c: seq<string>, bs: seq<string>)
    requires Beyond(row, i) && row.status == Running
    ensures i < j < |row.definition.stages| && StandsAt(row, j, c, bs)
  {
    j, c, bs :| i < j && StandsAt(row, j, c, bs);
    PositionFound(row, j, c, bs);
  }

  lemma BeyondEarlier(row: Row, i: nat, j: nat)
    requires i <= j && Beyond(row, j)
    ensures Beyond(row, i)
  {
    var k: nat, c, bs :| j < k && StandsAt(row, k, c, bs);
    assert i < k && StandsAt(row, k, c, bs);
  }

  /** A call without faults that lives long enough gets past the current stage. */
  lemma {:induction false} FaultlessCall(row: Row, f: Faults, h: Handlers, i: nat, c: seq<string>, bs: seq<string>, budget: nat)
    requires StandsAt(row, i, c, bs) && i < |row.definition.stages| && row.status == Running
    requires NoFaults(f, row.definition) && budget > |row.definition.stages| - i
    ensures Beyond(Advance(row, f, h, budget).row, i)
    decreases budget
  {
    var left, written := FaultlessTurn(row, f, h, i, c, bs, budget);
    if left < budget {
      if Converging(written, i) {
        ConvergingCall(written, f, h, i, left);
      } else {
        var j, e, cs := NextPosition(written, i);
        FaultlessCall(written, f, h, j, e, cs, left);
        BeyondEarlier(Advance(written, f, h, left).row, i, j);
      }
    }
  }

  function Calls(f: Faults, budget: nat, n: nat): seq<Event> {
    if n == 0 then [] else [Call(f, budget)] + Calls(f, budget, n - 1)
  }

  /** One fault-free call of a run that is running or has ended. */
  lemma CallMoves(row: Row, f: Faults, h: Handlers, i: nat, c: seq<string>, bs: seq<string>, budget: nat, next: Row)
      returns (j: nat, e: seq<string>, cs: seq<string>)
    requires StandsAt(row, i, c, bs) && (row.status == Running || row.status == Succeeded)
    requires NoFaults(f, row.definition) && budget > |row.definition.stages| && next == Advance(row, f, h, budget).row
    ensures StandsAt(next, j, e, cs) && (j > i || j == i == |row.definition.stages|)
    ensures (next.status == Running || next.status == Succeeded) && next.definition == row.definition
  {
    j, e, cs := i, c, bs;
    if row.status == Running {
      PositionFound(row, i, c, bs);
      FaultlessCall(row, f, h, i, c, bs, budget);
      j, e, cs :| i < j && StandsAt(next, j, e, cs);
      CallKeepsDefinition(row, f, h, budget);
    }
  }

  lemma CallKeepsDefinition(row: Row, f: Faults, h: Handlers, budget: nat)
    requires Safe(row)
    ensures Advance(row, f, h, budget).row.definition == row.definition
  {
    AdvanceIsSafe(row, f, h, budget);
  }

  /** Fault-free calls finish the run, one stage or more at a time, whatever the handlers return. */
  lemma {:induction false} CallsFinish(row: Row, f: Faults, h: Handlers, i: nat, c: seq<string>, bs: seq<string>, budget: nat, n: nat)
    requires StandsAt(row, i, c, bs) && (row.status == Running || row.status == Succeeded)
    requires NoFaults(f, row.definition) && budget > |row.definition.stages| && n >= |row.definition.stages| - i
    ensures CanHappen(row, Calls(f, budget, n), h)
    ensures History(row, Calls(f, budget, n), h).status == Succeeded
    decreases n
  {
    if n > 0 {
      var next := Advance(row, f, h, budget).row;
      var j, e, cs := CallMoves(row, f, h, i, c, bs, budget, next);
      CallsFinish(next, f, h, j, e, cs, budget, n - 1);
      assert Calls(f, budget, n)[1..] == Calls(f, budget, n - 1);
    }
  }

  lemma {:induction false} HistoryConcat(row: Row, es: seq<Event>, gs: seq<Event>, h: Handlers)
    requires CanHappen(row, es, h) && CanHappen(History(row, es, h), gs, h)
    ensures CanHappen(row, es + gs, h) && History(row, es + gs, h) == History(History(row, es, h), gs, h)
    decreases |es|
  {
    if es == [] {
      assert es + gs == gs;
    } else {
      HistoryConcat(After(row, es[0], h), es[1..], gs, h);
      assert (es + gs)[0] == es[0] && (es + gs)[1..] == es[1..] + gs;
    }
  }

  /** From every row that a history leaves running, as many fault-free calls as there are stages end the
      run; with steady handlers it ends with the outputs of the uninterrupted run. */
  lemma EveryRunningRunCanFinish(d: Definition, tier: Tier, h: Handlers, data: map<string, string>, es: seq<Event>, f: Faults)
    requires ValidDefinition(d) && CanHappen(Started(d, tier, data), es, h) && NoFaults(f, d)
    requires History(Started(d, tier, data), es, h).status == Running
    ensures var row := History(Started(d, tier, data), es, h);
            var after := History(row, Calls(f, |d.stages| + 1, |d.stages|), h);
            && after.status == Succeeded
            && (Steady(d, tier, h, data) ==> after.outputs == Ideal(d, tier, h, data, |d.stages|))
  {
    var start, gs := Started(d, tier, data), Calls(f, |d.stages| + 1, |d.stages|);
    var row := History(start, es, h);
    StartIsSafe(d, tier, data);
    HistoryIsSafe(start, es, h);
    var i: nat, c, bs :| StandsAt(row, i, c, bs);
    CallsFinish(row, f, h, i, c, bs, |d.stages| + 1, |d.stages|);
    HistoryConcat(start, es, gs, h);
    if Steady(d, tier, h, data) {
      EndsAsUninterrupted(d, tier, h, data, es + gs);
    }
  }

  /** A run whose plain stage threw is over: no call, pause or resumption changes it again. */
  lemma {:induction false} FailedRunsStayFailed(row: Row, es: seq<Event>, h: Handlers)
    requires row.status == Failed && CanHappen(row, es, h)
    ensures History(row, es, h) == row
    decreases |es|
  {
    if es != [] {
      FailedRunsStayFailed(row, es[1..], h);
    }
  }

  /** With an unnamed second stage, two fault-free calls complete the first stage twice. */
  lemma UnnamedStageExample(h: Handlers)
    ensures var d := Definition("flow", [Stage("build", false, []), Stage("", false, [])]);
            var after := History(Started(d, Medium, map[]), Calls(Faults({"build"}, {}), 1, 2), h);
            after.current == "build" && after.completed == ["build", "build"]
  {
    var d := Definition("flow", [Stage("build", false, []), Stage("", false, [])]);
    var f := Faults({"build"}, {});
    var row := Started(d, Medium, map[]);
    var once := Advance(row, f, h, 1).row;
    assert once.current == "build" && once.status == Running && once.completed == ["build"] && once.definition == d;
    var twice := Advance(once, f, h, 1).row;
    assert twice.current == "build" && twice.completed == ["build", "build"];
    var es := Calls(f, 1, 2);
    assert es[0] == Call(f, 1) && es[1..] == Calls(f, 1, 1) && Calls(f, 1, 1)[1..] == [];
    assert History(once, Calls(f, 1, 1), h) == History(twice, [], h);
  }
}
