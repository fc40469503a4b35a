/** `WorkflowEngine`: the methods over the `workflow_runs` table. A call may die before any of its
    writes; `budget` says how many writes it lives for. */
module WorkflowEngine {
  import opened Optional
  import opened Graphs
  import opened WorkflowModel

  lemma {:induction false} UnfinishedMembers(branches: seq<string>, completed: seq<string>)
    requires NoDuplicates(branches)
    ensures forall b :: b in Unfinished(branches, completed) <==> b in branches && b !in completed
    ensures NoDuplicates(Unfinished(branches, completed))
  {
    if branches != [] {
      var n := |branches| - 1;
      assert branches == branches[..n] + [branches[n]] && branches[n] !in branches[..n];
      UnfinishedMembers(branches[..n], completed);
    }
  }

  lemma {:induction false} PassingMembers(names: seq<string>, f: Faults)
    requires NoDuplicates(names)
    ensures forall b :: b in Passing(names, f) <==> b in names && !Throws(f, b)
    ensures NoDuplicates(Passing(names, f)) && |Passing(names, f)| <= |names|
    ensures |Passing(names, f)| == |names| <==> forall b :: b in names ==> !Throws(f, b)
  {
    if names != [] {
      var n := |names| - 1;
      assert names == names[..n] + [names[n]] && names[n] !in names[..n];
      PassingMembers(names[..n], f);
    }
  }

  lemma {:induction false} AllPass(names: seq<string>, f: Faults)
    requires forall b :: b in names ==> !Throws(f, b)
    ensures Passing(names, f) == names
  {
    if names != [] {
      var n := |names| - 1;
      AllPass(names[..n], f);
      assert names == names[..n] + [names[n]];
    }
  }

  lemma FindStageAt(d: Definition, i: nat)
    requires DistinctNames(d) && i < |d.stages|
    ensures FindStage(d.stages, d.stages[i].name) == i
  {
  }

  /** The branches already checkpointed are skipped, the others run; successes and failures are kept apart. */
  method RunBranches(branches: seq<string>, completed: seq<string>, f: Faults, h: Handlers, s: Handed)
      returns (pending: seq<string>, passed: seq<string>, results: map<string, string>, failed: nat, called: set<string>)
    requires NoDuplicates(branches)
    ensures pending == Unfinished(branches, completed) && passed == Passing(pending, f)
    ensures results == BranchResults(h, Elements(passed), s) && failed == |pending| - |passed|
    ensures called == Elements(pending) * f.registered
  {
    pending := PendingOf(branches, completed);
    var settled;
    settled, called := SettleAll(Elements(pending), f, h, s);
    passed, results, failed := [], map[], 0;
    var i := 0;
    while i < |pending|
      invariant 0 <= i <= |pending| && passed == Passing(pending[..i], f) && failed == i - |passed|
      invariant results == BranchResults(h, Elements(passed), s)
    {
      var b := pending[i];
      assert pending[..i + 1][..i] == pending[..i] && b in Elements(pending);
      ElementsOfConcat(passed, [b]);
      if b in settled {
        passed := passed + [b];
        results := results[b := settled[b]];
      } else {
        failed := failed + 1;
      }
      i := i + 1;
    }
    assert pending[..i] == pending;
  }

  method PendingOf(branches: seq<string>, completed: seq<string>) returns (pending: seq<string>)
    ensures pending == Unfinished(branches, completed)
  {
    pending := [];
    var i := 0;
    while i < |branches|
      invariant 0 <= i <= |branches| && pending == Unfinished(branches[..i], completed)
    {
      assert branches[..i + 1][..i] == branches[..i];
      if branches[i] !in completed {
        pending := pending + [branches[i]];
      }
      i := i + 1;
    }
    assert branches[..i] == branches;
  }

  /** Runs the handlers of the branches, each on its own copy of the state, until all have settled in
      whatever order. */
  method SettleAll(names: set<string>, f: Faults, h: Handlers, s: Handed)
      returns (settled: map<string, string>, called: set<string>)
    ensures settled == map b | b in names && !Throws(f, b) :: h.branch(b, s)
    ensures called == names * f.registered
  {
    settled, called := map[], {};
    var rest := names;
    while rest != {}
      invariant rest <= names && called == (names - rest) * f.registered
      invariant settled == map b | b in names - rest && !Throws(f, b) :: h.branch(b, s)
      decreases rest
    {
      var b :| b in rest;
      if b in f.registered {
        called := called + {b};
        if b !in f.failing {
          settled := settled[b := h.branch(b, s)];
        }
      }
      assert names - (rest - {b}) == names - rest + {b};
      rest := rest - {b};
    }
    assert names - rest == names;
  }

  class WorkflowEngine {
    const handlers: Handlers
    var runs: map<string, Row>

    constructor (handlers: Handlers)
      ensures this.handlers == handlers && runs == map[]
    {
      this.handlers := handlers;
      runs := map[];
    }

    method Start(runId: string, d: Definition, tier: Option<Tier>, data: map<string, string>)
      requires runId !in runs && d.stages != []
      modifies this
      ensures runs == old(runs)[runId := Started(d, if tier.Some? then tier.value else Medium, data)]
      ensures runs[runId] == Row(d, if tier.Some? then tier.value else Medium, d.stages[0].name, Running, [], Outputs(data, map[]), None)
    {
      var t := if tier.Some? then tier.value else Medium;
      runs := runs[runId := Row(d, t, d.stages[0].name, Running, [], Outputs(data, map[]), None)];
    }

    /** What one call leaves in the table and reports, down to the handlers it called. */
    method AdvanceRun(runId: string, f: Faults, budget: nat) returns (r: Outcome, called: set<string>)
      requires runId in runs ==> ValidDefinition(runs[runId].definition)
      modifies this
      ensures runId !in old(runs) ==> r == NotFoundError && runs == old(runs)
      ensures runId in old(runs) ==>
                var p := Advance(old(runs)[runId], f, handlers, budget);
                runs == old(runs)[runId := p.row] && r == p.outcome && called == p.called
    {
      if runId !in runs {
        return NotFoundError, {};
      }
      if runs[runId].status != Running {
        return ConflictError, {};
      }
      var idx := FindStage(runs[runId].definition.stages, runs[runId].current);
      if idx == |runs[runId].definition.stages| {
        return UnknownStageError, {};
      }
      r, called := AdvanceFrom(runId, idx, f, budget);
    }

    method AdvanceFrom(runId: string, idx0: nat, f: Faults, budget: nat) returns (r: Outcome, called: set<string>)
      requires runId in runs && ValidDefinition(runs[runId].definition)
      requires OnStage(runs[runId], idx0)
      modifies this
      ensures var p := Advance(old(runs)[runId], f, handlers, budget);
              runs == old(runs)[runId := p.row] && r == p.outcome && called == p.called
    {
      var idx, left, ended := SkipLowRisk(runId, idx0, f, budget);
      if ended.Some? {
        return ended.value, {};
      }
      r, called := Execute(runId, idx, f, left);
    }

    method Execute(runId: string, idx: nat, f: Faults, left: nat) returns (r: Outcome, called: set<string>)
      requires runId in runs && ValidDefinition(runs[runId].definition) && AtStage(runs[runId], idx)
      modifies this
      ensures var p := Advance(old(runs)[runId], f, handlers, left);
              runs == old(runs)[runId := p.row] && r == p.outcome && called == p.called
    {
      if runs[runId].definition.stages[idx].branches != [] {
        FanOutIs(runs[runId], idx, f, handlers, left);
        r, called := AdvanceFanOut(runId, idx, f, left);
      } else {
        PlainIs(runs[runId], idx, f, handlers, left);
        r, called := AdvancePlain(runId, idx, f, left);
      }
    }

    /** Checkpoints each stage that a low-risk run skips, until a stage is left to execute. */
    method SkipLowRisk(runId: string, idx0: nat, f: Faults, budget: nat)
        returns (idx: nat, left: nat, ended: Option<Outcome>)
      requires runId in runs && ValidDefinition(runs[runId].definition)
      requires OnStage(runs[runId], idx0)
      modifies this
      ensures runs.Keys == old(runs).Keys && runs == old(runs)[runId := runs[runId]]
      ensures ended.None? ==> AtStage(runs[runId], idx) && runs[runId].definition == old(runs)[runId].definition
      ensures Advance(old(runs)[runId], f, handlers, budget) ==
              if ended.Some? then Progress(runs[runId], ended.value, {}) else Advance(runs[runId], f, handlers, left)
    {
      idx, left, ended := idx0, budget, None;
      while ended.None? && IsSkipped(runs[runId].tier, runs[runId].definition.stages[idx])
        invariant runs.Keys == old(runs).Keys && runs == old(runs)[runId := runs[runId]]
        invariant runs[runId].definition == old(runs)[runId].definition
        invariant ended.None? ==> OnStage(runs[runId], idx)
        invariant Advance(old(runs)[runId], f, handlers, budget) ==
                  if ended.Some? then Progress(runs[runId], ended.value, {}) else Advance(runs[runId], f, handlers, left)
        decreases |old(runs)[runId].definition.stages| - idx, ended.None?
      {
        idx, left, ended := SkipOne(runId, idx, f, left);
      }
    }

    method SkipOne(runId: string, idx0: nat, f: Faults, left0: nat) returns (idx: nat, left: nat, ended: Option<Outcome>)
      requires runId in runs && ValidDefinition(runs[runId].definition) && OnStage(runs[runId], idx0)
      requires IsSkipped(runs[runId].tier, runs[runId].definition.stages[idx0])
      modifies this
      ensures runs.Keys == old(runs).Keys && runs == old(runs)[runId := runs[runId]]
      ensures runs[runId].definition == old(runs)[runId].definition
      ensures ended.None? ==> idx == idx0 + 1 && OnStage(runs[runId], idx)
      ensures ended.Some? ==> idx == idx0
      ensures Advance(old(runs)[runId], f, handlers, left0) ==
              if ended.Some? then Progress(runs[runId], ended.value, {}) else Advance(runs[runId], f, handlers, left)
    {
      idx, left, ended := idx0, left0, None;
      ghost var row := runs[runId];
      if left0 == 0 {
        SkipIs(row, idx0, f, handlers, left0);
        ended := Some(Crashed);
      } else {
        ended := PersistSkip(runId, idx0);
        SkipGoesOn(row, idx0, f, handlers, left0, runs[runId], ended);
        if ended.None? {
          idx, left := idx0 + 1, left0 - 1;
        }
      }
    }

    /** The write for one skipped stage. */
    method PersistSkip(runId: string, idx: nat) returns (ended: Option<Outcome>)
      requires runId in runs && ValidDefinition(runs[runId].definition) && OnStage(runs[runId], idx)
      modifies this
      ensures runId in runs && runs[runId] == Skipped(old(runs)[runId], idx)
      ensures runs == old(runs)[runId := runs[runId]]
      ensures runs[runId].definition == old(runs)[runId].definition
      ensures ended.None? ==> OnStage(runs[runId], idx + 1)
      ensures ended == if runs[runId].status == Succeeded then Some(Reported(runs[runId])) else None
    {
      var row := runs[runId];
      row := row.(completed := row.completed + [row.definition.stages[idx].name]);
      if idx + 1 >= |row.definition.stages| {
        row := row.(current := DONE, status := Succeeded);
        ended := Some(Advanced(Succeeded, None));
      } else {
        row := row.(current := row.definition.stages[idx + 1].name);
        ended := None;
      }
      runs := runs[runId := row];
    }

    method AdvancePlain(runId: string, idx: nat, f: Faults, left: nat) returns (r: Outcome, called: set<string>)
      requires runId in runs && ValidDefinition(runs[runId].definition) && AtStage(runs[runId], idx)
      requires runs[runId].definition.stages[idx].branches == []
      modifies this
      ensures var p := PlainProgress(old(runs)[runId], idx, f, handlers, left);
              runs == old(runs)[runId := p.row] && r == p.outcome && called == p.called
    {
      var row := runs[runId];
      var stages := row.definition.stages;
      var stage := stages[idx];
      called := if stage.name in f.registered then {stage.name} else {};
      if left == 0 {
        return Crashed, called;
      }
      if stage.name !in f.registered {
        runs := runs[runId := row.(status := Blocked)];
        return NoHandlerError(stage.name), called;
      }
      if stage.name in f.failing {
        runs := runs[runId := row.(status := Failed)];
        return StageError(stage.name), called;
      }
      var output := handlers.stage(stage.name, HandedOf(row));
      row := row.(completed := row.completed + [stage.name], outputs := row.outputs.(data := row.outputs.data + output));
      r := Converge(runId, row, idx);
    }

    /** Leaves stage `idx` behind in one write. */
    method Converge(runId: string, row: Row, idx: nat) returns (r: Outcome)
      requires idx < |row.definition.stages| && row.status == Running
      requires idx + 1 < |row.definition.stages| ==> row.definition.stages[idx + 1].name != ""
      modifies this
      ensures runs == old(runs)[runId := MoveOn(row, idx)] && r == Reported(MoveOn(row, idx))
    {
      var stages := row.definition.stages;
      if idx + 1 >= |stages| {
        runs := runs[runId := row.(current := DONE, status := Succeeded)];
        return Advanced(Succeeded, None);
      }
      var next := stages[idx + 1].name;
      runs := runs[runId := row.(current := next)];
      return Advanced(Running, Some(next));
    }

    method AdvanceFanOut(runId: string, idx: nat, f: Faults, left: nat) returns (r: Outcome, called: set<string>)
      requires runId in runs && ValidDefinition(runs[runId].definition) && AtStage(runs[runId], idx)
      requires runs[runId].definition.stages[idx].branches != []
      modifies this
      ensures var p := FanOutProgress(old(runs)[runId], idx, f, handlers, left);
              runs == old(runs)[runId := p.row] && r == p.outcome && called == p.called
    {
      var row := runs[runId];
      var stage := row.definition.stages[idx];
      PassingShorter(Unfinished(stage.branches, row.completed), f);
      var pending, passed, results, failed;
      pending, passed, results, failed, called :=
        RunBranches(stage.branches, row.completed, f, handlers, HandedOf(row));
      if left == 0 {
        return Crashed, called;
      }
      if |pending| == 0 {
        row := row.(completed := row.completed + [stage.name]);
        r := Converge(runId, row, idx);
        return;
      }
      var merged := Checkpointed(row.outputs, stage) + results;
      row := row.(completed := row.completed + passed,
                  outputs := row.outputs.(branches := row.outputs.branches[stage.name := merged]));
      runs := runs[runId := row];
      if failed > 0 {
        return FanOutError(stage.name, failed), called;
      }
      if left == 1 {
        return Crashed, called;
      }
      row := row.(completed := row.completed + [stage.name]);
      r := Converge(runId, row, idx);
    }

    /** The fields of the resource reference are laid over the action. */
    method PauseForApproval(runId: string, action: string, resource: map<string, string>) returns (found: bool)
      modifies this
      ensures found <==> runId in old(runs)
      ensures runs == if found then old(runs)[runId := PausedRow(old(runs)[runId], action, resource)] else old(runs)
      ensures found ==> runs[runId] == old(runs)[runId].(status := WaitingApproval, pendingApproval := runs[runId].pendingApproval) &&
                        runs[runId].pendingApproval == Some(if "action" in resource then resource else resource["action" := action])
    {
      found := runId in runs;
      if found {
        runs := runs[runId := runs[runId].(pendingApproval := Some(map["action" := action] + resource), status := WaitingApproval)];
        assert map["action" := action] + resource == if "action" in resource then resource else resource["action" := action];
      }
    }

    method Resume(runId: string) returns (r: Outcome)
      modifies this
      ensures runId !in old(runs) ==> r == NotFoundError && runs == old(runs)
      ensures runId in old(runs) ==>
                var row := old(runs)[runId];
                if CanResume(row) then runs == old(runs)[runId := row.(status := Running)] && r == Advanced(Running, Some(row.current))
                else runs == old(runs) && r == ConflictError
      ensures r == ConflictError <==> runId in old(runs) && old(runs)[runId].status in {Running, Succeeded, Failed, Cancelled}
    {
      if runId !in runs {
        return NotFoundError;
      }
      var row := runs[runId];
      if row.status != WaitingApproval && row.status != Paused && row.status != Blocked {
        return ConflictError;
      }
      runs := runs[runId := row.(status := Running)];
      return Advanced(Running, Some(row.current));
    }
  }

  function Started(d: Definition, tier: Tier, data: map<string, string>): Row
    requires d.stages != []
  {
    Row(d, tier, d.stages[0].name, Running, [], Outputs(data, map[]), None)
  }

  function PausedRow(row: Row, action: string, resource: map<string, string>): Row {
    row.(pendingApproval := Some(map["action" := action] + resource), status := WaitingApproval)
  }

  predicate CanResume(row: Row) {
    row.status == WaitingApproval || row.status == Paused || row.status == Blocked
  }

  /** The row once a skip of stage `idx` is checkpointed. */
  function Skipped(row: Row, idx: nat): Row
    requires idx < |row.definition.stages|
  {
    MoveOn(row.(completed := row.completed + [row.current]), idx)
  }

  predicate OnStage(row: Row, idx: nat) {
    row.status == Running && idx < |row.definition.stages| && row.current == row.definition.stages[idx].name
  }

  predicate AtStage(row: Row, idx: nat) {
    OnStage(row, idx) && !IsSkipped(row.tier, row.definition.stages[idx])
  }

  // ---------------------------------------------------------------- one call, unfolded

  function PlainProgress(row: Row, idx: nat, f: Faults, h: Handlers, left: nat): Progress
    requires AtStage(row, idx) && row.definition.stages[idx].branches == []
  {
    var (written, next) := Write(row, idx, f, h);
    if left == 0 then Progress(row, Crashed, Calls(row, idx, f)) else Progress(written, next.outcome, Calls(row, idx, f))
  }

  function FanOutProgress(row: Row, idx: nat, f: Faults, h: Handlers, left: nat): Progress
    requires AtStage(row, idx) && row.definition.stages[idx].branches != []
  {
    var (written, next) := Write(row, idx, f, h);
    var calls := Calls(row, idx, f);
    if left == 0 then Progress(row, Crashed, calls)
    else if next.End? then Progress(written, next.outcome, calls)
    else if left == 1 then Progress(written, Crashed, calls)
    else
      var moved := MoveOn(written.(completed := written.completed + [row.definition.stages[idx].name]), idx);
      Progress(moved, Reported(moved), calls)
  }

  lemma PlainIs(row: Row, idx: nat, f: Faults, h: Handlers, left: nat)
    requires ValidDefinition(row.definition) && AtStage(row, idx) && row.definition.stages[idx].branches == []
    ensures Advance(row, f, h, left) == PlainProgress(row, idx, f, h, left)
  {
    FindStageAt(row.definition, idx);
  }

  lemma SkipGoesOn(row: Row, idx: nat, f: Faults, h: Handlers, left: nat, next: Row, ended: Option<Outcome>)
    requires ValidDefinition(row.definition) && row.status == Running && idx < |row.definition.stages| && left > 0
    requires row.current == row.definition.stages[idx].name && IsSkipped(row.tier, row.definition.stages[idx])
    requires next == Skipped(row, idx) && ended == if next.status == Succeeded then Some(Reported(next)) else None
    ensures Advance(row, f, h, left) == if ended.Some? then Progress(next, ended.value, {}) else Advance(next, f, h, left - 1)
  {
    SkipIs(row, idx, f, h, left);
  }

  lemma SkipIs(row: Row, idx: nat, f: Faults, h: Handlers, left: nat)
    requires ValidDefinition(row.definition) && row.status == Running && idx < |row.definition.stages|
    requires row.current == row.definition.stages[idx].name && IsSkipped(row.tier, row.definition.stages[idx])
    ensures var next := Skipped(row, idx);
            Advance(row, f, h, left) ==
            if left == 0 then Progress(row, Crashed, {})
            else if next.status == Succeeded then Progress(next, Reported(next), {})
            else Advance(next, f, h, left - 1)
  {
    FindStageAt(row.definition, idx);
    assert Calls(row, idx, f) == {};
    if left > 0 {
      var (written, next) := Write(row, idx, f, h);
      var rest := Advance(written, f, h, left - 1);
      assert {} + rest.called == rest.called;
    }
  }

  lemma PassingShorter(names: seq<string>, f: Faults)
    ensures |Passing(names, f)| <= |names|
  {
  }

  /** After a checkpoint without failures, what remains of the call is the write that converges. */
  lemma FanOutIs(row: Row, idx: nat, f: Faults, h: Handlers, left: nat)
    requires ValidDefinition(row.definition) && AtStage(row, idx) && row.definition.stages[idx].branches != []
    ensures Advance(row, f, h, left) == FanOutProgress(row, idx, f, h, left)
  {
    FindStageAt(row.definition, idx);
    var stage := row.definition.stages[idx];
    var (written, next) := Write(row, idx, f, h);
    if left > 0 && next.Continue? {
      PassingShorter(Unfinished(stage.branches, row.completed), f);
      AllPassed(stage.branches, row.completed, f);
      assert Unfinished(stage.branches, written.completed) == [];
      assert Calls(written, idx, f) == {};
      var rest := Advance(written, f, h, left - 1);
      assert Calls(row, idx, f) + {} == Calls(row, idx, f);
    }
  }

  /** When no pending branch throws, every branch of the stage is completed afterwards. */
  lemma AllPassed(branches: seq<string>, completed: seq<string>, f: Faults)
    requires NoDuplicates(branches)
    requires |Passing(Unfinished(branches, completed), f)| == |Unfinished(branches, completed)|
    ensures Unfinished(branches, completed + Passing(Unfinished(branches, completed), f)) == []
  {
    var passed := Passing(Unfinished(branches, completed), f);
    UnfinishedMembers(branches, completed);
    PassingMembers(Unfinished(branches, completed), f);
    forall b | b in branches
      ensures b in completed + passed
    {
      assert b in completed || b in passed;
    }
    NothingUnfinished(branches, completed + passed);
  }

  lemma {:induction false} NothingUnfinished(branches: seq<string>, completed: seq<string>)
    requires forall b :: b in branches ==> b in completed
    ensures Unfinished(branches, completed) == []
  {
    if branches != [] {
      NothingUnfinished(branches[..|branches| - 1], completed);
    }
  }
}
