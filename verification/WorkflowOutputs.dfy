/** When interrupted and uninterrupted runs record the same outputs: exactly when no handler is disturbed
    by what an interruption changes in the state it is handed. */
module WorkflowOutputs {
  import opened Optional
  import opened Graphs
  import opened WorkflowModel
  import opened WorkflowEngine
  import opened WorkflowRuns

  /** A moment at which the handlers of stage `i` may be called: `c` was finished before it, `bs` of its
      branches since, in these orders; `touched` once a checkpoint is stored; `pause` is the last pause. */
  datatype Moment = Moment(i: nat, c: seq<string>, bs: seq<string>, touched: bool, pause: Option<map<string, string>>)

  ghost predicate CanArise(d: Definition, tier: Tier, m: Moment) {
    && m.i < |d.stages| && !IsSkipped(tier, d.stages[m.i])
    && FinishedBefore(d, tier, m.i, m.c) && IsPart(tier, d.stages[m.i], m.bs)
    && (m.bs != [] ==> m.touched) && (m.touched ==> d.stages[m.i].branches != [])
    && IsPause(m.pause)
  }

  predicate IsPause(p: Option<map<string, string>>) {
    p.Some? ==> "action" in p.value
  }

  /** The outputs when stage `i` is current, the branches in `done` are recorded as in an uninterrupted run,
      and nothing is stored under the stage unless `touched`. */
  function OutputsAt(d: Definition, tier: Tier, h: Handlers, data: map<string, string>, i: nat, done: set<string>, touched: bool): Outputs
    requires i < |d.stages|
  {
    var before := Ideal(d, tier, h, data, i);
    if touched then before.(branches := before.branches[d.stages[i].name := BranchResults(h, done, IdealHanded(d, tier, h, data, i))])
    else before
  }

  function HandedAt(d: Definition, tier: Tier, h: Handlers, data: map<string, string>, m: Moment): Handed
    requires m.i < |d.stages|
  {
    Handed(OutputsAt(d, tier, h, data, m.i, Elements(m.bs), m.touched), m.c + m.bs, m.pause)
  }

  /** The handlers due at the moment record what they would record in an uninterrupted run. */
  ghost predicate Undisturbed(d: Definition, tier: Tier, h: Handlers, data: map<string, string>, m: Moment)
    requires m.i < |d.stages|
  {
    var stage := d.stages[m.i];
    var s, ideal := HandedAt(d, tier, h, data, m), IdealHanded(d, tier, h, data, m.i);
    if stage.branches == [] then
      ideal.outputs.data + h.stage(stage.name, s) == ideal.outputs.data + h.stage(stage.name, ideal)
    else
      forall b :: b in stage.branches && b !in m.bs ==> h.branch(b, s) == h.branch(b, ideal)
  }

  /** Handlers are undisturbed at every stage, with every checkpoint, order and pause that can arise. */
  ghost predicate Steady(d: Definition, tier: Tier, h: Handlers, data: map<string, string>) {
    forall m: Moment :: CanArise(d, tier, m) ==> Undisturbed(d, tier, h, data, m)
  }

  // ---------------------------------------------------------------- handlers that look back only

  ghost predicate SameEarlier(stage: Stage, s: Handed, t: Handed) {
    s.outputs.data == t.outputs.data && s.outputs.branches - {stage.name} == t.outputs.branches - {stage.name}
  }

  /** No handler depends on the checkpoint of its own stage, the finished names or the last pause. */
  ghost predicate LooksBackOnly(d: Definition, h: Handlers) {
    && (forall i: nat, s, t :: i < |d.stages| && SameEarlier(d.stages[i], s, t) ==>
          h.stage(d.stages[i].name, s) == h.stage(d.stages[i].name, t))
    && forall i: nat, s, t, b :: i < |d.stages| && SameEarlier(d.stages[i], s, t) && b in d.stages[i].branches ==>
          h.branch(b, s) == h.branch(b, t)
  }

  lemma {:induction false} KeysAreFresh(d: Definition, tier: Tier, h: Handlers, data: map<string, string>, i: nat, j: nat)
    requires DistinctNames(d) && i <= j < |d.stages|
    ensures d.stages[j].name !in Ideal(d, tier, h, data, i).branches
    decreases i
  {
    if i > 0 {
      KeysAreFresh(d, tier, h, data, i - 1, j);
    }
  }

  lemma LookingBackIsSteady(d: Definition, tier: Tier, h: Handlers, data: map<string, string>)
    requires DistinctNames(d) && LooksBackOnly(d, h)
    ensures Steady(d, tier, h, data)
  {
    forall m: Moment | CanArise(d, tier, m)
      ensures Undisturbed(d, tier, h, data, m)
    {
      var stage := d.stages[m.i];
      var s, ideal := HandedAt(d, tier, h, data, m), IdealHanded(d, tier, h, data, m.i);
      KeysAreFresh(d, tier, h, data, m.i, m.i);
      assert s.outputs.branches - {stage.name} == ideal.outputs.branches - {stage.name};
      assert SameEarlier(stage, s, ideal);
    }
  }

  // ---------------------------------------------------------------- rows of steady handlers

  /** The row holds the outputs of an uninterrupted run for where it stands. */
  ghost predicate Holds(row: Row, h: Handlers, data: map<string, string>, i: nat, bs: seq<string>) {
    var d := row.definition;
    && i <= |d.stages| && IsPause(row.pendingApproval)
    && if i == |d.stages| then row.outputs == Ideal(d, row.tier, h, data, i)
       else
         var touched := d.stages[i].name in row.outputs.branches;
         && row.outputs == OutputsAt(d, row.tier, h, data, i, Elements(bs), touched) && (bs != [] ==> touched)
         && (touched ==> d.stages[i].branches != [] && !IsSkipped(row.tier, d.stages[i]))
  }

  lemma EnterHolds(row: Row, h: Handlers, data: map<string, string>, i: nat)
    requires DistinctNames(row.definition) && i <= |row.definition.stages| && IsPause(row.pendingApproval)
    requires row.outputs == Ideal(row.definition, row.tier, h, data, i)
    ensures Holds(row, h, data, i, [])
  {
    if i < |row.definition.stages| {
      KeysAreFresh(row.definition, row.tier, h, data, i, i);
    }
  }

  function MomentOf(row: Row, i: nat, c: seq<string>, bs: seq<string>): Moment
    requires i < |row.definition.stages|
  {
    Moment(i, c, bs, row.definition.stages[i].name in row.outputs.branches, row.pendingApproval)
  }

  lemma RowAtMoment(row: Row, h: Handlers, data: map<string, string>, i: nat, c: seq<string>, bs: seq<string>)
    requires StandsAt(row, i, c, bs) && i < |row.definition.stages| && Holds(row, h, data, i, bs)
    requires !IsSkipped(row.tier, row.definition.stages[i])
    ensures CanArise(row.definition, row.tier, MomentOf(row, i, c, bs))
    ensures HandedOf(row) == HandedAt(row.definition, row.tier, h, data, MomentOf(row, i, c, bs))
  {
  }

  lemma SkipHolds(row: Row, f: Faults, h: Handlers, data: map<string, string>, i: nat, c: seq<string>, bs: seq<string>)
    requires StandsAt(row, i, c, bs) && i < |row.definition.stages| && Holds(row, h, data, i, bs)
    requires IsSkipped(row.tier, row.definition.stages[i])
    ensures Holds(Write(row, i, f, h).0, h, data, i + 1, [])
  {
    EnterHolds(Write(row, i, f, h).0, h, data, i + 1);
  }

  lemma PlainHolds(row: Row, f: Faults, h: Handlers, data: map<string, string>, i: nat, c: seq<string>, bs: seq<string>)
    requires StandsAt(row, i, c, bs) && i < |row.definition.stages| && Holds(row, h, data, i, bs)
    requires !IsSkipped(row.tier, row.definition.stages[i]) && row.definition.stages[i].branches == []
    requires Undisturbed(row.definition, row.tier, h, data, MomentOf(row, i, c, bs))
    ensures if Throws(f, row.definition.stages[i].name) then Holds(Write(row, i, f, h).0, h, data, i, bs)
            else Holds(Write(row, i, f, h).0, h, data, i + 1, [])
  {
    if !Throws(f, row.definition.stages[i].name) {
      RowAtMoment(row, h, data, i, c, bs);
      EnterHolds(Write(row, i, f, h).0, h, data, i + 1);
    }
  }

  lemma ConvergeHolds(row: Row, f: Faults, h: Handlers, data: map<string, string>, i: nat, c: seq<string>, bs: seq<string>)
    requires StandsAt(row, i, c, bs) && i < |row.definition.stages| && Holds(row, h, data, i, bs)
    requires !IsSkipped(row.tier, row.definition.stages[i]) && row.definition.stages[i].branches != []
    requires Unfinished(row.definition.stages[i].branches, row.completed) == []
    ensures Holds(Write(row, i, f, h).0, h, data, i + 1, [])
  {
    var stage := row.definition.stages[i];
    NamesWhere(row, i, c, bs);
    AllBranchesDone(stage, row.completed, bs);
    WholeOutputs(row, h, data, i, bs);
    ConvergedHolds(row, f, h, data, i);
  }

  lemma WholeOutputs(row: Row, h: Handlers, data: map<string, string>, i: nat, bs: seq<string>)
    requires i < |row.definition.stages| && !IsSkipped(row.tier, row.definition.stages[i]) && Holds(row, h, data, i, bs)
    requires row.definition.stages[i].branches != [] && Elements(bs) == Elements(row.definition.stages[i].branches)
    ensures row.outputs == Ideal(row.definition, row.tier, h, data, i + 1)
  {
    assert row.definition.stages[i].branches[0] in Elements(bs);
  }

  lemma ConvergedHolds(row: Row, f: Faults, h: Handlers, data: map<string, string>, i: nat)
    requires DistinctNames(row.definition) && i < |row.definition.stages| && IsPause(row.pendingApproval)
    requires !IsSkipped(row.tier, row.definition.stages[i]) && row.definition.stages[i].branches != []
    requires Unfinished(row.definition.stages[i].branches, row.completed) == []
    requires row.outputs == Ideal(row.definition, row.tier, h, data, i + 1)
    ensures Holds(Write(row, i, f, h).0, h, data, i + 1, [])
  {
    EnterHolds(Write(row, i, f, h).0, h, data, i + 1);
  }

  lemma CheckpointMerges(row: Row, h: Handlers, data: map<string, string>, i: nat, c: seq<string>, bs: seq<string>, passed: seq<string>)
    requires StandsAt(row, i, c, bs) && i < |row.definition.stages| && Holds(row, h, data, i, bs)
    requires !IsSkipped(row.tier, row.definition.stages[i]) && row.definition.stages[i].branches != []
    requires Undisturbed(row.definition, row.tier, h, data, MomentOf(row, i, c, bs))
    requires (forall b :: b in passed ==> b in row.definition.stages[i].branches && b !in bs)
    ensures Checkpointed(row.outputs, row.definition.stages[i]) + BranchResults(h, Elements(passed), HandedOf(row)) ==
            BranchResults(h, Elements(bs) + Elements(passed), IdealHanded(row.definition, row.tier, h, data, i))
  {
    var ideal := IdealHanded(row.definition, row.tier, h, data, i);
    RowAtMoment(row, h, data, i, c, bs);
    assert Checkpointed(row.outputs, row.definition.stages[i]) == BranchResults(h, Elements(bs), ideal);
    assert BranchResults(h, Elements(passed), HandedOf(row)) == BranchResults(h, Elements(passed), ideal);
  }

  lemma CheckpointHolds(row: Row, f: Faults, h: Handlers, data: map<string, string>, i: nat, c: seq<string>, bs: seq<string>)
    requires StandsAt(row, i, c, bs) && i < |row.definition.stages| && Holds(row, h, data, i, bs)
    requires !IsSkipped(row.tier, row.definition.stages[i]) && row.definition.stages[i].branches != []
    requires Unfinished(row.definition.stages[i].branches, row.completed) != []
    requires Undisturbed(row.definition, row.tier, h, data, MomentOf(row, i, c, bs))
    ensures Holds(Write(row, i, f, h).0, h, data, i, bs + Added(row, i, f))
  {
    var added := Added(row, i, f);
    NamesWhere(row, i, c, bs);
    PassedExtend(row.tier, row.definition.stages[i], row.completed, bs, f);
    CheckpointMerges(row, h, data, i, c, bs, added);
    CheckpointStored(row, Write(row, i, f, h).0, h, data, i, bs, bs + added);
  }

  lemma CheckpointStored(row: Row, after: Row, h: Handlers, data: map<string, string>, i: nat, bs: seq<string>, all: seq<string>)
    requires i < |row.definition.stages| && Holds(row, h, data, i, bs)
    requires !IsSkipped(row.tier, row.definition.stages[i]) && row.definition.stages[i].branches != []
    requires after == row.(completed := after.completed, outputs := after.outputs)
    requires after.outputs == row.outputs.(branches := row.outputs.branches[row.definition.stages[i].name :=
               BranchResults(h, Elements(all), IdealHanded(row.definition, row.tier, h, data, i))])
    ensures Holds(after, h, data, i, all)
  {
    var before := Ideal(row.definition, row.tier, h, data, i).branches;
    var name := row.definition.stages[i].name;
    var r := BranchResults(h, Elements(bs), IdealHanded(row.definition, row.tier, h, data, i));
    assert row.outputs.branches == before || row.outputs.branches == before[name := r];
  }

  /** Where the row stands after the next write it still holds what an uninterrupted run would. */
  lemma WriteHolds(row: Row, f: Faults, h: Handlers, data: map<string, string>, i: nat, c: seq<string>, bs: seq<string>)
    requires StandsAt(row, i, c, bs) && i < |row.definition.stages| && row.status == Running && Holds(row, h, data, i, bs)
    requires Steady(row.definition, row.tier, h, data)
    ensures if Leaves(row, i, f) then Holds(Write(row, i, f, h).0, h, data, i + 1, [])
            else Holds(Write(row, i, f, h).0, h, data, i, bs + Added(row, i, f))
  {
    var stage := row.definition.stages[i];
    if IsSkipped(row.tier, stage) {
      SkipHolds(row, f, h, data, i, c, bs);
    } else {
      RowAtMoment(row, h, data, i, c, bs);
      if stage.branches == [] {
        PlainHolds(row, f, h, data, i, c, bs);
        assert Added(row, i, f) == [] && bs + [] == bs;
      } else if Unfinished(stage.branches, row.completed) == [] {
        ConvergeHolds(row, f, h, data, i, c, bs);
      } else {
        CheckpointHolds(row, f, h, data, i, c, bs);
      }
    }
  }

  // ---------------------------------------------------------------- histories

  /** The row stands somewhere and holds what an uninterrupted run would. */
  ghost predicate OnCourse(row: Row, h: Handlers, data: map<string, string>) {
    exists i: nat, c, bs :: StandsAt(row, i, c, bs) && Holds(row, h, data, i, bs)
  }

  lemma WriteOnCourse(row: Row, f: Faults, h: Handlers, data: map<string, string>) returns (i: nat, written: Row)
    requires OnCourse(row, h, data) && Steady(row.definition, row.tier, h, data) && row.status == Running
    ensures i < |row.definition.stages| && FindStage(row.definition.stages, row.current) == i
    ensures written == Write(row, i, f, h).0 && OnCourse(written, h, data)
    ensures written.definition == row.definition && written.tier == row.tier
  {
    var c, bs;
    i, c, bs :| StandsAt(row, i, c, bs) && Holds(row, h, data, i, bs);
    PositionFound(row, i, c, bs);
    WriteKeeps(row, f, h, i);
    WriteMoves(row, f, h, i, c, bs);
    WriteHolds(row, f, h, data, i, c, bs);
    written := Write(row, i, f, h).0;
  }

  /** The rows a call leaves, write by write. */
  lemma CallTurn(row: Row, f: Faults, h: Handlers, data: map<string, string>, budget: nat) returns (left: nat, written: Row)
    requires OnCourse(row, h, data) && Steady(row.definition, row.tier, h, data)
    ensures OnCourse(written, h, data) && written.definition == row.definition && written.tier == row.tier && left <= budget
    ensures Advance(row, f, h, budget).row == if left < budget then Advance(written, f, h, left).row else written
  {
    left, written := budget, row;
    if row.status == Running && budget > 0 {
      var i;
      i, written := WriteOnCourse(row, f, h, data);
      left := CallUnfolds(row, f, h, budget, i, written);
    }
  }

  lemma CallUnfolds(row: Row, f: Faults, h: Handlers, budget: nat, i: nat, written: Row) returns (left: nat)
    requires i < |row.definition.stages| && FindStage(row.definition.stages, row.current) == i && row.status == Running
    requires budget > 0 && written == Write(row, i, f, h).0
    ensures left <= budget
    ensures Advance(row, f, h, budget).row == if left < budget then Advance(written, f, h, left).row else written
  {
    left := if Write(row, i, f, h).1.Continue? then budget - 1 else budget;
  }

  lemma {:induction false} AdvanceOnCourse(row: Row, f: Faults, h: Handlers, data: map<string, string>, budget: nat)
    requires OnCourse(row, h, data) && Steady(row.definition, row.tier, h, data)
    ensures OnCourse(Advance(row, f, h, budget).row, h, data)
    decreases budget
  {
    var left, written := CallTurn(row, f, h, data, budget);
    if left < budget {
      AdvanceOnCourse(written, f, h, data, left);
    }
  }

  lemma EventOnCourse(row: Row, e: Event, h: Handlers, data: map<string, string>)
    requires OnCourse(row, h, data) && Steady(row.definition, row.tier, h, data) && Enabled(row, e)
    ensures OnCourse(After(row, e, h), h, data)
  {
    if e.Call? {
      AdvanceOnCourse(row, e.f, h, data, e.budget);
    } else {
      var i: nat, c, bs :| StandsAt(row, i, c, bs) && Holds(row, h, data, i, bs);
      assert StandsAt(After(row, e, h), i, c, bs) && Holds(After(row, e, h), h, data, i, bs);
    }
  }

  lemma {:induction false} HistoryOnCourse(row: Row, es: seq<Event>, h: Handlers, data: map<string, string>)
    requires Safe(row) && OnCourse(row, h, data) && Steady(row.definition, row.tier, h, data) && CanHappen(row, es, h)
    ensures OnCourse(History(row, es, h), h, data)
    decreases |es|
  {
    if es != [] {
      EventIsSafe(row, es[0], h);
      EventOnCourse(row, es[0], h, data);
      HistoryOnCourse(After(row, es[0], h), es[1..], h, data);
    }
  }

  lemma StartOnCourse(d: Definition, tier: Tier, h: Handlers, data: map<string, string>)
    requires ValidDefinition(d)
    ensures OnCourse(Started(d, tier, data), h, data)
  {
    var row := Started(d, tier, data);
    StartIsSafe(d, tier, data);
    EnterHolds(row, h, data, 0);
    assert StandsAt(row, 0, [], []) && Holds(row, h, data, 0, []);
  }

  lemma RunOnCourse(d: Definition, tier: Tier, h: Handlers, data: map<string, string>, es: seq<Event>)
    requires ValidDefinition(d) && Steady(d, tier, h, data) && CanHappen(Started(d, tier, data), es, h)
    ensures OnCourse(History(Started(d, tier, data), es, h), h, data)
    ensures History(Started(d, tier, data), es, h).definition == d && History(Started(d, tier, data), es, h).tier == tier
  {
    StartIsSafe(d, tier, data);
    StartOnCourse(d, tier, h, data);
    HistoryOnCourse(Started(d, tier, data), es, h, data);
    HistoryIsSafe(Started(d, tier, data), es, h);
  }

  /** With steady handlers, a run that ends has exactly the outputs of the uninterrupted run, whatever
      failed, died or paused on the way. */
  lemma EndsAsUninterrupted(d: Definition, tier: Tier, h: Handlers, data: map<string, string>, es: seq<Event>)
    requires ValidDefinition(d) && Steady(d, tier, h, data) && CanHappen(Started(d, tier, data), es, h)
    requires History(Started(d, tier, data), es, h).status == Succeeded
    ensures History(Started(d, tier, data), es, h).outputs == Ideal(d, tier, h, data, |d.stages|)
  {
    RunOnCourse(d, tier, h, data, es);
  }

  /** With steady handlers two histories of the same run that both end agree on every output, and on what was finished. */
  lemma EndsAgree(d: Definition, tier: Tier, h: Handlers, data: map<string, string>, es: seq<Event>, gs: seq<Event>)
    requires ValidDefinition(d) && Steady(d, tier, h, data)
    requires CanHappen(Started(d, tier, data), es, h) && CanHappen(Started(d, tier, data), gs, h)
    requires History(Started(d, tier, data), es, h).status == Succeeded
    requires History(Started(d, tier, data), gs, h).status == Succeeded
    ensures var a, b := History(Started(d, tier, data), es, h), History(Started(d, tier, data), gs, h);
            a.outputs == b.outputs && Elements(a.completed) == Elements(b.completed)
  {
    EndsAsUninterrupted(d, tier, h, data, es);
    EndsAsUninterrupted(d, tier, h, data, gs);
    var i, bs := CrashConsistency(d, tier, h, data, es);
    var j, cs := CrashConsistency(d, tier, h, data, gs);
  }
}
