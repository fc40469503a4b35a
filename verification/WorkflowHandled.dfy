/** What finishes a stage: a handler that was called and did not throw, or a low risk tier that skips it. */
module WorkflowHandled {
  import opened Optional
  import opened Graphs
  import opened WorkflowModel
  import opened WorkflowEngine
  import opened WorkflowRuns

  /** `name` is a branch, or a plain stage that the run may not skip. */
  ghost predicate NeedsHandler(d: Definition, tier: Tier, name: string) {
    exists j :: 0 <= j < |d.stages| && (name in d.stages[j].branches || RunsItself(d.stages[j], tier, name))
  }

  predicate RunsItself(stage: Stage, tier: Tier, name: string) {
    stage.name == name && stage.branches == [] && (tier != Low || !stage.lowRiskSkip)
  }

  /** A low tier passes over this stage, whose own name or branch is `name`. */
  ghost predicate PassedOver(d: Definition, tier: Tier, name: string) {
    tier == Low && exists j :: 0 <= j < |d.stages| && d.stages[j].lowRiskSkip && IsNameOf(d.stages[j], name)
  }

  predicate IsNameOf(stage: Stage, name: string) {
    name == stage.name || name in stage.branches
  }

  /** In this call the handler of `name` was called and did not throw. */
  predicate HandledBy(p: Progress, f: Faults, name: string) {
    name in p.called && name in f.registered && name !in f.failing
  }

  lemma OnlyStage(d: Definition, i: nat, j: nat, name: string)
    requires DistinctNames(d) && i < |d.stages| && j < |d.stages| && IsNameOf(d.stages[i], name) && IsNameOf(d.stages[j], name)
    ensures i == j
  {
  }

  lemma NewlyFinished(row: Row, i: nat, f: Faults, h: Handlers, name: string)
    requires i < |row.definition.stages| && NoDuplicates(row.definition.stages[i].branches)
    requires name in Write(row, i, f, h).0.completed && name !in row.completed
    ensures var stage := row.definition.stages[i];
            if name == stage.name then RunsItself(stage, row.tier, name) ==> HandledBy(Progress(row, Crashed, Calls(row, i, f)), f, name)
            else name in stage.branches && HandledBy(Progress(row, Crashed, Calls(row, i, f)), f, name)
  {
    var stage := row.definition.stages[i];
    UnfinishedMembers(stage.branches, row.completed);
    PassingMembers(Unfinished(stage.branches, row.completed), f);
  }

  /** What one write finishes. */
  lemma WriteFinishes(row: Row, i: nat, f: Faults, h: Handlers, name: string)
    requires DistinctNames(row.definition) && i < |row.definition.stages|
    requires name in Write(row, i, f, h).0.completed && name !in row.completed
    ensures IsNameOf(row.definition.stages[i], name)
    ensures NeedsHandler(row.definition, row.tier, name) ==> HandledBy(Progress(row, Crashed, Calls(row, i, f)), f, name)
  {
    NewlyFinished(row, i, f, h, name);
    if NeedsHandler(row.definition, row.tier, name) {
      var j :| 0 <= j < |row.definition.stages| &&
        (name in row.definition.stages[j].branches || RunsItself(row.definition.stages[j], row.tier, name));
      assert IsNameOf(row.definition.stages[i], name);
      OnlyStage(row.definition, i, j, name);
    }
  }

  lemma NothingPassedOverCalled(row: Row, i: nat, f: Faults, name: string)
    requires DistinctNames(row.definition) && i < |row.definition.stages| && PassedOver(row.definition, row.tier, name)
    ensures name !in Calls(row, i, f)
  {
    var stage := row.definition.stages[i];
    UnfinishedMembers(stage.branches, row.completed);
    if name in Calls(row, i, f) {
      var j :| 0 <= j < |row.definition.stages| && row.definition.stages[j].lowRiskSkip && IsNameOf(row.definition.stages[j], name);
      OnlyStage(row.definition, i, j, name);
      assert false;
    }
  }

  lemma SameDefinition(row: Row, i: nat, f: Faults, h: Handlers)
    requires i < |row.definition.stages|
    ensures Write(row, i, f, h).0.definition == row.definition && Write(row, i, f, h).0.tier == row.tier
  {
  }

  lemma {:induction false} CallHandles(row: Row, f: Faults, h: Handlers, budget: nat, name: string)
    requires DistinctNames(row.definition)
    ensures var p := Advance(row, f, h, budget);
            && p.row.definition == row.definition && p.row.tier == row.tier
            && (name in p.row.completed && name !in row.completed && NeedsHandler(row.definition, row.tier, name) ==> HandledBy(p, f, name))
            && (PassedOver(row.definition, row.tier, name) ==> name !in p.called)
    decreases budget
  {
    var i := FindStage(row.definition.stages, row.current);
    if row.status == Running && i < |row.definition.stages| {
      if PassedOver(row.definition, row.tier, name) {
        NothingPassedOverCalled(row, i, f, name);
      }
      if budget > 0 {
        var written := Write(row, i, f, h).0;
        SameDefinition(row, i, f, h);
        if name in written.completed && name !in row.completed {
          WriteFinishes(row, i, f, h, name);
        }
        if Write(row, i, f, h).1.Continue? {
          CallHandles(written, f, h, budget - 1, name);
        }
      }
    }
  }

  /** In one of the calls of the history the handler of `name` was called and did not throw. */
  ghost predicate HandledIn(row: Row, es: seq<Event>, h: Handlers, name: string) {
    exists k :: 0 <= k < |es| && es[k].Call? && HandledBy(Advance(History(row, es[..k], h), es[k].f, h, es[k].budget), es[k].f, name)
  }

  lemma HandledFirst(row: Row, es: seq<Event>, h: Handlers, name: string)
    requires es != [] && es[0].Call? && HandledBy(Advance(row, es[0].f, h, es[0].budget), es[0].f, name)
    ensures HandledIn(row, es, h, name)
  {
    assert History(row, es[..0], h) == row;
  }

  lemma HistoryLater(row: Row, es: seq<Event>, h: Handlers, k: nat)
    requires es != [] && k < |es[1..]|
    ensures History(row, es[..k + 1], h) == History(After(row, es[0], h), es[1..][..k], h)
  {
    assert es[..k + 1][1..] == es[1..][..k];
  }

  lemma HandledLater(row: Row, es: seq<Event>, h: Handlers, name: string)
    requires es != [] && HandledIn(After(row, es[0], h), es[1..], h, name)
    ensures HandledIn(row, es, h, name)
  {
    var k :| 0 <= k < |es[1..]| && es[1..][k].Call? &&
      HandledBy(Advance(History(After(row, es[0], h), es[1..][..k], h), es[1..][k].f, h, es[1..][k].budget), es[1..][k].f, name);
    HistoryLater(row, es, h, k);
    assert es[k + 1] == es[1..][k];
  }

  lemma {:induction false} HistoryHandles(row: Row, es: seq<Event>, h: Handlers, name: string)
    requires DistinctNames(row.definition) && NeedsHandler(row.definition, row.tier, name)
    requires name in History(row, es, h).completed && name !in row.completed
    ensures HandledIn(row, es, h, name)
    decreases |es|
  {
    if es != [] {
      var next := After(row, es[0], h);
      if es[0].Call? {
        CallHandles(row, es[0].f, h, es[0].budget, name);
      }
      if name in next.completed {
        HandledFirst(row, es, h, name);
      } else {
        HistoryHandles(next, es[1..], h, name);
        HandledLater(row, es, h, name);
      }
    }
  }

  lemma {:induction false} HistoryPassesOver(row: Row, es: seq<Event>, h: Handlers, k: nat, name: string)
    requires DistinctNames(row.definition) && PassedOver(row.definition, row.tier, name) && k < |es| && es[k].Call?
    ensures name !in Advance(History(row, es[..k], h), es[k].f, h, es[k].budget).called
    decreases k
  {
    if k == 0 {
      assert History(row, es[..0], h) == row;
      CallHandles(row, es[0].f, h, es[0].budget, name);
    } else {
      if es[0].Call? {
        CallHandles(row, es[0].f, h, es[0].budget, name);
      }
      HistoryLater(row, es, h, k - 1);
      HistoryPassesOver(After(row, es[0], h), es[1..], h, k - 1, name);
    }
  }

  lemma {:induction false} NamesInclude(d: Definition, tier: Tier, i: nat, j: nat)
    requires j < i <= |d.stages|
    ensures d.stages[j].name in NamesBefore(d, tier, i)
    ensures tier != Low || !d.stages[j].lowRiskSkip ==> Elements(d.stages[j].branches) <= NamesBefore(d, tier, i)
    decreases i
  {
    if j < i - 1 {
      NamesInclude(d, tier, i - 1, j);
    }
  }

  /** Unless the tier is low and the stage is flagged, the stage is finished only after its handler, or the
      handler of each of its branches, was called in some call and did not throw. */
  lemma FinishedByHandlers(d: Definition, tier: Tier, h: Handlers, data: map<string, string>, es: seq<Event>, j: nat)
    requires ValidDefinition(d) && CanHappen(Started(d, tier, data), es, h) && j < |d.stages|
    requires tier != Low || !d.stages[j].lowRiskSkip
    requires d.stages[j].name in History(Started(d, tier, data), es, h).completed
    ensures d.stages[j].branches == [] ==> HandledIn(Started(d, tier, data), es, h, d.stages[j].name)
    ensures forall b :: b in d.stages[j].branches ==> HandledIn(Started(d, tier, data), es, h, b)
  {
    var start, stage := Started(d, tier, data), d.stages[j];
    if stage.branches == [] {
      assert RunsItself(stage, tier, stage.name);
      HistoryHandles(start, es, h, stage.name);
    }
    var i, bs := CrashConsistency(d, tier, h, data, es);
    assert stage.name in Elements(History(start, es, h).completed);
    StageBefore(d, tier, i, bs, j);
    NamesInclude(d, tier, i, j);
    forall b | b in stage.branches
      ensures HandledIn(start, es, h, b)
    {
      assert b in Elements(stage.branches) && b in Elements(History(start, es, h).completed);
      HistoryHandles(start, es, h, b);
    }
  }

  /** A finished stage lies before the current one. */
  lemma StageBefore(d: Definition, tier: Tier, i: nat, bs: seq<string>, j: nat)
    requires DistinctNames(d) && i <= |d.stages| && j < |d.stages| && d.stages[j].name in NamesBefore(d, tier, i) + Elements(bs)
    requires if i < |d.stages| then IsPart(tier, d.stages[i], bs) else bs == []
    ensures j < i
  {
    if i <= j {
      NamesAreFresh(d, tier, i, j);
      assert false;
    }
  }

  /** With a low tier no call ever runs a handler of a flagged stage, and yet a run that ends has finished it. */
  lemma LowTierPassesOver(d: Definition, h: Handlers, data: map<string, string>, es: seq<Event>, j: nat)
    requires ValidDefinition(d) && CanHappen(Started(d, Low, data), es, h) && j < |d.stages| && d.stages[j].lowRiskSkip
    ensures forall k, name :: 0 <= k < |es| && es[k].Call? && (name == d.stages[j].name || name in d.stages[j].branches) ==>
              name !in Advance(History(Started(d, Low, data), es[..k], h), es[k].f, h, es[k].budget).called
    ensures var row := History(Started(d, Low, data), es, h);
            row.status == Succeeded ==> d.stages[j].name in row.completed
  {
    forall k, name | 0 <= k < |es| && es[k].Call? && (name == d.stages[j].name || name in d.stages[j].branches)
      ensures name !in Advance(History(Started(d, Low, data), es[..k], h), es[k].f, h, es[k].budget).called
    {
      assert IsNameOf(d.stages[j], name);
      HistoryPassesOver(Started(d, Low, data), es, h, k, name);
    }
    var i, bs := CrashConsistency(d, Low, h, data, es);
    if i == |d.stages| {
      NamesInclude(d, Low, i, j);
      assert d.stages[j].name in Elements(History(Started(d, Low, data), es, h).completed);
    }
  }

  /** Nor does the run wait for it: a call that lives for one write leaves the flagged stage behind. */
  lemma LowTierMovesOn(d: Definition, h: Handlers, data: map<string, string>, es: seq<Event>, j: nat, f: Faults)
    requires ValidDefinition(d) && CanHappen(Started(d, Low, data), es, h) && j < |d.stages| && d.stages[j].lowRiskSkip
    requires var row := History(Started(d, Low, data), es, h); row.status == Running && row.current == d.stages[j].name
    ensures d.stages[j].name in Advance(History(Started(d, Low, data), es, h), f, h, 1).row.completed
  {
    var row := History(Started(d, Low, data), es, h);
    var i, bs := CrashConsistency(d, Low, h, data, es);
    FindStageAt(d, j);
    assert Write(row, j, f, h).0.completed == row.completed + [d.stages[j].name];
  }

  // ---------------------------------------------------------------- one call, in what it leaves and reports

  /** Where a run goes from stage `j`: to the next one, or to its end. */
  predicate MovesOn(row: Row, after: Row, j: nat) {
    if j + 1 < |row.definition.stages| then after.current == row.definition.stages[j + 1].name && after.status == Running
    else after.current == "__done__" && after.status == Succeeded
  }

  /** A running row at stage `j`, which the run may not pass over. */
  ghost predicate DueAt(row: Row, j: nat) {
    && ValidDefinition(row.definition) && row.status == Running && j < |row.definition.stages|
    && row.current == row.definition.stages[j].name && (row.tier != Low || !row.definition.stages[j].lowRiskSkip)
  }

  /** A plain stage: without a handler the run is blocked, with one that throws it has failed, and otherwise its
      output is merged and the run moves on; unless the call dies before it can write. */
  lemma PlainStageCall(row: Row, j: nat, f: Faults, h: Handlers, budget: nat)
    requires DueAt(row, j) && row.definition.stages[j].branches == []
    ensures var name, p := row.definition.stages[j].name, Advance(row, f, h, budget);
            && p.called == (if name in f.registered then {name} else {})
            && (if budget == 0 then p.row == row && p.outcome == Crashed
                else if name !in f.registered then p.row == row.(status := Blocked) && p.outcome == NoHandlerError(name)
                else if name in f.failing then p.row == row.(status := Failed) && p.outcome == StageError(name)
                else
                  && p.row.completed == row.completed + [name] && MovesOn(row, p.row, j)
                  && p.row.outputs == row.outputs.(data := row.outputs.data + h.stage(name, Handed(row.outputs, row.completed, row.pendingApproval)))
                  && p.outcome == Advanced(p.row.status, if j + 1 < |row.definition.stages| then Some(p.row.current) else None))
  {
    FindStageAt(row.definition, j);
  }

  /** The branches that a call has still to run, and those of them that succeed. */
  ghost function Outstanding(row: Row, j: nat): set<string>
    requires j < |row.definition.stages|
  {
    set b | b in row.definition.stages[j].branches && b !in row.completed
  }

  ghost function Winning(row: Row, j: nat, f: Faults): set<string>
    requires j < |row.definition.stages|
  {
    set b | b in Outstanding(row, j) && b in f.registered && b !in f.failing
  }

  lemma BranchSets(row: Row, j: nat, f: Faults)
    requires DistinctNames(row.definition) && j < |row.definition.stages|
    ensures var pending := Unfinished(row.definition.stages[j].branches, row.completed);
            && Elements(pending) == Outstanding(row, j) && Elements(Passing(pending, f)) == Winning(row, j, f)
            && |pending| == |Outstanding(row, j)| && |Passing(pending, f)| == |Winning(row, j, f)|
  {
    var pending := Unfinished(row.definition.stages[j].branches, row.completed);
    UnfinishedMembers(row.definition.stages[j].branches, row.completed);
    PassingMembers(pending, f);
    SizeOfElements(pending);
    SizeOfElements(Passing(pending, f));
    assert Elements(pending) == Outstanding(row, j);
    assert Elements(Passing(pending, f)) == Winning(row, j, f);
  }

  /** What a call with a throwing branch leaves and reports: the outputs of the branches that succeed are kept
      beside those kept before, their names are finished, the failures are counted, and the run stays. */
  ghost predicate PartlyDone(row: Row, j: nat, f: Faults, h: Handlers, p: Progress)
    requires j < |row.definition.stages|
  {
    && p.called == Outstanding(row, j) * f.registered && KeepsWinners(row, p.row.outputs, j, f, h)
    && p.row.status == row.status && p.row.current == row.current
    && row.completed <= p.row.completed && Elements(p.row.completed) == Elements(row.completed) + Winning(row, j, f)
    && p.outcome == FanOutError(row.definition.stages[j].name, |Outstanding(row, j) - Winning(row, j, f)|)
  }

  lemma FailingFanOutCall(row: Row, j: nat, f: Faults, h: Handlers, budget: nat)
    requires DueAt(row, j) && row.definition.stages[j].branches != [] && budget > 0 && Winning(row, j, f) < Outstanding(row, j)
    ensures PartlyDone(row, j, f, h, Advance(row, f, h, budget))
  {
    var pending := Unfinished(row.definition.stages[j].branches, row.completed);
    var passed := Passing(pending, f);
    BranchSets(row, j, f);
    Fewer(Winning(row, j, f), Outstanding(row, j));
    CheckpointWritten(row, j, f, h, pending, passed);
    EndsAtOnce(row, j, f, h, budget);
    PartlyWritten(row, j, f, h, pending, passed, Advance(row, f, h, budget));
  }

  lemma PartlyWritten(row: Row, j: nat, f: Faults, h: Handlers, pending: seq<string>, passed: seq<string>, p: Progress)
    requires j < |row.definition.stages| && Elements(pending) == Outstanding(row, j) && Elements(passed) == Winning(row, j, f)
    requires |pending| == |Outstanding(row, j)| && |passed| == |Winning(row, j, f)| && Winning(row, j, f) < Outstanding(row, j)
    requires |passed| < |pending|
    requires p == Progress(Stored(row, j, h, passed), FanOutError(row.definition.stages[j].name, |pending| - |passed|), Elements(pending) * f.registered)
    ensures PartlyDone(row, j, f, h, p)
  {
    Fewer(Winning(row, j, f), Outstanding(row, j));
    WinnersKept(row, j, f, h, passed);
    ElementsOfConcat(row.completed, passed);
  }

  /** The row with the outputs of the branches `passed` checkpointed. */
  function Stored(row: Row, j: nat, h: Handlers, passed: seq<string>): Row
    requires j < |row.definition.stages|
  {
    var stage := row.definition.stages[j];
    row.(completed := row.completed + passed,
         outputs := row.outputs.(branches := row.outputs.branches[stage.name :=
           Checkpointed(row.outputs, stage) + BranchResults(h, Elements(passed), HandedOf(row))]))
  }

  /** What a call without a throwing branch leaves: the stage and all its branches are finished and the run moves on. */
  ghost predicate AllDone(row: Row, j: nat, f: Faults, h: Handlers, p: Progress)
    requires j < |row.definition.stages|
  {
    && p.called == Outstanding(row, j) && KeepsWinners(row, p.row.outputs, j, f, h) && MovesOn(row, p.row, j)
    && Elements(p.row.completed) == Elements(row.completed) + Outstanding(row, j) + {row.definition.stages[j].name}
  }

  lemma ConvergingFanOutCall(row: Row, j: nat, f: Faults, h: Handlers, budget: nat)
    requires DueAt(row, j) && row.definition.stages[j].branches != [] && budget > 1
    requires Outstanding(row, j) != {} && Winning(row, j, f) == Outstanding(row, j)
    ensures AllDone(row, j, f, h, Advance(row, f, h, budget))
  {
    var pending := Unfinished(row.definition.stages[j].branches, row.completed);
    var passed := Passing(pending, f);
    BranchSets(row, j, f);
    AllWritten(row, j, f, h, pending, passed);
    FanOutIs(row, j, f, h, budget);
    Converged(row, j, f, h, pending, passed, Advance(row, f, h, budget));
  }

  lemma Converged(row: Row, j: nat, f: Faults, h: Handlers, pending: seq<string>, passed: seq<string>, p: Progress)
    requires DueAt(row, j) && Elements(pending) == Outstanding(row, j) == Elements(passed) == Winning(row, j, f)
    requires var written := Stored(row, j, h, passed);
             var moved := MoveOn(written.(completed := written.completed + [row.definition.stages[j].name]), j);
             p == Progress(moved, Reported(moved), Elements(pending) * f.registered)
    ensures AllDone(row, j, f, h, p)
  {
    var written := Stored(row, j, h, passed);
    WinnersKept(row, j, f, h, passed);
    ElementsOfConcat(row.completed, passed);
    ElementsOfConcat(row.completed + passed, [row.definition.stages[j].name]);
    MovedOn(written.(completed := written.completed + [row.definition.stages[j].name]), j);
    assert Outstanding(row, j) * f.registered == Outstanding(row, j);
  }

  lemma MovedOn(row: Row, j: nat)
    requires ValidDefinition(row.definition) && j < |row.definition.stages| && row.status == Running
    ensures var after := MoveOn(row, j);
            MovesOn(row, after, j) && after.completed == row.completed && after.outputs == row.outputs
  {
  }

  lemma AllWritten(row: Row, j: nat, f: Faults, h: Handlers, pending: seq<string>, passed: seq<string>)
    requires DueAt(row, j) && row.definition.stages[j].branches != [] && pending != []
    requires pending == Unfinished(row.definition.stages[j].branches, row.completed) && passed == Passing(pending, f) && |passed| == |pending|
    ensures var stage := row.definition.stages[j];
            Write(row, j, f, h) ==
            (Stored(row, j, h, passed),
             Continue)
    ensures Calls(row, j, f) == Elements(pending) * f.registered
  {
  }

  lemma EndsAtOnce(row: Row, j: nat, f: Faults, h: Handlers, budget: nat)
    requires DueAt(row, j) && budget > 0 && Write(row, j, f, h).1.End?
    ensures Advance(row, f, h, budget) == Progress(Write(row, j, f, h).0, Write(row, j, f, h).1.outcome, Calls(row, j, f))
  {
    FindStageAt(row.definition, j);
  }

  /** Under the stage the outputs hold what they held before and what the branches that succeed return; the rest
      is as it was. */
  ghost predicate KeepsWinners(row: Row, o: Outputs, j: nat, f: Faults, h: Handlers)
    requires j < |row.definition.stages|
  {
    var name := row.definition.stages[j].name;
    && o.data == row.outputs.data
    && o.branches == row.outputs.branches[name :=
         (if name in row.outputs.branches then row.outputs.branches[name] else map[])
         + map b | b in Winning(row, j, f) :: h.branch(b, Handed(row.outputs, row.completed, row.pendingApproval))]
  }

  lemma WinnersKept(row: Row, j: nat, f: Faults, h: Handlers, passed: seq<string>)
    requires j < |row.definition.stages| && Elements(passed) == Winning(row, j, f)
    ensures var stage := row.definition.stages[j];
            KeepsWinners(row, row.outputs.(branches := row.outputs.branches[stage.name :=
                                Checkpointed(row.outputs, stage) + BranchResults(h, Elements(passed), HandedOf(row))]), j, f, h)
  {
  }

  lemma CheckpointWritten(row: Row, j: nat, f: Faults, h: Handlers, pending: seq<string>, passed: seq<string>)
    requires DueAt(row, j) && row.definition.stages[j].branches != []
    requires pending == Unfinished(row.definition.stages[j].branches, row.completed) && passed == Passing(pending, f) && |passed| < |pending|
    ensures var stage := row.definition.stages[j];
            Write(row, j, f, h) ==
            (Stored(row, j, h, passed),
             End(FanOutError(stage.name, |pending| - |passed|)))
    ensures Calls(row, j, f) == Elements(pending) * f.registered
  {
  }

  lemma Fewer(a: set<string>, b: set<string>)
    requires a < b
    ensures |a| < |b| && |b - a| == |b| - |a|
  {
    assert b == a + (b - a);
    var x :| x in b && x !in a;
    assert x in b - a;
  }
}
