/** Crash consistency of workflow runs, handlers aside: whatever calls fail, die half-way, pause or
    resume, the row stands at a stage with everything before it finished and part of its own branches. */
module WorkflowRuns {
  import opened Graphs
  import opened WorkflowModel
  import opened WorkflowEngine

  // ---------------------------------------------------------------- what is finished, in which order

  /** Branches in the order in which they were finished, possibly some only. */
  ghost predicate IsPart(tier: Tier, stage: Stage, bs: seq<string>) {
    NoDuplicates(bs) && Elements(bs) <= Elements(stage.branches) && (IsSkipped(tier, stage) ==> bs == [])
  }

  ghost predicate IsWhole(tier: Tier, stage: Stage, bs: seq<string>) {
    IsPart(tier, stage, bs) && (IsSkipped(tier, stage) || Elements(bs) == Elements(stage.branches))
  }

  /** `c` lists what is finished on entering stage `i`: stage by stage the branches in some order, then the stage. */
  ghost predicate FinishedBefore(d: Definition, tier: Tier, i: nat, c: seq<string>)
    requires i <= |d.stages|
  {
    if i == 0 then c == []
    else
      exists k: nat :: k < |c| && FinishedBefore(d, tier, i - 1, c[..k]) && c[|c| - 1] == d.stages[i - 1].name
        && IsWhole(tier, d.stages[i - 1], c[k..|c| - 1])
  }

  lemma FinishedNext(d: Definition, tier: Tier, i: nat, c: seq<string>, bs: seq<string>)
    requires i < |d.stages| && FinishedBefore(d, tier, i, c) && IsWhole(tier, d.stages[i], bs)
    ensures FinishedBefore(d, tier, i + 1, c + bs + [d.stages[i].name])
  {
    var e := c + bs + [d.stages[i].name];
    var k := |c|;
    assert e[..k] == c && e[k..|e| - 1] == bs;
  }

  lemma FinishedLast(d: Definition, tier: Tier, i: nat, c: seq<string>) returns (before: seq<string>, bs: seq<string>)
    requires 0 < i <= |d.stages| && FinishedBefore(d, tier, i, c)
    ensures FinishedBefore(d, tier, i - 1, before) && IsWhole(tier, d.stages[i - 1], bs)
    ensures c == before + bs + [d.stages[i - 1].name]
  {
    var k: nat :| k < |c| && FinishedBefore(d, tier, i - 1, c[..k]) && c[|c| - 1] == d.stages[i - 1].name
      && IsWhole(tier, d.stages[i - 1], c[k..|c| - 1]);
    before, bs := c[..k], c[k..|c| - 1];
  }

  lemma {:induction false} NamesAreFresh(d: Definition, tier: Tier, i: nat, j: nat)
    requires DistinctNames(d) && i <= j < |d.stages|
    ensures d.stages[j].name !in NamesBefore(d, tier, i)
    ensures forall b :: b in d.stages[j].branches ==> b !in NamesBefore(d, tier, i)
    decreases i
  {
    if i > 0 {
      NamesAreFresh(d, tier, i - 1, j);
    }
  }

  /** Whatever the order, what is finished before stage `i` are the names before it, each once. */
  lemma {:induction false} FinishedNames(d: Definition, tier: Tier, i: nat, c: seq<string>)
    requires DistinctNames(d) && i <= |d.stages| && FinishedBefore(d, tier, i, c)
    ensures NoDuplicates(c) && Elements(c) == NamesBefore(d, tier, i)
    decreases i
  {
    if i > 0 {
      var before, bs := FinishedLast(d, tier, i, c);
      FinishedNames(d, tier, i - 1, before);
      WholeIsNew(d, tier, i - 1, before, bs);
    }
  }

  lemma WholeIsNew(d: Definition, tier: Tier, i: nat, c: seq<string>, bs: seq<string>)
    requires DistinctNames(d) && i < |d.stages| && IsWhole(tier, d.stages[i], bs)
    requires NoDuplicates(c) && Elements(c) == NamesBefore(d, tier, i)
    ensures var e := c + bs + [d.stages[i].name]; NoDuplicates(e) && Elements(e) == NamesBefore(d, tier, i + 1)
  {
    PartIsNew(d, tier, i, c, bs);
    StageIsNew(d, tier, i, c, bs);
    ElementsOfConcat(c + bs, [d.stages[i].name]);
    assert IsSkipped(tier, d.stages[i]) ==> Elements(bs) == {};
  }

  /** Branches of stage `i` finished so far come on top of what was finished before it. */
  lemma PartIsNew(d: Definition, tier: Tier, i: nat, c: seq<string>, bs: seq<string>)
    requires DistinctNames(d) && i < |d.stages| && IsPart(tier, d.stages[i], bs)
    requires NoDuplicates(c) && Elements(c) == NamesBefore(d, tier, i)
    ensures NoDuplicates(c + bs) && Elements(c + bs) == Elements(c) + Elements(bs)
    ensures forall b :: b in d.stages[i].branches ==> (b in c + bs <==> b in bs)
  {
    NamesAreFresh(d, tier, i, i);
    forall b | b in d.stages[i].branches
      ensures b !in c
    {
      assert b !in Elements(c);
    }
    assert forall b :: b in bs ==> b in Elements(bs);
    AppendKeepsDistinct(c, bs);
    ElementsOfConcat(c, bs);
  }

  lemma StageIsNew(d: Definition, tier: Tier, i: nat, c: seq<string>, bs: seq<string>)
    requires DistinctNames(d) && i < |d.stages| && IsPart(tier, d.stages[i], bs)
    requires NoDuplicates(c + bs) && Elements(c + bs) == Elements(c) + Elements(bs) && Elements(c) == NamesBefore(d, tier, i)
    ensures d.stages[i].name !in c + bs && NoDuplicates(c + bs + [d.stages[i].name])
  {
    var name := d.stages[i].name;
    NamesAreFresh(d, tier, i, i);
    assert name !in Elements(c) && name !in Elements(bs);
    assert name !in Elements(c + bs);
    AppendKeepsDistinct(c + bs, [name]);
  }

  // ---------------------------------------------------------------- where a row stands

  /** Stage `i` is current, `c` was finished before it and `bs` of its branches since. */
  ghost predicate StandsAt(row: Row, i: nat, c: seq<string>, bs: seq<string>) {
    var d := row.definition;
    && ValidDefinition(d) && i <= |d.stages| && FinishedBefore(d, row.tier, i, c)
    && row.completed == c + bs
    && if i == |d.stages| then row.status == Succeeded && bs == []
       else row.status != Succeeded && row.current == d.stages[i].name && IsPart(row.tier, d.stages[i], bs)
  }

  lemma NamesWhere(row: Row, i: nat, c: seq<string>, bs: seq<string>)
    requires StandsAt(row, i, c, bs)
    ensures Elements(c) == NamesBefore(row.definition, row.tier, i) && NoDuplicates(row.completed)
    ensures Elements(row.completed) == NamesBefore(row.definition, row.tier, i) + Elements(bs)
    ensures i < |row.definition.stages| ==> row.definition.stages[i].name !in row.completed
    ensures i < |row.definition.stages| ==>
              forall b :: b in row.definition.stages[i].branches ==> (b in row.completed <==> b in bs)
  {
    var d := row.definition;
    FinishedNames(d, row.tier, i, c);
    if i < |d.stages| {
      PartIsNew(d, row.tier, i, c, bs);
      StageIsNew(d, row.tier, i, c, bs);
    } else {
      assert c + bs == c;
    }
  }

  /** Leaving stage `i` once nothing of it is left to do. */
  lemma LeaveStage(row: Row, i: nat, c: seq<string>, bs: seq<string>)
    requires StandsAt(row, i, c, bs) && i < |row.definition.stages| && row.status == Running
    requires IsWhole(row.tier, row.definition.stages[i], bs)
    ensures var name := row.definition.stages[i].name;
            StandsAt(MoveOn(row.(completed := row.completed + [name]), i), i + 1, c + bs + [name], [])
  {
    var name := row.definition.stages[i].name;
    FinishedNext(row.definition, row.tier, i, c, bs);
    assert c + bs + [name] + [] == c + bs + [name];
  }

  lemma AllBranchesDone(stage: Stage, completed: seq<string>, bs: seq<string>)
    requires NoDuplicates(stage.branches) && Unfinished(stage.branches, completed) == [] && Elements(bs) <= Elements(stage.branches)
    requires forall b :: b in stage.branches ==> (b in completed <==> b in bs)
    ensures Elements(bs) == Elements(stage.branches)
  {
    UnfinishedMembers(stage.branches, completed);
    forall b | b in stage.branches
      ensures b in Elements(bs)
    {
      assert b !in Unfinished(stage.branches, completed);
    }
  }

  /** The branches that pass are new. */
  lemma PassedExtend(tier: Tier, stage: Stage, completed: seq<string>, bs: seq<string>, f: Faults)
    requires NoDuplicates(stage.branches) && IsPart(tier, stage, bs) && !IsSkipped(tier, stage)
    requires forall b :: b in stage.branches ==> (b in completed <==> b in bs)
    ensures var passed := Passing(Unfinished(stage.branches, completed), f);
            && IsPart(tier, stage, bs + passed) && Elements(bs + passed) == Elements(bs) + Elements(passed)
            && forall b :: b in passed ==> b in stage.branches && b !in bs
  {
    var pending := Unfinished(stage.branches, completed);
    UnfinishedMembers(stage.branches, completed);
    PassingMembers(pending, f);
    AppendKeepsDistinct(bs, Passing(pending, f));
    ElementsOfConcat(bs, Passing(pending, f));
  }

  /** The branches of stage `i` that the next write adds. */
  function Added(row: Row, i: nat, f: Faults): seq<string>
    requires i < |row.definition.stages|
  {
    var stage := row.definition.stages[i];
    if IsSkipped(row.tier, stage) then [] else Passing(Unfinished(stage.branches, row.completed), f)
  }

  /** The next write leaves stage `i` behind. */
  predicate Leaves(row: Row, i: nat, f: Faults)
    requires i < |row.definition.stages|
  {
    var stage := row.definition.stages[i];
    || IsSkipped(row.tier, stage)
    || (if stage.branches == [] then !Throws(f, stage.name) else Unfinished(stage.branches, row.completed) == [])
  }

  lemma SkipMoves(row: Row, f: Faults, h: Handlers, i: nat, c: seq<string>, bs: seq<string>)
    requires StandsAt(row, i, c, bs) && i < |row.definition.stages| && row.status == Running
    requires IsSkipped(row.tier, row.definition.stages[i])
    ensures StandsAt(Write(row, i, f, h).0, i + 1, c + bs + [row.definition.stages[i].name], [])
  {
    LeaveStage(row, i, c, bs);
  }

  lemma PlainMoves(row: Row, f: Faults, h: Handlers, i: nat, c: seq<string>, bs: seq<string>)
    requires StandsAt(row, i, c, bs) && i < |row.definition.stages| && row.status == Running
    requires !IsSkipped(row.tier, row.definition.stages[i]) && row.definition.stages[i].branches == []
    ensures if Throws(f, row.definition.stages[i].name) then StandsAt(Write(row, i, f, h).0, i, c, bs)
            else StandsAt(Write(row, i, f, h).0, i + 1, c + bs + [row.definition.stages[i].name], [])
  {
    var stage := row.definition.stages[i];
    if !Throws(f, stage.name) {
      var stored := row.(outputs := row.outputs.(data := row.outputs.data + h.stage(stage.name, HandedOf(row))));
      assert Elements(bs) == {} == Elements(stage.branches);
      LeaveStage(stored, i, c, bs);
    }
  }

  lemma ConvergeMoves(row: Row, f: Faults, h: Handlers, i: nat, c: seq<string>, bs: seq<string>)
    requires StandsAt(row, i, c, bs) && i < |row.definition.stages| && row.status == Running
    requires !IsSkipped(row.tier, row.definition.stages[i]) && row.definition.stages[i].branches != []
    requires Unfinished(row.definition.stages[i].branches, row.completed) == []
    ensures StandsAt(Write(row, i, f, h).0, i + 1, c + bs + [row.definition.stages[i].name], [])
  {
    NamesWhere(row, i, c, bs);
    AllBranchesDone(row.definition.stages[i], row.completed, bs);
    LeaveStage(row, i, c, bs);
  }

  lemma CheckpointStays(row: Row, f: Faults, h: Handlers, i: nat, c: seq<string>, bs: seq<string>)
    requires StandsAt(row, i, c, bs) && i < |row.definition.stages| && row.status == Running
    requires !IsSkipped(row.tier, row.definition.stages[i]) && row.definition.stages[i].branches != []
    requires Unfinished(row.definition.stages[i].branches, row.completed) != []
    ensures StandsAt(Write(row, i, f, h).0, i, c, bs + Added(row, i, f))
  {
    NamesWhere(row, i, c, bs);
    PassedExtend(row.tier, row.definition.stages[i], row.completed, bs, f);
    var added := Added(row, i, f);
    PartGrows(row, Write(row, i, f, h).0, i, c, bs, added);
  }

  lemma PartGrows(row: Row, after: Row, i: nat, c: seq<string>, bs: seq<string>, added: seq<string>)
    requires StandsAt(row, i, c, bs) && i < |row.definition.stages| && IsPart(row.tier, row.definition.stages[i], bs + added)
    requires after == row.(completed := row.completed + added, outputs := after.outputs)
    ensures StandsAt(after, i, c, bs + added)
  {
    assert c + bs + added == c + (bs + added);
  }

  /** Where the next write leads. */
  lemma WriteMoves(row: Row, f: Faults, h: Handlers, i: nat, c: seq<string>, bs: seq<string>)
    requires StandsAt(row, i, c, bs) && i < |row.definition.stages| && row.status == Running
    ensures if Leaves(row, i, f) then StandsAt(Write(row, i, f, h).0, i + 1, c + bs + [row.definition.stages[i].name], [])
            else StandsAt(Write(row, i, f, h).0, i, c, bs + Added(row, i, f))
  {
    var stage := row.definition.stages[i];
    if IsSkipped(row.tier, stage) {
      SkipMoves(row, f, h, i, c, bs);
    } else if stage.branches == [] {
      PlainMoves(row, f, h, i, c, bs);
      assert Added(row, i, f) == [] && bs + [] == bs;
    } else if Unfinished(stage.branches, row.completed) == [] {
      ConvergeMoves(row, f, h, i, c, bs);
    } else {
      CheckpointStays(row, f, h, i, c, bs);
    }
  }

  lemma WriteKeeps(row: Row, f: Faults, h: Handlers, i: nat)
    requires i < |row.definition.stages| && row.status == Running
    ensures var (written, next) := Write(row, i, f, h);
            && written.definition == row.definition && written.tier == row.tier && row.completed <= written.completed
            && written.pendingApproval == row.pendingApproval
            && (next.Continue? ==> written.status == Running)
  {
  }

  lemma CallsAreNew(row: Row, i: nat, f: Faults, c: seq<string>, bs: seq<string>)
    requires StandsAt(row, i, c, bs) && i < |row.definition.stages|
    ensures Calls(row, i, f) !! Elements(row.completed)
  {
    var stage := row.definition.stages[i];
    NamesWhere(row, i, c, bs);
    UnfinishedMembers(stage.branches, row.completed);
  }

  // ---------------------------------------------------------------- calls and histories

  lemma PositionFound(row: Row, i: nat, c: seq<string>, bs: seq<string>)
    requires StandsAt(row, i, c, bs) && row.status == Running
    ensures i < |row.definition.stages| && FindStage(row.definition.stages, row.current) == i
  {
    FindStageAt(row.definition, i);
  }

  datatype Event = Call(f: Faults, budget: nat) | Pause(action: string, resource: map<string, string>) | Resumption

  /** A run is paused only while it is running. */
  predicate Enabled(row: Row, e: Event) {
    e.Pause? ==> row.status == Running
  }

  function After(row: Row, e: Event, h: Handlers): Row {
    match e
    case Call(f, budget) => Advance(row, f, h, budget).row
    case Pause(action, resource) => PausedRow(row, action, resource)
    case Resumption => if CanResume(row) then row.(status := Running) else row
  }

  predicate CanHappen(row: Row, es: seq<Event>, h: Handlers)
    decreases |es|
  {
    es != [] ==> Enabled(row, es[0]) && CanHappen(After(row, es[0], h), es[1..], h)
  }

  function History(row: Row, es: seq<Event>, h: Handlers): Row
    decreases |es|
  {
    if es == [] then row else History(After(row, es[0], h), es[1..], h)
  }

  /** The row stands somewhere. */
  ghost predicate Safe(row: Row) {
    exists i: nat, c, bs :: StandsAt(row, i, c, bs)
  }

  /** The row of `p` stands somewhere, keeps what `row` had, and `p` called nothing `row` had finished. */
  ghost predicate Extends(row: Row, p: Progress) {
    exists i: nat, c, bs :: StandsAt(p.row, i, c, bs) && Keeps(row, p)
  }

  predicate Keeps(row: Row, p: Progress) {
    && p.row.definition == row.definition && p.row.tier == row.tier
    && row.completed <= p.row.completed && p.called !! Elements(row.completed)
  }

  /** What follows a write that is not the last of its call. */
  lemma ExtendsChain(row: Row, written: Row, calls: set<string>, rest: Progress, p: Progress)
    requires Extends(written, rest) && calls !! Elements(row.completed)
    requires written.definition == row.definition && written.tier == row.tier && row.completed <= written.completed
    requires p == Progress(rest.row, rest.outcome, calls + rest.called)
    ensures Extends(row, p)
  {
    var i: nat, c, bs :| StandsAt(rest.row, i, c, bs) && Keeps(written, rest);
    assert Elements(row.completed) <= Elements(written.completed);
    assert StandsAt(p.row, i, c, bs) && Keeps(row, p);
  }

  /** One write of a running row, found at its stage. */
  lemma SafeWrite(row: Row, f: Faults, h: Handlers) returns (i: nat)
    requires Safe(row) && row.status == Running
    ensures i < |row.definition.stages| && FindStage(row.definition.stages, row.current) == i
    ensures Extends(row, Progress(Write(row, i, f, h).0, Crashed, Calls(row, i, f)))
    ensures Write(row, i, f, h).1.Continue? ==> Write(row, i, f, h).0.status == Running
  {
    var c, bs;
    i, c, bs :| StandsAt(row, i, c, bs);
    PositionFound(row, i, c, bs);
    CallsAreNew(row, i, f, c, bs);
    WriteKeeps(row, f, h, i);
    WriteMoves(row, f, h, i, c, bs);
    assert Keeps(row, Progress(Write(row, i, f, h).0, Crashed, Calls(row, i, f)));
  }

  /** A call of `advance`, however long it lives, leaves the row standing somewhere, forgets nothing,
      and never calls a handler whose success is already recorded. */
  lemma {:induction false} AdvanceIsSafe(row: Row, f: Faults, h: Handlers, budget: nat)
    requires Safe(row)
    ensures Extends(row, Advance(row, f, h, budget))
    decreases budget
  {
    var left, written := FirstWrite(row, f, h, budget);
    if left < budget {
      AdvanceIsSafe(written, f, h, left);
      SafeCall(row, f, h, budget, written, left);
    }
  }

  /** The part of a call up to its first write: the call ends there, or goes on from the row written. */
  lemma FirstWrite(row: Row, f: Faults, h: Handlers, budget: nat) returns (left: nat, written: Row)
    requires Safe(row)
    ensures left >= budget ==> Extends(row, Advance(row, f, h, budget))
    ensures left < budget ==> GoesOn(row, f, h, budget, written, left) && Safe(written)
  {
    left, written := budget, row;
    if row.status == Running {
      var i := SafeWrite(row, f, h);
      if budget > 0 {
        written := Write(row, i, f, h).0;
        if Write(row, i, f, h).1.Continue? {
          left := budget - 1;
          assert Goes(row, f, h, budget, i, written, left);
        }
      }
    } else {
      SafeAsIs(row, Advance(row, f, h, budget));
    }
  }

  lemma SafeAsIs(row: Row, p: Progress)
    requires Safe(row) && p.row == row && p.called == {}
    ensures Extends(row, p)
  {
    var i: nat, c, bs :| StandsAt(row, i, c, bs);
    assert Keeps(row, p);
  }

  ghost predicate Goes(row: Row, f: Faults, h: Handlers, budget: nat, i: nat, written: Row, left: nat) {
    && budget == left + 1 && row.status == Running && i < |row.definition.stages| && FindStage(row.definition.stages, row.current) == i
    && Write(row, i, f, h) == (written, Continue) && Keeps(row, Progress(written, Crashed, Calls(row, i, f)))
  }

  ghost predicate GoesOn(row: Row, f: Faults, h: Handlers, budget: nat, written: Row, left: nat) {
    exists i: nat :: Goes(row, f, h, budget, i, written, left)
  }

  lemma SafeCall(row: Row, f: Faults, h: Handlers, budget: nat, written: Row, left: nat)
    requires GoesOn(row, f, h, budget, written, left) && Extends(written, Advance(written, f, h, left))
    ensures Extends(row, Advance(row, f, h, budget))
  {
    var i: nat :| Goes(row, f, h, budget, i, written, left);
    var rest := Advance(written, f, h, left);
    ExtendsChain(row, written, Calls(row, i, f), rest, Advance(row, f, h, budget));
  }

  lemma EventIsSafe(row: Row, e: Event, h: Handlers)
    requires Safe(row) && Enabled(row, e)
    ensures Safe(After(row, e, h)) && row.completed <= After(row, e, h).completed
    ensures After(row, e, h).definition == row.definition && After(row, e, h).tier == row.tier
  {
    if e.Call? {
      AdvanceIsSafe(row, e.f, h, e.budget);
    } else {
      var i: nat, c, bs :| StandsAt(row, i, c, bs);
      assert StandsAt(After(row, e, h), i, c, bs);
    }
  }

  lemma {:induction false} HistoryIsSafe(row: Row, es: seq<Event>, h: Handlers)
    requires Safe(row) && CanHappen(row, es, h)
    ensures Safe(History(row, es, h)) && row.completed <= History(row, es, h).completed
    ensures History(row, es, h).definition == row.definition && History(row, es, h).tier == row.tier
    decreases |es|
  {
    if es != [] {
      EventIsSafe(row, es[0], h);
      HistoryIsSafe(After(row, es[0], h), es[1..], h);
    }
  }

  lemma StartIsSafe(d: Definition, tier: Tier, data: map<string, string>)
    requires ValidDefinition(d)
    ensures StandsAt(Started(d, tier, data), 0, [], []) && Safe(Started(d, tier, data))
  {
    var row := Started(d, tier, data);
    assert IsPart(tier, d.stages[0], []);
    assert StandsAt(row, 0, [], []);
  }

  /** In every history, whatever the handlers return, the finished names are those of the stages before
      the current one plus some branches of the current stage, each once; a run that ends has finished everything. */
  lemma CrashConsistency(d: Definition, tier: Tier, h: Handlers, data: map<string, string>, es: seq<Event>)
      returns (i: nat, bs: seq<string>)
    requires ValidDefinition(d) && CanHappen(Started(d, tier, data), es, h)
    ensures var row := History(Started(d, tier, data), es, h);
            && row.definition == d && row.tier == tier && i <= |d.stages| && NoDuplicates(row.completed)
            && Elements(row.completed) == NamesBefore(d, tier, i) + Elements(bs)
            && (i < |d.stages| ==> row.current == d.stages[i].name && IsPart(tier, d.stages[i], bs))
            && (row.status == Succeeded <==> i == |d.stages|) && (i == |d.stages| ==> bs == [])
  {
    StartIsSafe(d, tier, data);
    HistoryIsSafe(Started(d, tier, data), es, h);
    var c;
    i, c, bs :| StandsAt(History(Started(d, tier, data), es, h), i, c, bs);
    NamesWhere(History(Started(d, tier, data), es, h), i, c, bs);
  }

  /** Once the success of a stage or branch is recorded, no later call runs its handler. */
  lemma NeverRunAgain(d: Definition, tier: Tier, h: Handlers, data: map<string, string>, es: seq<Event>, gs: seq<Event>,
                      f: Faults, budget: nat, name: string)
    requires ValidDefinition(d) && CanHappen(Started(d, tier, data), es, h)
    requires CanHappen(History(Started(d, tier, data), es, h), gs, h)
    requires name in History(Started(d, tier, data), es, h).completed
    ensures name !in Advance(History(History(Started(d, tier, data), es, h), gs, h), f, h, budget).called
  {
    StartIsSafe(d, tier, data);
    HistoryIsSafe(Started(d, tier, data), es, h);
    var a := History(Started(d, tier, data), es, h);
    HistoryIsSafe(a, gs, h);
    var b := History(a, gs, h);
    AdvanceIsSafe(b, f, h, budget);
    assert name in Elements(b.completed);
  }
}
