/** Interrupted runs agree with uninterrupted ones exactly when handlers are steady; and finished names
    stay distinct exactly when every later stage has a name. */
module WorkflowAgreement {
  import opened Optional
  import opened Graphs
  import opened WorkflowModel
  import opened WorkflowEngine
  import opened WorkflowRuns
  import opened WorkflowOutputs

  // ---------------------------------------------------------------- building histories

  lemma {:induction false} HistorySnoc(row: Row, es: seq<Event>, e: Event, h: Handlers)
    requires CanHappen(row, es, h) && Enabled(History(row, es, h), e)
    ensures CanHappen(row, es + [e], h) && History(row, es + [e], h) == After(History(row, es, h), e, h)
    decreases |es|
  {
    var all := es + [e];
    if es == [] {
      assert all[0] == e && all[1..] == [];
    } else {
      HistorySnoc(After(row, es[0], h), es[1..], e, h);
      assert all[0] == es[0] && all[1..] == es[1..] + [e];
    }
  }

  /** A call that lives for one write makes that write. */
  lemma OneWrite(row: Row, f: Faults, h: Handlers, i: nat)
    requires DistinctNames(row.definition) && i < |row.definition.stages| && row.status == Running
    requires row.current == row.definition.stages[i].name
    ensures After(row, Call(f, 1), h) == Write(row, i, f, h).0
  {
    FindStageAt(row.definition, i);
  }

  // ---------------------------------------------------------------- the uninterrupted run

  /** The row of an uninterrupted run on entering stage `i`. */
  function IdealRow(d: Definition, tier: Tier, h: Handlers, data: map<string, string>, i: nat): Row
    requires i < |d.stages|
  {
    Row(d, tier, d.stages[i].name, Running, Canon(d, tier, i), Ideal(d, tier, h, data, i), None)
  }

  lemma {:induction false} CanonFinishes(d: Definition, tier: Tier, i: nat)
    requires DistinctNames(d) && i <= |d.stages|
    ensures FinishedBefore(d, tier, i, Canon(d, tier, i))
  {
    if i > 0 {
      var stage := d.stages[i - 1];
      var bs := if IsSkipped(tier, stage) then [] else stage.branches;
      CanonFinishes(d, tier, i - 1);
      WholeInOrder(d, tier, i - 1, bs);
      FinishedNext(d, tier, i - 1, Canon(d, tier, i - 1), bs);
    }
  }

  lemma WholeInOrder(d: Definition, tier: Tier, i: nat, bs: seq<string>)
    requires DistinctNames(d) && i < |d.stages| && bs == if IsSkipped(tier, d.stages[i]) then [] else d.stages[i].branches
    ensures IsWhole(tier, d.stages[i], bs)
  {
  }

  lemma CanonNames(d: Definition, tier: Tier, i: nat)
    requires DistinctNames(d) && i <= |d.stages|
    ensures Elements(Canon(d, tier, i)) == NamesBefore(d, tier, i)
  {
    CanonFinishes(d, tier, i);
    FinishedNames(d, tier, i, Canon(d, tier, i));
  }

  lemma {:induction false} NoneFinished(branches: seq<string>, completed: seq<string>)
    requires forall b :: b in branches ==> b !in completed
    ensures Unfinished(branches, completed) == branches
  {
    if branches != [] {
      var n := |branches| - 1;
      NoneFinished(branches[..n], completed);
      assert branches == branches[..n] + [branches[n]];
    }
  }

  lemma BranchesPending(d: Definition, tier: Tier, i: nat)
    requires DistinctNames(d) && i < |d.stages|
    ensures Unfinished(d.stages[i].branches, Canon(d, tier, i)) == d.stages[i].branches
  {
    CanonNames(d, tier, i);
    NamesAreFresh(d, tier, i, i);
    forall b | b in d.stages[i].branches
      ensures b !in Canon(d, tier, i)
    {
      assert b !in Elements(Canon(d, tier, i));
    }
    NoneFinished(d.stages[i].branches, Canon(d, tier, i));
  }

  /** The row once all branches of stage `i` are checkpointed in one call. */
  function IdealCheckpoint(d: Definition, tier: Tier, h: Handlers, data: map<string, string>, i: nat): Row
    requires i < |d.stages|
  {
    IdealRow(d, tier, h, data, i).(completed := Canon(d, tier, i) + d.stages[i].branches,
                                   outputs := OutputsAt(d, tier, h, data, i, Elements(d.stages[i].branches), true))
  }

  /** The write that checkpoints the branches that passed. */
  lemma CheckpointWritten(row: Row, h: Handlers, i: nat, f: Faults, pending: seq<string>, passed: seq<string>)
    requires i < |row.definition.stages| && !IsSkipped(row.tier, row.definition.stages[i])
    requires row.definition.stages[i].branches != [] && pending != []
    requires pending == Unfinished(row.definition.stages[i].branches, row.completed) && passed == Passing(pending, f)
    ensures var stage := row.definition.stages[i];
            Write(row, i, f, h).0 == row.(
              completed := row.completed + passed,
              outputs := row.outputs.(branches := row.outputs.branches[stage.name :=
                Checkpointed(row.outputs, stage) + BranchResults(h, Elements(passed), HandedOf(row))]))
    ensures Write(row, i, f, h).1.Continue? <==> |passed| >= |pending|
  {
  }

  lemma IdealMerges(d: Definition, tier: Tier, h: Handlers, data: map<string, string>, i: nat, done: set<string>)
    requires DistinctNames(d) && i < |d.stages|
    ensures var row := IdealRow(d, tier, h, data, i);
            Checkpointed(row.outputs, d.stages[i]) + BranchResults(h, done, HandedOf(row)) ==
            BranchResults(h, done, IdealHanded(d, tier, h, data, i))
  {
    KeysAreFresh(d, tier, h, data, i, i);
    var results := BranchResults(h, done, IdealHanded(d, tier, h, data, i));
    assert map[] + results == results;
  }

  lemma IdealCheckpointed(d: Definition, tier: Tier, h: Handlers, data: map<string, string>, i: nat)
    requires DistinctNames(d) && i < |d.stages| && !IsSkipped(tier, d.stages[i]) && d.stages[i].branches != []
    ensures Write(IdealRow(d, tier, h, data, i), i, Faults(Elements(d.stages[i].branches), {}), h).0 == IdealCheckpoint(d, tier, h, data, i)
  {
    var branches := d.stages[i].branches;
    var f := Faults(Elements(branches), {});
    BranchesPending(d, tier, i);
    AllPass(branches, f);
    CheckpointWritten(IdealRow(d, tier, h, data, i), h, i, f, branches, branches);
    IdealMerges(d, tier, h, data, i, Elements(branches));
  }

  /** What a call that lives for one write makes of a row whose stage has nothing pending, with its handler registered. */
  lemma IdealLeaves(d: Definition, tier: Tier, h: Handlers, data: map<string, string>, i: nat, row: Row)
    requires DistinctNames(d) && i < |d.stages|
    requires row == if IsSkipped(tier, d.stages[i]) || d.stages[i].branches == [] then IdealRow(d, tier, h, data, i)
                    else IdealCheckpoint(d, tier, h, data, i)
    ensures var left := IdealRow(d, tier, h, data, i).(completed := Canon(d, tier, i + 1), outputs := Ideal(d, tier, h, data, i + 1));
            Write(row, i, Faults({d.stages[i].name}, {}), h).0 == MoveOn(left, i)
  {
    var stage := d.stages[i];
    if !IsSkipped(tier, stage) {
      NothingUnfinished(stage.branches, row.completed);
    } else {
      assert Canon(d, tier, i) + [] + [stage.name] == Canon(d, tier, i) + [stage.name];
    }
    assert Canon(d, tier, i) + [] == Canon(d, tier, i);
  }

  /** The last but one row in stage `i` of the uninterrupted run, from which one write leaves the stage. */
  lemma IdealReady(d: Definition, tier: Tier, h: Handlers, data: map<string, string>, i: nat) returns (es: seq<Event>, row: Row)
    requires DistinctNames(d) && i < |d.stages| && forall j :: 0 < j <= i ==> d.stages[j].name != ""
    ensures CanHappen(Started(d, tier, data), es, h) && History(Started(d, tier, data), es, h) == row
    ensures row == if IsSkipped(tier, d.stages[i]) || d.stages[i].branches == [] then IdealRow(d, tier, h, data, i)
                   else IdealCheckpoint(d, tier, h, data, i)
    decreases i, 1
  {
    es := IdealReach(d, tier, h, data, i);
    row := IdealRow(d, tier, h, data, i);
    if !IsSkipped(tier, d.stages[i]) && d.stages[i].branches != [] {
      var f := Faults(Elements(d.stages[i].branches), {});
      OneWrite(row, f, h, i);
      HistorySnoc(Started(d, tier, data), es, Call(f, 1), h);
      IdealCheckpointed(d, tier, h, data, i);
      es, row := es + [Call(f, 1)], IdealCheckpoint(d, tier, h, data, i);
    }
  }

  /** The uninterrupted run reaches every stage up to the first that has no name. */
  lemma {:induction false} IdealReach(d: Definition, tier: Tier, h: Handlers, data: map<string, string>, i: nat) returns (es: seq<Event>)
    requires DistinctNames(d) && i < |d.stages| && forall j :: 0 < j <= i ==> d.stages[j].name != ""
    ensures CanHappen(Started(d, tier, data), es, h)
    ensures History(Started(d, tier, data), es, h) == IdealRow(d, tier, h, data, i)
    decreases i, 0
  {
    es := [];
    if i > 0 {
      var row;
      es, row := IdealReady(d, tier, h, data, i - 1);
      var f := Faults({d.stages[i - 1].name}, {});
      HistorySnoc(Started(d, tier, data), es, Call(f, 1), h);
      IdealNext(d, tier, h, data, i - 1, row);
      es := es + [Call(f, 1)];
    }
  }

  lemma IdealNext(d: Definition, tier: Tier, h: Handlers, data: map<string, string>, i: nat, row: Row)
    requires DistinctNames(d) && i + 1 < |d.stages| && d.stages[i + 1].name != ""
    requires row == if IsSkipped(tier, d.stages[i]) || d.stages[i].branches == [] then IdealRow(d, tier, h, data, i)
                    else IdealCheckpoint(d, tier, h, data, i)
    ensures After(row, Call(Faults({d.stages[i].name}, {}), 1), h) == IdealRow(d, tier, h, data, i + 1)
  {
    OneWrite(row, Faults({d.stages[i].name}, {}), h, i);
    IdealLeaves(d, tier, h, data, i, row);
  }

  // ---------------------------------------------------------------- finished names stay distinct

  /** No history finishes a name twice. */
  ghost predicate FinishesOnce(d: Definition)
    requires d.stages != []
  {
    forall tier, h: Handlers, data, es :: CanHappen(Started(d, tier, data), es, h) ==>
      NoDuplicates(History(Started(d, tier, data), es, h).completed)
  }

  /** Names being distinct, no history finishes a name twice exactly when every stage after the first has a name. */
  lemma FinishesOnceIff(d: Definition)
    requires DistinctNames(d)
    ensures FinishesOnce(d) <==> LaterStagesNamed(d)
  {
    if LaterStagesNamed(d) {
      forall tier, h: Handlers, data, es | CanHappen(Started(d, tier, data), es, h)
        ensures NoDuplicates(History(Started(d, tier, data), es, h).completed)
      {
        var i, bs := CrashConsistency(d, tier, h, data, es);
      }
    } else {
      var k :| 0 < k < |d.stages| && d.stages[k].name == "";
      var h := Handlers((_, _) => map[], (_, _) => "");
      var es, name := StuckFinishesTwice(d, h, map[], k);
      var completed := History(Started(d, Medium, map[]), es, h).completed;
      var n := |completed|;
      assert completed[n - 2] == completed[n - 1];
    }
  }

  /** A row that cannot leave stage `k - 1`, because stage `k` has no name, finishes it twice. */
  lemma StuckFinishesTwice(d: Definition, h: Handlers, data: map<string, string>, k: nat) returns (es: seq<Event>, name: string)
    requires DistinctNames(d) && 0 < k < |d.stages| && d.stages[k].name == ""
    ensures CanHappen(Started(d, Medium, data), es, h)
    ensures exists c :: History(Started(d, Medium, data), es, h).completed == c + [name, name]
  {
    var start, row := Started(d, Medium, data), Started(d, Medium, data);
    es, row := StuckReady(d, h, data, k);
    name := d.stages[k - 1].name;
    var e := Call(Faults({name}, {}), 1);
    var once := StuckOnce(d, h, row, k);
    var twice := StuckOnce(d, h, once, k);
    HistorySnoc(start, es, e, h);
    HistorySnoc(start, es + [e], e, h);
    assert twice.completed == row.completed + [name, name];
    es := es + [e] + [e];
  }

  lemma StuckReady(d: Definition, h: Handlers, data: map<string, string>, k: nat) returns (es: seq<Event>, row: Row)
    requires DistinctNames(d) && 0 < k < |d.stages| && d.stages[k].name == ""
    ensures CanHappen(Started(d, Medium, data), es, h) && History(Started(d, Medium, data), es, h) == row
    ensures row.definition == d && row.tier == Medium && row.status == Running && row.current == d.stages[k - 1].name
    ensures Unfinished(d.stages[k - 1].branches, row.completed) == []
  {
    forall j | 0 < j <= k - 1
      ensures d.stages[j].name != ""
    {
      assert d.stages[j].name != d.stages[k].name;
    }
    es, row := IdealReady(d, Medium, h, data, k - 1);
    NothingUnfinished(d.stages[k - 1].branches, row.completed);
  }

  lemma StuckOnce(d: Definition, h: Handlers, row: Row, k: nat) returns (once: Row)
    requires DistinctNames(d) && 0 < k < |d.stages| && d.stages[k].name == ""
    requires row.definition == d && row.tier == Medium && row.status == Running && row.current == d.stages[k - 1].name
    requires Unfinished(d.stages[k - 1].branches, row.completed) == []
    ensures once == After(row, Call(Faults({d.stages[k - 1].name}, {}), 1), h)
    ensures once.definition == d && once.tier == Medium && once.status == Running && once.current == row.current
    ensures once.completed == row.completed + [row.current]
    ensures Unfinished(d.stages[k - 1].branches, once.completed) == []
  {
    var f := Faults({d.stages[k - 1].name}, {});
    OneWrite(row, f, h, k - 1);
    once := Write(row, k - 1, f, h).0;
    var branches := d.stages[k - 1].branches;
    UnfinishedMembers(branches, row.completed);
    forall b | b in branches
      ensures b in once.completed
    {
      assert b !in Unfinished(branches, row.completed);
    }
    NothingUnfinished(branches, once.completed);
  }

  // ---------------------------------------------------------------- every moment does arise

  ghost predicate NoEmpties(o: Outputs) {
    forall k :: k in o.branches ==> o.branches[k] != map[]
  }

  /** Nothing is stored under later stages, and under stage `i` only once a branch is finished. */
  ghost predicate StoredUpTo(d: Definition, o: Outputs, i: nat, bs: seq<string>) {
    forall j :: i <= j < |d.stages| ==> (d.stages[j].name in o.branches <==> j == i && bs != [])
  }

  /** A history that leaves a running row at stage `i`, finished in the given order, never paused and with
      nothing empty stored. */
  ghost predicate Leads(d: Definition, tier: Tier, h: Handlers, data: map<string, string>, es: seq<Event>, i: nat, c: seq<string>, bs: seq<string>)
    requires d.stages != []
  {
    && CanHappen(Started(d, tier, data), es, h)
    && var row := History(Started(d, tier, data), es, h);
       && StandsAt(row, i, c, bs) && row.status == Running && row.definition == d && row.tier == tier
       && row.pendingApproval == None && NoEmpties(row.outputs) && StoredUpTo(d, row.outputs, i, bs)
  }

  lemma {:induction false} PassingOne(names: seq<string>, b: string)
    requires NoDuplicates(names)
    ensures Passing(names, Faults({b}, {})) == if b in names then [b] else []
  {
    if names != [] {
      var n := |names| - 1;
      assert names == names[..n] + [names[n]] && names[n] !in names[..n];
      PassingOne(names[..n], b);
    }
  }

  /** One more branch. */
  lemma LeadsToBranch(d: Definition, tier: Tier, h: Handlers, data: map<string, string>, es: seq<Event>, i: nat, c: seq<string>,
                      bs: seq<string>, b: string)
    requires ValidDefinition(d) && i < |d.stages| && !IsSkipped(tier, d.stages[i])
    requires Leads(d, tier, h, data, es, i, c, bs) && b in d.stages[i].branches && b !in bs
    ensures Leads(d, tier, h, data, es + [Call(Faults({b}, {}), 1)], i, c, bs + [b])
  {
    var row := History(Started(d, tier, data), es, h);
    var f := Faults({b}, {});
    OneBranchPending(row, i, c, bs, b);
    OneWrite(row, f, h, i);
    HistorySnoc(Started(d, tier, data), es, Call(f, 1), h);
    WriteKeeps(row, f, h, i);
    WriteMoves(row, f, h, i, c, bs);
    BranchStored(row, h, i, b);
    BranchStoredUpTo(row, h, i, bs, b);
  }

  lemma BranchStoredUpTo(row: Row, h: Handlers, i: nat, bs: seq<string>, b: string)
    requires DistinctNames(row.definition) && i < |row.definition.stages| && !IsSkipped(row.tier, row.definition.stages[i])
    requires row.definition.stages[i].branches != [] && Unfinished(row.definition.stages[i].branches, row.completed) != []
    requires Passing(Unfinished(row.definition.stages[i].branches, row.completed), Faults({b}, {})) == [b]
    requires StoredUpTo(row.definition, row.outputs, i, bs)
    ensures StoredUpTo(row.definition, Write(row, i, Faults({b}, {}), h).0.outputs, i, bs + [b])
  {
    CheckpointWritten(row, h, i, Faults({b}, {}), Unfinished(row.definition.stages[i].branches, row.completed), [b]);
  }

  lemma LeavingStores(row: Row, h: Handlers, i: nat, f: Faults, bs: seq<string>)
    requires DistinctNames(row.definition) && i + 1 < |row.definition.stages| && StoredUpTo(row.definition, row.outputs, i, bs)
    requires row.status == Running && Leaves(row, i, f)
    ensures var written := Write(row, i, f, h).0;
            && written.status == Running && written.definition == row.definition && written.tier == row.tier
            && written.pendingApproval == row.pendingApproval && written.outputs.branches == row.outputs.branches
            && StoredUpTo(row.definition, written.outputs, i + 1, [])
  {
  }

  lemma OneBranchPending(row: Row, i: nat, c: seq<string>, bs: seq<string>, b: string)
    requires StandsAt(row, i, c, bs) && i < |row.definition.stages| && !IsSkipped(row.tier, row.definition.stages[i])
    requires b in row.definition.stages[i].branches && b !in bs
    ensures Unfinished(row.definition.stages[i].branches, row.completed) != []
    ensures Passing(Unfinished(row.definition.stages[i].branches, row.completed), Faults({b}, {})) == [b]
    ensures !Leaves(row, i, Faults({b}, {})) && Added(row, i, Faults({b}, {})) == [b]
  {
    var branches := row.definition.stages[i].branches;
    NamesWhere(row, i, c, bs);
    UnfinishedMembers(branches, row.completed);
    PassingOne(Unfinished(branches, row.completed), b);
  }

  lemma BranchStored(row: Row, h: Handlers, i: nat, b: string)
    requires i < |row.definition.stages| && !IsSkipped(row.tier, row.definition.stages[i]) && NoEmpties(row.outputs)
    requires row.definition.stages[i].branches != [] && row.status == Running
    requires Unfinished(row.definition.stages[i].branches, row.completed) != []
    requires Passing(Unfinished(row.definition.stages[i].branches, row.completed), Faults({b}, {})) == [b]
    ensures NoEmpties(Write(row, i, Faults({b}, {}), h).0.outputs) && Write(row, i, Faults({b}, {}), h).0.status == Running
  {
    var merged := Checkpointed(row.outputs, row.definition.stages[i]) + BranchResults(h, Elements([b]), HandedOf(row));
    CheckpointWritten(row, h, i, Faults({b}, {}), Unfinished(row.definition.stages[i].branches, row.completed), [b]);
    assert b in Elements([b]) && b in merged;
    StoredNotEmpty(row.outputs, row.definition.stages[i].name, merged);
  }

  lemma StoredNotEmpty(o: Outputs, name: string, merged: map<string, string>)
    requires NoEmpties(o) && merged != map[]
    ensures NoEmpties(o.(branches := o.branches[name := merged]))
  {
  }

  /** On to the next stage. */
  lemma LeadsToNext(d: Definition, tier: Tier, h: Handlers, data: map<string, string>, es: seq<Event>, i: nat, c: seq<string>, bs: seq<string>)
    requires ValidDefinition(d) && i + 1 < |d.stages| && Leads(d, tier, h, data, es, i, c, bs) && IsWhole(tier, d.stages[i], bs)
    ensures Leads(d, tier, h, data, es + [Call(Faults({d.stages[i].name}, {}), 1)], i + 1, c + bs + [d.stages[i].name], [])
  {
    var row := History(Started(d, tier, data), es, h);
    var f := Faults({d.stages[i].name}, {});
    WholeLeaves(row, i, c, bs);
    OneWrite(row, f, h, i);
    HistorySnoc(Started(d, tier, data), es, Call(f, 1), h);
    WriteMoves(row, f, h, i, c, bs);
    LeavingStores(row, h, i, f, bs);
  }

  lemma WholeLeaves(row: Row, i: nat, c: seq<string>, bs: seq<string>)
    requires StandsAt(row, i, c, bs) && i < |row.definition.stages| && IsWhole(row.tier, row.definition.stages[i], bs)
    ensures Leaves(row, i, Faults({row.definition.stages[i].name}, {}))
  {
    var stage := row.definition.stages[i];
    if !IsSkipped(row.tier, stage) && stage.branches != [] {
      NamesWhere(row, i, c, bs);
      forall b | b in stage.branches
        ensures b in row.completed
      {
        assert b in Elements(bs);
      }
      NothingUnfinished(stage.branches, row.completed);
    }
  }

  /** Any order in which stages and branches can be finished is the order of some history. */
  lemma {:induction false} Reach(d: Definition, tier: Tier, h: Handlers, data: map<string, string>, i: nat, c: seq<string>, bs: seq<string>)
      returns (es: seq<Event>)
    requires ValidDefinition(d) && i < |d.stages| && FinishedBefore(d, tier, i, c) && IsPart(tier, d.stages[i], bs)
    ensures Leads(d, tier, h, data, es, i, c, bs)
    decreases i, |bs|
  {
    if bs != [] {
      var n := |bs| - 1;
      assert bs == bs[..n] + [bs[n]] && bs[n] in Elements(bs);
      PartPrefix(tier, d.stages[i], bs, n);
      es := Reach(d, tier, h, data, i, c, bs[..n]);
      LeadsToBranch(d, tier, h, data, es, i, c, bs[..n], bs[n]);
      es := es + [Call(Faults({bs[n]}, {}), 1)];
    } else if i > 0 {
      var before, whole := FinishedLast(d, tier, i, c);
      es := Reach(d, tier, h, data, i - 1, before, whole);
      LeadsToNext(d, tier, h, data, es, i - 1, before, whole);
      es := es + [Call(Faults({d.stages[i - 1].name}, {}), 1)];
    } else {
      es := [];
      StartIsSafe(d, tier, data);
    }
  }

  lemma PartPrefix(tier: Tier, stage: Stage, bs: seq<string>, n: nat)
    requires IsPart(tier, stage, bs) && n < |bs|
    ensures IsPart(tier, stage, bs[..n]) && !IsSkipped(tier, stage) && bs[n] in stage.branches && bs[n] !in bs[..n]
  {
    forall b | b in Elements(bs[..n])
      ensures b in Elements(bs)
    {
      assert b in bs[..n];
    }
    assert bs[n] in Elements(bs);
  }

  // ---------------------------------------------------------------- agreement

  function Entry(o: Outputs, name: string): map<string, string> {
    if name in o.branches then o.branches[name] else map[]
  }

  /** The same is recorded; an empty checkpoint records nothing. */
  ghost predicate SameRecord(o: Outputs, p: Outputs) {
    o.data == p.data && forall k :: Entry(o, k) == Entry(p, k)
  }

  /** If two histories have finished the same names, they have recorded the same outputs. */
  ghost predicate Agree(d: Definition, tier: Tier, h: Handlers, data: map<string, string>, es: seq<Event>, gs: seq<Event>)
    requires d.stages != []
  {
    var start := Started(d, tier, data);
    CanHappen(start, es, h) && CanHappen(start, gs, h) &&
    Elements(History(start, es, h).completed) == Elements(History(start, gs, h).completed) ==>
      SameRecord(History(start, es, h).outputs, History(start, gs, h).outputs)
  }

  ghost predicate AlwaysAgree(d: Definition, tier: Tier, h: Handlers, data: map<string, string>)
    requires d.stages != []
  {
    forall es, gs :: Agree(d, tier, h, data, es, gs)
  }

  lemma {:induction false} EarlierNames(d: Definition, tier: Tier, i: nat, j: nat)
    requires i < j <= |d.stages|
    ensures d.stages[i].name in NamesBefore(d, tier, j)
    decreases j
  {
    if i + 1 < j {
      EarlierNames(d, tier, i, j - 1);
    }
  }

  /** What is finished tells where a row stands. */
  lemma SameNamesNoEarlier(a: Row, b: Row, i: nat, c: seq<string>, bs: seq<string>, j: nat, e: seq<string>, cs: seq<string>)
    requires StandsAt(a, i, c, bs) && StandsAt(b, j, e, cs) && a.definition == b.definition && a.tier == b.tier
    requires Elements(a.completed) == Elements(b.completed)
    ensures j <= i
  {
    NamesWhere(a, i, c, bs);
    NamesWhere(b, j, e, cs);
    assert forall x :: x in Elements(a.completed) ==> x in a.completed;
    if i < j {
      EarlierNames(a.definition, a.tier, i, j);
    }
  }

  lemma SameNamesSamePlace(a: Row, b: Row, i: nat, c: seq<string>, bs: seq<string>, j: nat, e: seq<string>, cs: seq<string>)
    requires StandsAt(a, i, c, bs) && StandsAt(b, j, e, cs) && a.definition == b.definition && a.tier == b.tier
    requires Elements(a.completed) == Elements(b.completed)
    ensures i == j && Elements(bs) == Elements(cs)
  {
    SameNamesNoEarlier(a, b, i, c, bs, j, e, cs);
    SameNamesNoEarlier(b, a, j, e, cs, i, c, bs);
    NamesWhere(a, i, c, bs);
    NamesWhere(b, j, e, cs);
    if i < |a.definition.stages| {
      SamePart(a, b, i, c, bs, e, cs);
    }
  }

  lemma SamePart(a: Row, b: Row, i: nat, c: seq<string>, bs: seq<string>, e: seq<string>, cs: seq<string>)
    requires StandsAt(a, i, c, bs) && StandsAt(b, i, e, cs) && a.definition == b.definition && a.tier == b.tier
    requires Elements(a.completed) == Elements(b.completed) && i < |a.definition.stages|
    ensures Elements(bs) == Elements(cs)
  {
    NamesWhere(a, i, c, bs);
    NamesWhere(b, i, e, cs);
    forall x
      ensures x in Elements(bs) <==> x in Elements(cs)
    {
      assert x in Elements(a.completed) <==> x in a.completed;
      assert x in Elements(b.completed) <==> x in b.completed;
    }
  }

  /** The outputs of two rows on course that stand at the same place. */
  lemma SamePlaceSameRecord(a: Row, b: Row, h: Handlers, data: map<string, string>, i: nat, bs: seq<string>, cs: seq<string>)
    requires ValidDefinition(a.definition) && a.definition == b.definition && a.tier == b.tier
    requires Holds(a, h, data, i, bs) && Holds(b, h, data, i, cs) && Elements(bs) == Elements(cs)
    ensures SameRecord(a.outputs, b.outputs)
  {
    if i < |a.definition.stages| {
      KeysAreFresh(a.definition, a.tier, h, data, i, i);
      assert bs != [] ==> bs[0] in Elements(bs);
      assert cs != [] ==> cs[0] in Elements(cs);
      if bs == [] {
        assert BranchResults(h, Elements(bs), IdealHanded(a.definition, a.tier, h, data, i)) == map[];
      }
    }
  }

  lemma SteadyRunsAgree(d: Definition, tier: Tier, h: Handlers, data: map<string, string>)
    requires ValidDefinition(d) && Steady(d, tier, h, data)
    ensures AlwaysAgree(d, tier, h, data)
  {
    var start := Started(d, tier, data);
    forall es, gs
      ensures Agree(d, tier, h, data, es, gs)
    {
      if CanHappen(start, es, h) && CanHappen(start, gs, h) &&
         Elements(History(start, es, h).completed) == Elements(History(start, gs, h).completed) {
        RunOnCourse(d, tier, h, data, es);
        RunOnCourse(d, tier, h, data, gs);
        OnCourseAgree(History(start, es, h), History(start, gs, h), h, data);
      }
    }
  }

  lemma OnCourseAgree(a: Row, b: Row, h: Handlers, data: map<string, string>)
    requires OnCourse(a, h, data) && OnCourse(b, h, data) && a.definition == b.definition && a.tier == b.tier
    requires Elements(a.completed) == Elements(b.completed)
    ensures SameRecord(a.outputs, b.outputs)
  {
    var i: nat, c, bs :| StandsAt(a, i, c, bs) && Holds(a, h, data, i, bs);
    var j: nat, e, cs :| StandsAt(b, j, e, cs) && Holds(b, h, data, j, cs);
    SameNamesSamePlace(a, b, i, c, bs, j, e, cs);
    SamePlaceSameRecord(a, b, h, data, i, bs, cs);
  }

  // ---------------------------------------------------------------- agreeing runs have steady handlers

  /** A history of the uninterrupted run up to stage `i` in which then exactly the branches in `done` pass. */
  lemma Reference(d: Definition, tier: Tier, h: Handlers, data: map<string, string>, i: nat, done: set<string>) returns (es: seq<Event>)
    requires ValidDefinition(d) && i < |d.stages| && done <= Elements(d.stages[i].branches)
    requires done != {} ==> !IsSkipped(tier, d.stages[i])
    ensures CanHappen(Started(d, tier, data), es, h)
    ensures var row := History(Started(d, tier, data), es, h);
            && Elements(row.completed) == NamesBefore(d, tier, i) + done
            && row.outputs == OutputsAt(d, tier, h, data, i, done, done != {})
  {
    es := IdealReach(d, tier, h, data, i);
    CanonNames(d, tier, i);
    if done != {} {
      var row, f := IdealRow(d, tier, h, data, i), Faults(done, {});
      OneWrite(row, f, h, i);
      HistorySnoc(Started(d, tier, data), es, Call(f, 1), h);
      ReferenceWritten(d, tier, h, data, i, done);
      es := es + [Call(f, 1)];
    }
  }

  lemma ReferenceWritten(d: Definition, tier: Tier, h: Handlers, data: map<string, string>, i: nat, done: set<string>)
    requires DistinctNames(d) && i < |d.stages| && done != {} && done <= Elements(d.stages[i].branches) && !IsSkipped(tier, d.stages[i])
    ensures var row := Write(IdealRow(d, tier, h, data, i), i, Faults(done, {}), h).0;
            && Elements(row.completed) == NamesBefore(d, tier, i) + done
            && row.outputs == OutputsAt(d, tier, h, data, i, done, true)
  {
    var branches, f := d.stages[i].branches, Faults(done, {});
    var x :| x in done;
    assert x in branches;
    var row, passed := IdealRow(d, tier, h, data, i), Passing(branches, f);
    BranchesPending(d, tier, i);
    PassingSet(branches, done);
    CanonNames(d, tier, i);
    ElementsOfConcat(Canon(d, tier, i), passed);
    CheckpointWritten(row, h, i, f, branches, passed);
    IdealMerges(d, tier, h, data, i, done);
  }

  lemma PassingSet(branches: seq<string>, done: set<string>)
    requires NoDuplicates(branches) && done <= Elements(branches)
    ensures Elements(Passing(branches, Faults(done, {}))) == done
  {
    PassingMembers(branches, Faults(done, {}));
  }

  lemma {:induction false} IdealHasNoEmpties(d: Definition, tier: Tier, h: Handlers, data: map<string, string>, i: nat)
    requires i <= |d.stages|
    ensures NoEmpties(Ideal(d, tier, h, data, i))
  {
    if i > 0 {
      IdealHasNoEmpties(d, tier, h, data, i - 1);
      var branches := d.stages[i - 1].branches;
      var results := BranchResults(h, Elements(branches), IdealHanded(d, tier, h, data, i - 1));
      assert branches != [] ==> branches[0] in Elements(branches) && branches[0] in results;
    }
  }

  lemma SameWithoutEmpties(o: Outputs, p: Outputs)
    requires SameRecord(o, p) && NoEmpties(o) && NoEmpties(p)
    ensures o == p
  {
    forall k
      ensures k in o.branches <==> k in p.branches
      ensures k in o.branches ==> o.branches[k] == p.branches[k]
    {
      assert Entry(o, k) == Entry(p, k);
    }
    assert o.branches == p.branches;
  }

  /** What agreement makes of a row that some order of finishing leads to. */
  lemma LedOutputs(d: Definition, tier: Tier, h: Handlers, data: map<string, string>, es: seq<Event>, i: nat, c: seq<string>, bs: seq<string>)
    requires ValidDefinition(d) && AlwaysAgree(d, tier, h, data) && i < |d.stages| && Leads(d, tier, h, data, es, i, c, bs)
    ensures History(Started(d, tier, data), es, h).outputs == OutputsAt(d, tier, h, data, i, Elements(bs), bs != [])
  {
    var row := History(Started(d, tier, data), es, h);
    assert bs != [] ==> bs[0] in Elements(bs);
    NamesWhere(row, i, c, bs);
    var gs := Reference(d, tier, h, data, i, Elements(bs));
    assert Agree(d, tier, h, data, es, gs);
    PartHasNoEmpties(d, tier, h, data, i, Elements(bs));
    SameWithoutEmpties(row.outputs, OutputsAt(d, tier, h, data, i, Elements(bs), Elements(bs) != {}));
  }

  lemma PartHasNoEmpties(d: Definition, tier: Tier, h: Handlers, data: map<string, string>, i: nat, done: set<string>)
    requires i < |d.stages|
    ensures NoEmpties(OutputsAt(d, tier, h, data, i, done, done != {}))
  {
    IdealHasNoEmpties(d, tier, h, data, i);
    if b :| b in done {
      assert b in BranchResults(h, done, IdealHanded(d, tier, h, data, i));
    }
  }

  /** A history that leaves a running row at the moment: with its stage, order, checkpoint and pause. */
  ghost predicate PlacedAt(d: Definition, tier: Tier, h: Handlers, data: map<string, string>, es: seq<Event>, m: Moment)
    requires m.i < |d.stages|
  {
    && CanHappen(Started(d, tier, data), es, h)
    && var row := History(Started(d, tier, data), es, h);
       && StandsAt(row, m.i, m.c, m.bs) && row.status == Running && row.definition == d && row.tier == tier
       && row.pendingApproval == m.pause && (d.stages[m.i].name in row.outputs.branches <==> m.touched)
  }

  /** Moreover its handlers are handed what the moment says. */
  ghost predicate Fits(d: Definition, tier: Tier, h: Handlers, data: map<string, string>, es: seq<Event>, m: Moment)
    requires m.i < |d.stages|
  {
    PlacedAt(d, tier, h, data, es, m) && HandedOf(History(Started(d, tier, data), es, h)) == HandedAt(d, tier, h, data, m)
  }

  /** A call in which every branch fails stores an empty checkpoint. */
  lemma Touch(d: Definition, tier: Tier, h: Handlers, data: map<string, string>, es: seq<Event>, m: Moment) returns (gs: seq<Event>)
    requires ValidDefinition(d) && m.i < |d.stages| && PlacedAt(d, tier, h, data, es, m) && m.bs == [] && !m.touched
    requires !IsSkipped(tier, d.stages[m.i]) && d.stages[m.i].branches != []
    ensures PlacedAt(d, tier, h, data, gs, m.(touched := true))
    ensures Fits(d, tier, h, data, es, m) ==> Fits(d, tier, h, data, gs, m.(touched := true))
  {
    var row, f := History(Started(d, tier, data), es, h), Faults({}, {});
    OneWrite(row, f, h, m.i);
    HistorySnoc(Started(d, tier, data), es, Call(f, 1), h);
    NothingPasses(row, m.i, m.c);
    WriteMoves(row, f, h, m.i, m.c, []);
    TouchedOutputs(row, h, m.i);
    if Fits(d, tier, h, data, es, m) {
      TouchedFits(d, tier, h, data, row, Write(row, m.i, f, h).0, m);
    }
    gs := es + [Call(f, 1)];
  }

  lemma TouchedFits(d: Definition, tier: Tier, h: Handlers, data: map<string, string>, row: Row, written: Row, m: Moment)
    requires m.i < |d.stages| && !m.touched && m.bs == [] && HandedOf(row) == HandedAt(d, tier, h, data, m)
    requires written == row.(completed := row.completed + [],
                             outputs := row.outputs.(branches := row.outputs.branches[d.stages[m.i].name := map[]]))
    ensures HandedOf(written) == HandedAt(d, tier, h, data, m.(touched := true))
  {
    assert BranchResults(h, Elements<string>([]), IdealHanded(d, tier, h, data, m.i)) == map[];
  }

  lemma NothingPasses(row: Row, i: nat, c: seq<string>)
    requires StandsAt(row, i, c, []) && i < |row.definition.stages| && row.definition.stages[i].branches != []
    requires !IsSkipped(row.tier, row.definition.stages[i])
    ensures var pending := Unfinished(row.definition.stages[i].branches, row.completed);
            pending != [] && Passing(pending, Faults({}, {})) == []
    ensures !Leaves(row, i, Faults({}, {})) && Added(row, i, Faults({}, {})) == []
  {
    var branches := row.definition.stages[i].branches;
    NamesWhere(row, i, c, []);
    UnfinishedMembers(branches, row.completed);
    assert branches[0] in Unfinished(branches, row.completed);
    NobodyPasses(Unfinished(branches, row.completed));
  }

  lemma {:induction false} NobodyPasses(names: seq<string>)
    ensures Passing(names, Faults({}, {})) == []
  {
    if names != [] {
      NobodyPasses(names[..|names| - 1]);
    }
  }

  lemma TouchedOutputs(row: Row, h: Handlers, i: nat)
    requires i < |row.definition.stages| && !IsSkipped(row.tier, row.definition.stages[i]) && row.status == Running
    requires row.definition.stages[i].branches != [] && row.definition.stages[i].name !in row.outputs.branches
    requires Unfinished(row.definition.stages[i].branches, row.completed) != []
    requires Passing(Unfinished(row.definition.stages[i].branches, row.completed), Faults({}, {})) == []
    ensures var written := Write(row, i, Faults({}, {}), h).0;
            && written == row.(completed := row.completed + [],
                               outputs := row.outputs.(branches := row.outputs.branches[row.definition.stages[i].name := map[]]))
  {
    CheckpointWritten(row, h, i, Faults({}, {}), Unfinished(row.definition.stages[i].branches, row.completed), []);
    NothingMerged(row, h, row.definition.stages[i]);
  }

  lemma NothingMerged(row: Row, h: Handlers, stage: Stage)
    requires stage.name !in row.outputs.branches
    ensures Checkpointed(row.outputs, stage) + BranchResults(h, Elements<string>([]), HandedOf(row)) == map[]
  {
  }

  lemma PauseAndResume(d: Definition, tier: Tier, h: Handlers, data: map<string, string>, es: seq<Event>, m: Moment, p: map<string, string>)
      returns (gs: seq<Event>)
    requires ValidDefinition(d) && m.i < |d.stages| && PlacedAt(d, tier, h, data, es, m) && "action" in p
    ensures PlacedAt(d, tier, h, data, gs, m.(pause := Some(p)))
    ensures Fits(d, tier, h, data, es, m) ==> Fits(d, tier, h, data, gs, m.(pause := Some(p)))
  {
    var row := History(Started(d, tier, data), es, h);
    var e := Pause(p["action"], p);
    HistorySnoc(Started(d, tier, data), es, e, h);
    HistorySnoc(Started(d, tier, data), es + [e], Resumption, h);
    assert map["action" := p["action"]] + p == p;
    gs := es + [e] + [Resumption];
  }

  /** Every moment that can arise does, in some history, whatever handlers return; if runs agree, with the
      outputs of the uninterrupted run. */
  lemma Arises(d: Definition, tier: Tier, h: Handlers, data: map<string, string>, m: Moment) returns (es: seq<Event>)
    requires ValidDefinition(d) && CanArise(d, tier, m)
    ensures PlacedAt(d, tier, h, data, es, m)
    ensures AlwaysAgree(d, tier, h, data) ==> Fits(d, tier, h, data, es, m)
  {
    es := Reach(d, tier, h, data, m.i, m.c, m.bs);
    var at := m.(touched := m.bs != [], pause := None);
    assert PlacedAt(d, tier, h, data, es, at);
    if AlwaysAgree(d, tier, h, data) {
      LedOutputs(d, tier, h, data, es, m.i, m.c, m.bs);
      assert Fits(d, tier, h, data, es, at);
    }
    if m.touched && m.bs == [] {
      es := Touch(d, tier, h, data, es, at);
    }
    if m.pause.Some? {
      es := PauseAndResume(d, tier, h, data, es, m.(pause := None), m.pause.value);
    }
  }

  lemma PlainIsUndisturbed(d: Definition, tier: Tier, h: Handlers, data: map<string, string>, m: Moment, es: seq<Event>)
    requires ValidDefinition(d) && AlwaysAgree(d, tier, h, data) && CanArise(d, tier, m) && Fits(d, tier, h, data, es, m)
    requires d.stages[m.i].branches == []
    ensures Undisturbed(d, tier, h, data, m)
  {
    var name := d.stages[m.i].name;
    var e, start := Call(Faults({name}, {}), 1), Started(d, tier, data);
    var gs := IdealReach(d, tier, h, data, m.i);
    var a, b := History(start, es, h), History(start, gs, h);
    CanonNames(d, tier, m.i);
    NamesWhere(a, m.i, m.c, m.bs);
    PlainStored(a, h, m.i);
    PlainStored(b, h, m.i);
    HistorySnoc(start, es, e, h);
    HistorySnoc(start, gs, e, h);
    assert Elements(m.bs) == {};
    Agreed(d, tier, h, data, es + [e], gs + [e], After(a, e, h), After(b, e, h));
    SameStored(d, tier, h, data, m, a, b, After(a, e, h), After(b, e, h));
  }

  lemma Agreed(d: Definition, tier: Tier, h: Handlers, data: map<string, string>, es: seq<Event>, gs: seq<Event>, a: Row, b: Row)
    requires d.stages != [] && AlwaysAgree(d, tier, h, data)
    requires CanHappen(Started(d, tier, data), es, h) && CanHappen(Started(d, tier, data), gs, h)
    requires a == History(Started(d, tier, data), es, h) && b == History(Started(d, tier, data), gs, h)
    requires Elements(a.completed) == Elements(b.completed)
    ensures a.outputs.data == b.outputs.data && forall k :: Entry(a.outputs, k) == Entry(b.outputs, k)
  {
    assert Agree(d, tier, h, data, es, gs);
  }

  lemma SameStored(d: Definition, tier: Tier, h: Handlers, data: map<string, string>, m: Moment, a: Row, b: Row, x: Row, y: Row)
    requires m.i < |d.stages| && d.stages[m.i].branches == [] && !m.touched
    requires HandedOf(a) == HandedAt(d, tier, h, data, m) && b == IdealRow(d, tier, h, data, m.i)
    requires x.outputs.data == a.outputs.data + h.stage(d.stages[m.i].name, HandedOf(a))
    requires y.outputs.data == b.outputs.data + h.stage(d.stages[m.i].name, HandedOf(b))
    requires x.outputs.data == y.outputs.data
    ensures Undisturbed(d, tier, h, data, m)
  {
  }

  lemma PlainStored(row: Row, h: Handlers, i: nat)
    requires DistinctNames(row.definition) && i < |row.definition.stages| && row.status == Running
    requires row.current == row.definition.stages[i].name
    requires !IsSkipped(row.tier, row.definition.stages[i]) && row.definition.stages[i].branches == []
    ensures var name := row.definition.stages[i].name;
            var after := After(row, Call(Faults({name}, {}), 1), h);
            && after.outputs.data == row.outputs.data + h.stage(name, HandedOf(row))
            && Elements(after.completed) == Elements(row.completed) + {name}
  {
    var name := row.definition.stages[i].name;
    OneWrite(row, Faults({name}, {}), h, i);
    ElementsOfConcat(row.completed, [name]);
  }

  lemma BranchIsUndisturbed(d: Definition, tier: Tier, h: Handlers, data: map<string, string>, m: Moment, es: seq<Event>, b: string)
    requires ValidDefinition(d) && AlwaysAgree(d, tier, h, data) && CanArise(d, tier, m) && Fits(d, tier, h, data, es, m)
    requires b in d.stages[m.i].branches && b !in m.bs
    ensures h.branch(b, HandedAt(d, tier, h, data, m)) == h.branch(b, IdealHanded(d, tier, h, data, m.i))
  {
    var e, start := Call(Faults({b}, {}), 1), Started(d, tier, data);
    var row := History(start, es, h);
    OneBranchPending(row, m.i, m.c, m.bs, b);
    BranchEntry(row, h, m.i, b);
    HistorySnoc(start, es, e, h);
    NamesWhere(row, m.i, m.c, m.bs);
    var gs := Reference(d, tier, h, data, m.i, Elements(m.bs) + {b});
    Agreed(d, tier, h, data, es + [e], gs, After(row, e, h), History(start, gs, h));
    SameEntry(d, tier, h, data, m, b, Entry(After(row, e, h).outputs, d.stages[m.i].name), History(start, gs, h).outputs);
  }

  lemma SameEntry(d: Definition, tier: Tier, h: Handlers, data: map<string, string>, m: Moment, b: string,
                  entry: map<string, string>, o: Outputs)
    requires m.i < |d.stages| && b in entry && entry[b] == h.branch(b, HandedAt(d, tier, h, data, m))
    requires entry == Entry(o, d.stages[m.i].name) && o == OutputsAt(d, tier, h, data, m.i, Elements(m.bs) + {b}, true)
    ensures h.branch(b, HandedAt(d, tier, h, data, m)) == h.branch(b, IdealHanded(d, tier, h, data, m.i))
  {
  }

  lemma BranchEntry(row: Row, h: Handlers, i: nat, b: string)
    requires DistinctNames(row.definition) && i < |row.definition.stages| && row.status == Running
    requires row.current == row.definition.stages[i].name && !IsSkipped(row.tier, row.definition.stages[i])
    requires row.definition.stages[i].branches != [] && Unfinished(row.definition.stages[i].branches, row.completed) != []
    requires Passing(Unfinished(row.definition.stages[i].branches, row.completed), Faults({b}, {})) == [b]
    ensures var after := After(row, Call(Faults({b}, {}), 1), h);
            var entry := Entry(after.outputs, row.definition.stages[i].name);
            && b in entry && entry[b] == h.branch(b, HandedOf(row)) && Elements(after.completed) == Elements(row.completed) + {b}
  {
    OneWrite(row, Faults({b}, {}), h, i);
    CheckpointWritten(row, h, i, Faults({b}, {}), Unfinished(row.definition.stages[i].branches, row.completed), [b]);
    ElementsOfConcat(row.completed, [b]);
    assert b in Elements([b]);
  }

  lemma AgreeingRunsAreSteady(d: Definition, tier: Tier, h: Handlers, data: map<string, string>)
    requires ValidDefinition(d) && AlwaysAgree(d, tier, h, data)
    ensures Steady(d, tier, h, data)
  {
    forall m: Moment | CanArise(d, tier, m)
      ensures Undisturbed(d, tier, h, data, m)
    {
      var es := Arises(d, tier, h, data, m);
      if d.stages[m.i].branches == [] {
        PlainIsUndisturbed(d, tier, h, data, m, es);
      } else {
        forall b | b in d.stages[m.i].branches && b !in m.bs
          ensures h.branch(b, HandedAt(d, tier, h, data, m)) == h.branch(b, IdealHanded(d, tier, h, data, m.i))
        {
          BranchIsUndisturbed(d, tier, h, data, m, es, b);
        }
      }
    }
  }

  /** Histories that have finished the same names always record the same outputs exactly when at every
      stage, with every checkpoint, order and pause that can arise, the handlers due record what they
      would record in an uninterrupted run. */
  lemma AgreeIffSteady(d: Definition, tier: Tier, h: Handlers, data: map<string, string>)
    requires ValidDefinition(d)
    ensures AlwaysAgree(d, tier, h, data) <==> Steady(d, tier, h, data)
  {
    if Steady(d, tier, h, data) {
      SteadyRunsAgree(d, tier, h, data);
    }
    if AlwaysAgree(d, tier, h, data) {
      AgreeingRunsAreSteady(d, tier, h, data);
    }
  }

  // ---------------------------------------------------------------- a handler that looks at its siblings

  const SIBLINGS := Definition("flow", [Stage("checks", false, ["a", "b"])])

  function SeesSibling(s: Handed): bool {
    "checks" in s.outputs.branches && "a" in s.outputs.branches["checks"]
  }

  const WATCHFUL := Handlers((_, _) => map[], (b, s) => if b == "b" && SeesSibling(s) then "late" else "early")

  lemma SiblingsAreValid()
    ensures ValidDefinition(SIBLINGS)
  {
  }

  lemma TwoNames(completed: seq<string>, f: Faults)
    ensures Unfinished(["a", "b"], completed) == (if "a" in completed then [] else ["a"]) + (if "b" in completed then [] else ["b"])
    ensures Passing(["a", "b"], f) == (if Throws(f, "a") then [] else ["a"]) + (if Throws(f, "b") then [] else ["b"])
    ensures Passing(["b"], f) == if Throws(f, "b") then [] else ["b"]
  {
    assert ["a", "b"][..1] == ["a"] && ["a"][..0] == [] && ["b"][..0] == [];
    assert Unfinished(["a"], completed) == Unfinished([], completed) + if "a" in completed then [] else ["a"];
    assert Passing(["a"], f) == Passing([], f) + if Throws(f, "a") then [] else ["a"];
  }

  /** A row of the run at its stage. */
  function Checking(completed: seq<string>, branches: map<string, map<string, string>>): Row {
    Row(SIBLINGS, Medium, "checks", Running, completed, Outputs(map[], branches), None)
  }

  lemma FirstChecked(f: Faults)
    requires !Throws(f, "a")
    ensures var (written, next) := Write(Checking([], map[]), 0, f, WATCHFUL);
            if Throws(f, "b") then written == Checking(["a"], map["checks" := map["a" := "early"]]) && next.End?
            else written == Checking(["a", "b"], map["checks" := map["a" := "early", "b" := "early"]]) && next.Continue?
  {
    var row := Checking([], map[]);
    var passed := Passing(["a", "b"], f);
    TwoNames([], f);
    CheckpointWritten(row, WATCHFUL, 0, f, ["a", "b"], passed);
    EarlyResults(passed, HandedOf(row));
  }

  lemma EarlyResults(passed: seq<string>, s: Handed)
    requires (passed == ["a"] || passed == ["a", "b"]) && !SeesSibling(s)
    ensures map[] + BranchResults(WATCHFUL, Elements(passed), s) ==
            if passed == ["a"] then map["a" := "early"] else map["a" := "early", "b" := "early"]
  {
    assert forall x :: x in Elements(passed) <==> x in passed;
  }

  lemma SecondChecked(f: Faults)
    requires !Throws(f, "b")
    ensures Write(Checking(["a"], map["checks" := map["a" := "early"]]), 0, f, WATCHFUL) ==
            (Checking(["a", "b"], map["checks" := map["a" := "early", "b" := "late"]]), Continue)
  {
    var row := Checking(["a"], map["checks" := map["a" := "early"]]);
    var early, late := map["a" := "early"], map["a" := "early", "b" := "late"];
    SecondPending(f);
    CheckpointWritten(row, WATCHFUL, 0, f, ["b"], ["b"]);
    SecondMerges(HandedOf(row));
    Replaced(early, late);
  }

  lemma Replaced(early: map<string, string>, late: map<string, string>)
    ensures map["checks" := early]["checks" := late] == map["checks" := late]
    ensures Checkpointed(Outputs(map[], map["checks" := early]), SIBLINGS.stages[0]) == early && ["a"] + ["b"] == ["a", "b"]
  {
  }

  lemma SecondPending(f: Faults)
    requires !Throws(f, "b")
    ensures Unfinished(["a", "b"], ["a"]) == ["b"] && Passing(["b"], f) == ["b"]
  {
    TwoNames(["a"], f);
    assert [] + ["b"] == ["b"];
  }

  lemma SecondMerges(s: Handed)
    requires SeesSibling(s)
    ensures map["a" := "early"] + BranchResults(WATCHFUL, Elements(["b"]), s) == map["a" := "early", "b" := "late"]
  {
    assert forall x :: x in Elements(["b"]) <==> x == "b";
    assert BranchResults(WATCHFUL, Elements(["b"]), s) == map["b" := "late"];
  }

  /** The rest of a call once both branches are checkpointed. */
  lemma BothChecked(row: Row, f: Faults, branches: map<string, map<string, string>>)
    requires row.definition == SIBLINGS && row.status == Running && row.current == "checks"
    requires Write(row, 0, f, WATCHFUL) == (Checking(["a", "b"], branches), Continue)
    ensures var after := Advance(row, f, WATCHFUL, 2).row; after.status == Succeeded && after.outputs == Outputs(map[], branches)
  {
    var written := Checking(["a", "b"], branches);
    SiblingsAreValid();
    FindStageAt(SIBLINGS, 0);
    var left := CallUnfolds(row, f, WATCHFUL, 2, 0, written);
    assert Advance(row, f, WATCHFUL, 2).row == Advance(written, f, WATCHFUL, 1).row;
    OneWrite(written, f, WATCHFUL, 0);
    Converged(f, branches);
  }

  lemma Converged(f: Faults, branches: map<string, map<string, string>>)
    ensures var row := Write(Checking(["a", "b"], branches), 0, f, WATCHFUL).0;
            row.status == Succeeded && row.outputs == Outputs(map[], branches)
  {
    TwoNames(["a", "b"], f);
  }

  lemma OneEvent(row: Row, e: Event, h: Handlers)
    ensures History(row, [e], h) == After(row, e, h)
  {
    assert History(row, [e], h) == History(After(row, e, h), [e][1..], h);
  }

  lemma TwoEvents(row: Row, e: Event, f: Event, h: Handlers)
    ensures History(row, [e, f], h) == After(After(row, e, h), f, h)
  {
    assert [e, f][1..] == [f];
    OneEvent(After(row, e, h), f, h);
  }

  /** A branch that looks for the output of its sibling: without faults it finds none, and when it is
      retried after a fault it does. Both runs end, with different outputs. */
  lemma RetriedBranchDiffers()
    ensures var start, ok, fault := Started(SIBLINGS, Medium, map[]), Faults({"a", "b"}, {}), Faults({"a", "b"}, {"b"});
            var a := History(start, [Call(ok, 2)], WATCHFUL);
            var b := History(start, [Call(fault, 2), Call(ok, 2)], WATCHFUL);
            && a.status == Succeeded && a.outputs == Outputs(map[], map["checks" := map["a" := "early", "b" := "early"]])
            && b.status == Succeeded && b.outputs == Outputs(map[], map["checks" := map["a" := "early", "b" := "late"]])
  {
    var start, ok, fault := Checking([], map[]), Faults({"a", "b"}, {}), Faults({"a", "b"}, {"b"});
    var row := Checking(["a"], map["checks" := map["a" := "early"]]);
    assert start == Started(SIBLINGS, Medium, map[]);
    OneEvent(start, Call(ok, 2), WATCHFUL);
    FirstChecked(ok);
    BothChecked(start, ok, map["checks" := map["a" := "early", "b" := "early"]]);
    TwoEvents(start, Call(fault, 2), Call(ok, 2), WATCHFUL);
    FirstChecked(fault);
    FaultyCall(start, fault, row);
    SecondChecked(ok);
    BothChecked(row, ok, map["checks" := map["a" := "early", "b" := "late"]]);
  }

  lemma FaultyCall(row: Row, f: Faults, written: Row)
    requires row.definition == SIBLINGS && row.status == Running && row.current == "checks"
    requires Write(row, 0, f, WATCHFUL).0 == written && Write(row, 0, f, WATCHFUL).1.End?
    ensures After(row, Call(f, 2), WATCHFUL) == written
  {
    SiblingsAreValid();
    FindStageAt(SIBLINGS, 0);
  }
}
