/** A persisted workflow run: the row, the writes that `advance` makes to it one by one, and the
    state a run without faults reaches stage by stage. */
module WorkflowModel {
  import opened Optional
  import opened Graphs

  datatype Tier = Low | Medium | High

  datatype Status = Running | Paused | WaitingApproval | Succeeded | Failed | Blocked | Cancelled

  /** `branches` are the names of the fan-out sub-stages; a plain stage has none. */
  datatype Stage = Stage(name: string, lowRiskSkip: bool, branches: seq<string>)

  datatype Definition = Definition(name: string, stages: seq<Stage>)

  /** What handlers wrote: keys merged by plain stages, and per fan-out stage the output of each branch. */
  datatype Outputs = Outputs(data: map<string, string>, branches: map<string, map<string, string>>)

  /** `pendingApproval` is the object stored by the last pause: the action and the resource reference. */
  datatype Row = Row(definition: Definition, tier: Tier, current: string, status: Status,
                     completed: seq<string>, outputs: Outputs, pendingApproval: Option<map<string, string>>)

  /** The part of the state a handler is handed that changes during a run: the outputs, with what is
      checkpointed of the current stage, the finished names in order, and the last pause. */
  datatype Handed = Handed(outputs: Outputs, completed: seq<string>, pendingApproval: Option<map<string, string>>)

  /** Deterministic handlers: what they return depends on the stage or branch name and on what they are handed. */
  datatype Handlers = Handlers(stage: (string, Handed) -> map<string, string>, branch: (string, Handed) -> string)

  /** The environment of one call: which handlers are registered, and which of them throw this time. */
  datatype Faults = Faults(registered: set<string>, failing: set<string>)

  const DONE := "__done__"

  predicate Throws(f: Faults, name: string) {
    name !in f.registered || name in f.failing
  }

  function FindStage(stages: seq<Stage>, name: string): (i: nat)
    ensures i <= |stages|
    ensures i < |stages| ==> stages[i].name == name
    ensures forall j :: 0 <= j < i ==> stages[j].name != name
  {
    if stages == [] then 0 else if stages[0].name == name then 0 else 1 + FindStage(stages[1..], name)
  }

  predicate IsSkipped(tier: Tier, stage: Stage) {
    tier == Low && stage.lowRiskSkip
  }

  function HandedOf(row: Row): Handed {
    Handed(row.outputs, row.completed, row.pendingApproval)
  }

  function Unfinished(branches: seq<string>, completed: seq<string>): seq<string> {
    if branches == [] then []
    else
      var n := |branches| - 1;
      Unfinished(branches[..n], completed) + if branches[n] in completed then [] else [branches[n]]
  }

  function Passing(names: seq<string>, f: Faults): seq<string> {
    if names == [] then []
    else
      var n := |names| - 1;
      Passing(names[..n], f) + if Throws(f, names[n]) then [] else [names[n]]
  }

  function BranchResults(h: Handlers, names: set<string>, s: Handed): map<string, string> {
    map b | b in names :: h.branch(b, s)
  }

  function Checkpointed(o: Outputs, stage: Stage): map<string, string> {
    if stage.name in o.branches then o.branches[stage.name] else map[]
  }

  /** A write that leaves stage `i` behind. An empty name does not replace the current stage. */
  function MoveOn(row: Row, i: nat): Row
    requires i < |row.definition.stages|
  {
    var stages := row.definition.stages;
    if i + 1 >= |stages| then row.(current := DONE, status := Succeeded)
    else if stages[i + 1].name != "" then row.(current := stages[i + 1].name)
    else row
  }

  datatype Outcome =
    | Advanced(status: Status, current: Option<string>)
    | Crashed
    | ConflictError
    | NotFoundError
    | UnknownStageError
    | NoHandlerError(stage: string)
    | StageError(stage: string)
    | FanOutError(stage: string, failed: nat)

  /** What a call does after a write: make another one, or end. */
  datatype Next = Continue | End(outcome: Outcome)

  function Reported(row: Row): Outcome {
    Advanced(row.status, if row.status == Succeeded then None else Some(row.current))
  }

  /** The next write to the row of a running run, whatever call makes it. */
  function Write(row: Row, i: nat, f: Faults, h: Handlers): (Row, Next)
    requires i < |row.definition.stages|
  {
    var stage := row.definition.stages[i];
    if IsSkipped(row.tier, stage) then
      var moved := MoveOn(row.(completed := row.completed + [stage.name]), i);
      (moved, if moved.status == Succeeded then End(Reported(moved)) else Continue)
    else if stage.branches != [] then
      var pending := Unfinished(stage.branches, row.completed);
      if pending == [] then
        var moved := MoveOn(row.(completed := row.completed + [stage.name]), i);
        (moved, End(Reported(moved)))
      else
        var passed := Passing(pending, f);
        var merged := Checkpointed(row.outputs, stage) + BranchResults(h, Elements(passed), HandedOf(row));
        (row.(completed := row.completed + passed, outputs := row.outputs.(branches := row.outputs.branches[stage.name := merged])),
         if |passed| < |pending| then End(FanOutError(stage.name, |pending| - |passed|)) else Continue)
    else if stage.name !in f.registered then (row.(status := Blocked), End(NoHandlerError(stage.name)))
    else if stage.name in f.failing then (row.(status := Failed), End(StageError(stage.name)))
    else
      var output := h.stage(stage.name, HandedOf(row));
      var moved := MoveOn(row.(completed := row.completed + [stage.name],
                               outputs := row.outputs.(data := row.outputs.data + output)), i);
      (moved, End(Reported(moved)))
  }

  /** The handlers called in preparation of that write. */
  function Calls(row: Row, i: nat, f: Faults): set<string>
    requires i < |row.definition.stages|
  {
    var stage := row.definition.stages[i];
    if IsSkipped(row.tier, stage) then {}
    else if stage.branches != [] then Elements(Unfinished(stage.branches, row.completed)) * f.registered
    else {stage.name} * f.registered
  }

  datatype Progress = Progress(row: Row, outcome: Outcome, called: set<string>)

  /** One call of `advance` that lives for `budget` writes. */
  function Advance(row: Row, f: Faults, h: Handlers, budget: nat): Progress
    decreases budget
  {
    var i := FindStage(row.definition.stages, row.current);
    if row.status != Running then Progress(row, ConflictError, {})
    else if i == |row.definition.stages| then Progress(row, UnknownStageError, {})
    else if budget == 0 then Progress(row, Crashed, Calls(row, i, f))
    else
      var (written, next) := Write(row, i, f, h);
      match next
      case End(outcome) => Progress(written, outcome, Calls(row, i, f))
      case Continue =>
        var rest := Advance(written, f, h, budget - 1);
        Progress(rest.row, rest.outcome, Calls(row, i, f) + rest.called)
  }

  // ---------------------------------------------------------------- fault-free reference

  /** Names of stages and branches are pairwise distinct. */
  ghost predicate DistinctNames(d: Definition) {
    && d.stages != []
    && (forall i :: 0 <= i < |d.stages| ==> NoDuplicates(d.stages[i].branches))
    && (forall i, j :: 0 <= i < j < |d.stages| ==> d.stages[i].name != d.stages[j].name)
    && (forall i, j :: 0 <= i < |d.stages| && 0 <= j < |d.stages| ==> d.stages[j].name !in d.stages[i].branches)
    && (forall i, j, b :: 0 <= i < j < |d.stages| && b in d.stages[i].branches ==> b !in d.stages[j].branches)
  }

  /** Every stage a run can move on to has a name. */
  ghost predicate LaterStagesNamed(d: Definition) {
    forall i :: 0 < i < |d.stages| ==> d.stages[i].name != ""
  }

  ghost predicate ValidDefinition(d: Definition) {
    DistinctNames(d) && LaterStagesNamed(d)
  }

  function StageNames(tier: Tier, stage: Stage): set<string> {
    {stage.name} + if IsSkipped(tier, stage) then {} else Elements(stage.branches)
  }

  /** The stages and branches finished once the first `i` stages are. */
  ghost function NamesBefore(d: Definition, tier: Tier, i: nat): set<string>
    requires i <= |d.stages|
  {
    if i == 0 then {} else NamesBefore(d, tier, i - 1) + StageNames(tier, d.stages[i - 1])
  }

  /** The same in the order of a run in which nothing fails. */
  function Canon(d: Definition, tier: Tier, i: nat): seq<string>
    requires i <= |d.stages|
  {
    if i == 0 then []
    else
      var stage := d.stages[i - 1];
      Canon(d, tier, i - 1) + (if IsSkipped(tier, stage) then [] else stage.branches) + [stage.name]
  }

  /** The outputs on entering stage `i` when nothing ever fails or pauses. */
  function Ideal(d: Definition, tier: Tier, h: Handlers, data: map<string, string>, i: nat): Outputs
    requires i <= |d.stages|
  {
    if i == 0 then Outputs(data, map[])
    else
      var before := Ideal(d, tier, h, data, i - 1);
      var s := Handed(before, Canon(d, tier, i - 1), None);
      var stage := d.stages[i - 1];
      if IsSkipped(tier, stage) then before
      else if stage.branches != [] then
        before.(branches := before.branches[stage.name := BranchResults(h, Elements(stage.branches), s)])
      else before.(data := before.data + h.stage(stage.name, s))
  }

  /** What handlers are handed on entering stage `i` in such a run. */
  function IdealHanded(d: Definition, tier: Tier, h: Handlers, data: map<string, string>, i: nat): Handed
    requires i <= |d.stages|
  {
    Handed(Ideal(d, tier, h, data, i), Canon(d, tier, i), None)
  }
}
