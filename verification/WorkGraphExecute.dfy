/** `WorkGraph.execute`: the level-by-level executor. Within a level all tasks start in listing
    order and finish in an arbitrary order; the specification `RunLevel` mentions no such order. */
module WorkGraphExecute {
  import opened Optional
  import opened Graphs
  import opened WorkGraphLevels
  import opened WorkGraphCompile

  type Context = map<string, string>

  datatype Outcome = Returned(output: string) | Raised(message: string)

  /** Handlers and named conditions, as functions of the context they are called with. */
  datatype Environment = Environment(run: (string, Context) -> Outcome, conditions: map<string, Context -> bool>)

  datatype SkipReason = ConditionNotMet(name: string) | DependencySkipped

  datatype BlockReason = DependencyBlocked | HandlerRaised(message: string)

  datatype Report = Completed(output: string) | Skipped(why: SkipReason) | Blocked(cause: BlockReason)

  datatype Result = Result(id: string, report: Report)

  datatype State = State(ctx: Context, blocked: set<string>, skipped: set<string>)

  /** What a task does before its first suspension: settle at once, or start its handler. */
  datatype Decision = Settle(report: Report) | Start

  function ConditionOf(nodes: seq<Node>, x: string): Option<string> {
    if nodes == [] then None
    else if nodes[0].id == x then nodes[0].condition
    else ConditionOf(nodes[1..], x)
  }

  predicate ConditionFails(env: Environment, condition: Option<string>, ctx: Context) {
    condition.Some? && condition.value != "" && condition.value in env.conditions && !env.conditions[condition.value](ctx)
  }

  predicate SomeIn(deps: seq<string>, s: set<string>) {
    exists i :: 0 <= i < |deps| && deps[i] in s
  }

  function Decide(nodes: seq<Node>, env: Environment, st: State, x: string): Decision {
    var deps := Deps(nodes, x);
    if SomeIn(deps, st.blocked) then Settle(Blocked(DependencyBlocked))
    else if ConditionFails(env, ConditionOf(nodes, x), st.ctx) then
      Settle(Skipped(ConditionNotMet(ConditionOf(nodes, x).value)))
    else if SomeIn(deps, st.skipped) then Settle(Skipped(DependencySkipped))
    else Start
  }

  /** The sets a task updates before its first suspension. A false condition is not among them. */
  function AfterDecision(st: State, x: string, d: Decision): State {
    if d == Settle(Blocked(DependencyBlocked)) then st.(blocked := st.blocked + {x})
    else if d == Settle(Skipped(DependencySkipped)) then st.(skipped := st.skipped + {x})
    else st
  }

  function StartAll(nodes: seq<Node>, env: Environment, level: seq<string>, st: State): (r: (seq<Decision>, State))
    ensures |r.0| == |level|
  {
    if level == [] then ([], st)
    else
      var n := |level| - 1;
      var (ds, mid) := StartAll(nodes, env, level[..n], st);
      var d := Decide(nodes, env, mid, level[n]);
      (ds + [d], AfterDecision(mid, level[n], d))
  }

  function Started(level: seq<string>, ds: seq<Decision>): set<string>
    requires |ds| == |level|
  {
    set i | 0 <= i < |level| && ds[i] == Start :: level[i]
  }

  function FinalReport(env: Environment, ctx: Context, x: string, d: Decision): Report {
    match d
    case Settle(report) => report
    case Start =>
      match env.run(x, ctx)
      case Returned(output) => Completed(output)
      case Raised(message) => Blocked(HandlerRaised(message))
  }

  function Reports(env: Environment, ctx: Context, level: seq<string>, ds: seq<Decision>): seq<Result>
    requires |ds| == |level|
  {
    seq(|level|, i requires 0 <= i < |level| => Result(level[i], FinalReport(env, ctx, level[i], ds[i])))
  }

  function Outputs(env: Environment, ctx: Context, ids: set<string>): Context {
    map x | x in ids && env.run(x, ctx).Returned? :: env.run(x, ctx).output
  }

  function RaisedAmong(env: Environment, ctx: Context, ids: set<string>): set<string> {
    set x | x in ids && env.run(x, ctx).Raised?
  }

  function SkippedIn(results: seq<Result>): set<string> {
    set i | 0 <= i < |results| && results[i].report.Skipped? :: results[i].id
  }

  /** One level, without reference to completion order. */
  function RunLevel(nodes: seq<Node>, env: Environment, level: seq<string>, st: State): (seq<Result>, State) {
    var (ds, mid) := StartAll(nodes, env, level, st);
    var ids := Started(level, ds);
    var results := Reports(env, st.ctx, level, ds);
    (results, State(st.ctx + Outputs(env, st.ctx, ids),
                    mid.blocked + RaisedAmong(env, st.ctx, ids),
                    mid.skipped + SkippedIn(results)))
  }

  function RunLevels(nodes: seq<Node>, env: Environment, levels: seq<seq<string>>, st: State): (seq<Result>, State) {
    if levels == [] then ([], st)
    else
      var n := |levels| - 1;
      var (before, mid) := RunLevels(nodes, env, levels[..n], st);
      var (now, after) := RunLevel(nodes, env, levels[n], mid);
      (before + now, after)
  }

  // ---------------------------------------------------------------- the executor

  method StartTasks(nodes: seq<Node>, env: Environment, level: seq<string>, st0: State)
      returns (ds: seq<Decision>, st: State)
    ensures (ds, st) == StartAll(nodes, env, level, st0)
  {
    ds, st := [], st0;
    var i := 0;
    while i < |level|
      invariant 0 <= i <= |level| && (ds, st) == StartAll(nodes, env, level[..i], st0)
    {
      assert level[..i + 1][..i] == level[..i];
      var d := Decide(nodes, env, st, level[i]);
      ds, st := ds + [d], AfterDecision(st, level[i], d);
      i := i + 1;
    }
    assert level[..i] == level;
  }

  // ---------------------------------------------------------------- what is stored, and who reads it

  /** The outputs of the completed results. */
  function Stored(results: seq<Result>): Context {
    if results == [] then map[]
    else
      var n := |results| - 1;
      match results[n].report
      case Completed(output) => Stored(results[..n])[results[n].id := output]
      case _ => Stored(results[..n])
  }

  lemma {:induction false} StoredAppend(a: seq<Result>, b: seq<Result>)
    ensures Stored(a + b) == Stored(a) + Stored(b)
  {
    if b == [] {
      assert a + b == a;
    } else {
      var n := |b| - 1;
      assert (a + b)[..|a| + n] == a + b[..n];
      StoredAppend(a, b[..n]);
    }
  }

  lemma {:induction false} StoredMembers(results: seq<Result>, x: string)
    requires x in Stored(results)
    ensures exists i :: 0 <= i < |results| && results[i] == Result(x, Completed(Stored(results)[x]))
  {
    var n := |results| - 1;
    if results[n].report.Completed? && results[n].id == x {
      assert results[n] == Result(x, Completed(Stored(results)[x]));
    } else {
      StoredMembers(results[..n], x);
      var i :| 0 <= i < n && results[..n][i] == Result(x, Completed(Stored(results[..n])[x]));
      assert results[i] == results[..n][i];
    }
  }

  lemma {:induction false} CompletedIsStored(results: seq<Result>, i: nat)
    requires i < |results| && results[i].report.Completed?
    requires forall j :: 0 <= j < |results| && j != i ==> results[j].id != results[i].id
    ensures results[i].id in Stored(results) && Stored(results)[results[i].id] == results[i].report.output
  {
    var n := |results| - 1;
    if i < n {
      CompletedIsStored(results[..n], i);
    }
  }

  // ---------------------------------------------------------------- handlers on a shared context

  /** The environment in which each handler of `ran` returns what it returned, whatever the context. */
  function Fixed(env: Environment, ran: map<string, Outcome>): Environment {
    env.(run := (id, c) => if id in ran then ran[id] else env.run(id, c))
  }

  /** What a handler returned is what it returns on some context. */
  ghost predicate Truthful(env: Environment, ran: map<string, Outcome>) {
    forall id :: id in ran ==> exists c :: ran[id] == env.run(id, c)
  }

  /** The handlers of a level do not depend on what the context holds under the ids of that level. */
  ghost predicate IgnoreSiblings(env: Environment, level: seq<string>) {
    forall id, c: Context, d: Context :: id in level && c - Elements(level) == d - Elements(level) ==> env.run(id, c) == env.run(id, d)
  }

  /** The context differs from `ctx0` at most in what tasks of `started` stored. */
  ghost predicate SharedSince(ctx0: Context, started: set<string>, c: Context) {
    c - started == ctx0 - started
  }

  /** Each handler of `ran` returned what it returns on a context that only siblings have changed. */
  ghost predicate RanOn(env: Environment, ctx0: Context, started: set<string>, ran: map<string, Outcome>) {
    forall id :: id in ran ==> exists c: Context :: SharedSince(ctx0, started, c) && ran[id] == env.run(id, c)
  }

  /** Lets the started handlers finish one by one, in whatever order they happen to. They share the
      context: each may have read it at any moment since the level began. */
  method FinishTasks(env: Environment, started: set<string>, ctx0: Context, blocked0: set<string>)
      returns (ctx: Context, blocked: set<string>, ran: map<string, Outcome>)
    ensures ran.Keys == started && RanOn(env, ctx0, started, ran)
    ensures ctx == ctx0 + Outputs(Fixed(env, ran), ctx0, started)
    ensures blocked == blocked0 + RaisedAmong(Fixed(env, ran), ctx0, started)
  {
    ctx, blocked, ran := ctx0, blocked0, map[];
    var past := [ctx0];
    var pending := started;
    assert ctx0 + map[] == ctx0;
    while pending != {}
      invariant pending <= started && ran.Keys == started - pending && RanOn(env, ctx0, started, ran)
      invariant past != [] && forall i :: 0 <= i < |past| ==> SharedSince(ctx0, started, past[i])
      invariant SharedSince(ctx0, started, ctx)
      invariant ctx == ctx0 + Outputs(Fixed(env, ran), ctx0, started - pending)
      invariant blocked == blocked0 + RaisedAmong(Fixed(env, ran), ctx0, started - pending)
      decreases pending
    {
      var id :| id in pending;
      var moment :| 0 <= moment < |past|;
      ctx, blocked, ran := FinishTask(env, id, past[moment], started, started - pending, ctx0, blocked0, ctx, blocked, ran);
      assert started - (pending - {id}) == started - pending + {id};
      pending := pending - {id};
      past := past + [ctx];
    }
    assert started - {} == started;
  }

  /** One handler finishes, having read the context as it was in `seen`. */
  method FinishTask(env: Environment, id: string, seen: Context, ghost started: set<string>, ghost finished: set<string>,
                    ghost ctx0: Context, ghost blocked0: set<string>, c: Context, b: set<string>, r: map<string, Outcome>)
      returns (ctx: Context, blocked: set<string>, ran: map<string, Outcome>)
    requires id in started && id !in finished && r.Keys == finished && RanOn(env, ctx0, started, r)
    requires SharedSince(ctx0, started, seen) && SharedSince(ctx0, started, c)
    requires c == ctx0 + Outputs(Fixed(env, r), ctx0, finished) && b == blocked0 + RaisedAmong(Fixed(env, r), ctx0, finished)
    ensures ran.Keys == finished + {id} && RanOn(env, ctx0, started, ran) && SharedSince(ctx0, started, ctx)
    ensures ctx == ctx0 + Outputs(Fixed(env, ran), ctx0, finished + {id})
    ensures blocked == blocked0 + RaisedAmong(Fixed(env, ran), ctx0, finished + {id})
  {
    var outcome := env.run(id, seen);
    FinishedContext(env, r, ctx0, blocked0, finished, id, outcome);
    OneMoreRan(env, ctx0, started, r, id, seen);
    ctx, blocked, ran := c, b, r[id := outcome];
    if outcome.Returned? {
      ctx := ctx[id := outcome.output];
      StoredSince(ctx0, started, c, id, outcome.output);
    } else {
      blocked := blocked + {id};
    }
  }

  lemma FinishedContext(env: Environment, r: map<string, Outcome>, ctx0: Context, blocked0: set<string>, finished: set<string>,
                        id: string, outcome: Outcome)
    requires r.Keys == finished && id !in finished
    ensures var after, before := Fixed(env, r[id := outcome]), Fixed(env, r);
            && ctx0 + Outputs(after, ctx0, finished + {id}) ==
                 (if outcome.Returned? then (ctx0 + Outputs(before, ctx0, finished))[id := outcome.output]
                  else ctx0 + Outputs(before, ctx0, finished))
            && blocked0 + RaisedAmong(after, ctx0, finished + {id}) ==
                 blocked0 + RaisedAmong(before, ctx0, finished) + if outcome.Raised? then {id} else {}
  {
    var outputs, raised := Outputs(Fixed(env, r), ctx0, finished), RaisedAmong(Fixed(env, r), ctx0, finished);
    FinishOne(env, r, ctx0, finished, id, outcome);
    if outcome.Returned? {
      assert ctx0 + outputs[id := outcome.output] == (ctx0 + outputs)[id := outcome.output];
    }
    assert blocked0 + (raised + {id}) == blocked0 + raised + {id};
    assert blocked0 + (raised + {}) == blocked0 + raised + {};
  }

  lemma OneMoreRan(env: Environment, ctx0: Context, started: set<string>, r: map<string, Outcome>, id: string, seen: Context)
    requires RanOn(env, ctx0, started, r) && SharedSince(ctx0, started, seen)
    ensures RanOn(env, ctx0, started, r[id := env.run(id, seen)])
  {
  }

  lemma StoredSince(ctx0: Context, started: set<string>, c: Context, id: string, output: string)
    requires SharedSince(ctx0, started, c) && id in started
    ensures SharedSince(ctx0, started, c[id := output])
  {
    assert c[id := output] - started == c - started;
  }

  lemma FinishOne(env: Environment, ran: map<string, Outcome>, ctx: Context, finished: set<string>, id: string, outcome: Outcome)
    requires ran.Keys == finished && id !in finished
    ensures Outputs(Fixed(env, ran[id := outcome]), ctx, finished + {id}) ==
            match outcome
            case Returned(output) => Outputs(Fixed(env, ran), ctx, finished)[id := output]
            case Raised(_) => Outputs(Fixed(env, ran), ctx, finished)
    ensures RaisedAmong(Fixed(env, ran[id := outcome]), ctx, finished + {id}) ==
            RaisedAmong(Fixed(env, ran), ctx, finished) + if outcome.Raised? then {id} else {}
  {
  }

  /** One level; `ran` is what its handlers returned. */
  method ExecuteLevel(nodes: seq<Node>, env: Environment, level: seq<string>, st0: State)
      returns (results: seq<Result>, st: State, ran: map<string, Outcome>)
    ensures (results, st) == RunLevel(nodes, Fixed(env, ran), level, st0)
    ensures ran.Keys <= Elements(level) && Truthful(env, ran)
    ensures st.ctx == st0.ctx + Stored(results)
    ensures DistinctIds(nodes) && NoDuplicates(level) ==> LevelAccounted(nodes, env, level, st0.ctx, results, ran)
    ensures IgnoreSiblings(env, level) ==> (results, st) == RunLevel(nodes, env, level, st0)
  {
    var ds, mid := StartTasks(nodes, env, level, st0);
    AfterStartKeepsContext(nodes, env, level, st0);
    var ctx, blocked;
    ctx, blocked, ran := FinishTasks(env, Started(level, ds), mid.ctx, mid.blocked);
    StartsAlike(nodes, env, Fixed(env, ran), level, st0);
    var skipped;
    results, skipped := SettleTasks(Fixed(env, ran), level, ds, st0.ctx, mid.skipped);
    st := State(ctx, blocked, skipped);
    LevelStores(nodes, Fixed(env, ran), level, st0);
    if DistinctIds(nodes) && NoDuplicates(level) {
      forall i | 0 <= i < |level|
        ensures Accounts(nodes, env, level, st0.ctx, results[i], ran)
      {
        ResultAccounts(nodes, env, level, st0, ran, i);
      }
    }
    if IgnoreSiblings(env, level) {
      SiblingsIgnored(nodes, env, level, st0, ran, Started(level, ds));
    }
  }

  method SettleTasks(env: Environment, level: seq<string>, ds: seq<Decision>, ctx: Context, skipped0: set<string>)
      returns (results: seq<Result>, skipped: set<string>)
    requires |ds| == |level|
    ensures results == Reports(env, ctx, level, ds) && skipped == skipped0 + SkippedIn(results)
  {
    results, skipped := [], skipped0;
    var i := 0;
    while i < |level|
      invariant 0 <= i <= |level|
      invariant results == Reports(env, ctx, level, ds)[..i]
      invariant skipped == skipped0 + SkippedIn(results)
    {
      var r := Result(level[i], FinalReport(env, ctx, level[i], ds[i]));
      SkippedNext(results, r);
      if r.report.Skipped? {
        skipped := skipped + {r.id};
      }
      results := results + [r];
      i := i + 1;
    }
    assert results == Reports(env, ctx, level, ds);
  }

  // ---------------------------------------------------------------- each result accounted for

  /** The node `x` has the condition `name`, which is registered and yields false on `ctx`. */
  ghost predicate YieldsFalse(nodes: seq<Node>, env: Environment, x: string, ctx: Context, name: string) {
    && (exists j :: 0 <= j < |nodes| && nodes[j].id == x && nodes[j].condition == Some(name))
    && name != "" && name in env.conditions && env.conditions[name](ctx) == false
  }

  /** The handler of `x` returned what it returns on a context that differs from `before` at most in what
      its siblings stored. */
  ghost predicate ReadBeside(env: Environment, level: seq<string>, before: Context, x: string, outcome: Outcome) {
    exists c: Context :: c - Elements(level) == before - Elements(level) && outcome == env.run(x, c)
  }

  /** What a result of a level says about handlers and conditions: which handlers ran, on what, with what
      outcome; and that the own condition of a node skips it exactly when it is false as the level begins. */
  ghost predicate Accounts(nodes: seq<Node>, env: Environment, level: seq<string>, before: Context, r: Result, ran: map<string, Outcome>) {
    && (forall output :: r.report == Completed(output) <==> r.id in ran && ran[r.id] == Returned(output))
    && (forall message :: r.report == Blocked(HandlerRaised(message)) <==> r.id in ran && ran[r.id] == Raised(message))
    && (r.id in ran ==> ReadBeside(env, level, before, r.id, ran[r.id]))
    && (forall name :: r.report == Skipped(ConditionNotMet(name)) <==>
          r.report != Blocked(DependencyBlocked) && YieldsFalse(nodes, env, r.id, before, name))
  }

  lemma {:induction false} ConditionOfNode(nodes: seq<Node>, x: string, name: string)
    requires DistinctIds(nodes)
    ensures ConditionOf(nodes, x) == Some(name) <==>
            exists j :: 0 <= j < |nodes| && nodes[j].id == x && nodes[j].condition == Some(name)
  {
    if nodes != [] {
      ConditionOfNode(nodes[1..], x, name);
      assert forall j :: 0 < j < |nodes| ==> nodes[j] == nodes[1..][j - 1];
      if nodes[0].id != x && ConditionOf(nodes, x) == Some(name) {
        var j :| 0 <= j < |nodes[1..]| && nodes[1..][j].id == x && nodes[1..][j].condition == Some(name);
        assert nodes[j + 1].id == x;
      }
    }
  }

  /** Each task decided on the context its level began with. */
  lemma {:induction false} DecidedOn(nodes: seq<Node>, env: Environment, level: seq<string>, st: State, i: nat) returns (mid: State)
    requires i < |level|
    ensures mid.ctx == st.ctx && StartAll(nodes, env, level, st).0[i] == Decide(nodes, env, mid, level[i])
  {
    var n := |level| - 1;
    if i < n {
      mid := DecidedOn(nodes, env, level[..n], st, i);
    } else {
      mid := StartAll(nodes, env, level[..n], st).1;
      AfterStartKeepsContext(nodes, env, level[..n], st);
    }
  }

  lemma DecisionReports(nodes: seq<Node>, env: Environment, st: State, x: string, name: string)
    requires DistinctIds(nodes)
    ensures var r := FinalReport(env, st.ctx, x, Decide(nodes, env, st, x));
            r == Skipped(ConditionNotMet(name)) <==> r != Blocked(DependencyBlocked) && YieldsFalse(nodes, env, x, st.ctx, name)
  {
    ConditionOfNode(nodes, x, name);
  }

  lemma ResultAccounts(nodes: seq<Node>, env: Environment, level: seq<string>, st: State, ran: map<string, Outcome>, i: nat)
    requires DistinctIds(nodes) && NoDuplicates(level) && i < |level|
    requires ran.Keys == Started(level, StartAll(nodes, env, level, st).0) && RanOn(env, st.ctx, ran.Keys, ran)
    ensures Accounts(nodes, env, level, st.ctx, RunLevel(nodes, Fixed(env, ran), level, st).0[i], ran)
  {
    StartsAlike(nodes, env, Fixed(env, ran), level, st);
    var x, d := level[i], StartAll(nodes, env, level, st).0[i];
    var mid := DecidedOn(nodes, env, level, st, i);
    StartedIff(level, StartAll(nodes, env, level, st).0, i);
    forall name
      ensures FinalReport(Fixed(env, ran), st.ctx, x, d) == Skipped(ConditionNotMet(name)) <==>
              FinalReport(Fixed(env, ran), st.ctx, x, d) != Blocked(DependencyBlocked) && YieldsFalse(nodes, env, x, st.ctx, name)
    {
      DecisionReports(nodes, env, mid, x, name);
    }
    if x in ran {
      var c: Context :| SharedSince(st.ctx, ran.Keys, c) && ran[x] == env.run(x, c);
      SameOutside(c, st.ctx, ran.Keys, Elements(level));
    }
  }

  lemma StartedIff(level: seq<string>, ds: seq<Decision>, i: nat)
    requires NoDuplicates(level) && |ds| == |level| && i < |level|
    ensures level[i] in Started(level, ds) <==> ds[i] == Start
  {
  }

  /** A level adds the outputs of its completed results to the context and nothing else. */
  lemma LevelStores(nodes: seq<Node>, env: Environment, level: seq<string>, st: State)
    ensures RunLevel(nodes, env, level, st).1.ctx == st.ctx + Stored(RunLevel(nodes, env, level, st).0)
  {
    var ds := StartAll(nodes, env, level, st).0;
    forall i | 0 <= i < |ds|
      ensures ds[i].Settle? ==> !ds[i].report.Completed?
    {
      var _ := DecidedOn(nodes, env, level, st, i);
    }
    ReportsStore(env, st.ctx, level, ds);
  }

  lemma {:induction false} ReportsStore(env: Environment, ctx: Context, level: seq<string>, ds: seq<Decision>)
    requires |ds| == |level| && forall i :: 0 <= i < |ds| ==> ds[i].Settle? ==> !ds[i].report.Completed?
    ensures Stored(Reports(env, ctx, level, ds)) == Outputs(env, ctx, Started(level, ds))
  {
    if level != [] {
      var n := |level| - 1;
      ReportsStore(env, ctx, level[..n], ds[..n]);
      assert Reports(env, ctx, level, ds)[..n] == Reports(env, ctx, level[..n], ds[..n]);
      assert Started(level, ds) == Started(level[..n], ds[..n]) + if ds[n] == Start then {level[n]} else {};
    }
  }

  /** The results list the levels one after another, each accounted for on what `ctx0` and the outputs of the
      levels before it hold. */
  ghost predicate Accounted(nodes: seq<Node>, env: Environment, levels: seq<seq<string>>, ctx0: Context, results: seq<Result>,
                            ran: map<string, Outcome>)
  {
    if levels == [] then results == []
    else
      var n := |levels| - 1;
      var m := |results| - |levels[n]|;
      && m >= 0 && Accounted(nodes, env, levels[..n], ctx0, results[..m], ran)
      && LevelAccounted(nodes, env, levels[n], ctx0 + Stored(results[..m]), results[m..], ran)
  }

  ghost predicate LevelAccounted(nodes: seq<Node>, env: Environment, level: seq<string>, before: Context, now: seq<Result>,
                                 ran: map<string, Outcome>)
  {
    |now| == |level| && forall i :: 0 <= i < |now| ==> now[i].id == level[i] && Accounts(nodes, env, level, before, now[i], ran)
  }

  lemma {:induction false} AccountedIds(nodes: seq<Node>, env: Environment, levels: seq<seq<string>>, ctx0: Context,
                                        results: seq<Result>, ran: map<string, Outcome>)
    requires Accounted(nodes, env, levels, ctx0, results, ran)
    ensures |results| == |Flatten(levels)| && forall i :: 0 <= i < |results| ==> results[i].id == Flatten(levels)[i]
  {
    if levels != [] {
      var n := |levels| - 1;
      AccountedIds(nodes, env, levels[..n], ctx0, results[..|results| - |levels[n]|], ran);
    }
  }

  /** Accounts of a level do not depend on handlers that ran elsewhere. */
  lemma AccountsElsewhere(nodes: seq<Node>, env: Environment, level: seq<string>, before: Context, r: Result,
                          ran: map<string, Outcome>, more: map<string, Outcome>)
    requires Accounts(nodes, env, level, before, r, ran)
    requires (r.id in ran <==> r.id in more) && (r.id in ran ==> ran[r.id] == more[r.id])
    ensures Accounts(nodes, env, level, before, r, more)
  {
  }

  lemma {:induction false} AccountedElsewhere(nodes: seq<Node>, env: Environment, levels: seq<seq<string>>, ctx0: Context,
                                              results: seq<Result>, ran: map<string, Outcome>, more: map<string, Outcome>)
    requires Accounted(nodes, env, levels, ctx0, results, ran) && Elements(Flatten(levels)) !! more.Keys
    ensures Accounted(nodes, env, levels, ctx0, results, ran + more)
  {
    if levels != [] {
      var n := |levels| - 1;
      var m := |results| - |levels[n]|;
      ElementsOfConcat(Flatten(levels[..n]), levels[n]);
      AccountedElsewhere(nodes, env, levels[..n], ctx0, results[..m], ran, more);
      LevelElsewhere(nodes, env, levels[n], ctx0 + Stored(results[..m]), results[m..], ran, ran + more);
    }
  }

  lemma LevelElsewhere(nodes: seq<Node>, env: Environment, level: seq<string>, before: Context, now: seq<Result>,
                       ran: map<string, Outcome>, more: map<string, Outcome>)
    requires LevelAccounted(nodes, env, level, before, now, ran)
    requires forall x :: x in Elements(level) ==> (x in ran <==> x in more) && (x in ran ==> ran[x] == more[x])
    ensures LevelAccounted(nodes, env, level, before, now, more)
  {
    forall i | 0 <= i < |now|
      ensures Accounts(nodes, env, level, before, now[i], more)
    {
      assert now[i].id in Elements(level);
      AccountsElsewhere(nodes, env, level, before, now[i], ran, more);
    }
  }

  lemma AccountedNext(nodes: seq<Node>, env: Environment, levels: seq<seq<string>>, k: nat, ctx0: Context, results: seq<Result>,
                      ran: map<string, Outcome>, now: seq<Result>, more: map<string, Outcome>)
    requires k < |levels| && Accounted(nodes, env, levels[..k], ctx0, results, ran)
    requires LevelAccounted(nodes, env, levels[k], ctx0 + Stored(results), now, more)
    requires Elements(Flatten(levels[..k])) !! Elements(levels[k])
    requires ran.Keys <= Elements(Flatten(levels[..k])) && more.Keys <= Elements(levels[k])
    ensures Accounted(nodes, env, levels[..k + 1], ctx0, results + now, ran + more)
  {
    AccountedElsewhere(nodes, env, levels[..k], ctx0, results, ran, more);
    var all, upTo := results + now, levels[..k + 1];
    assert upTo[..k] == levels[..k] && all[..|results|] == results && all[|results|..] == now;
    LevelElsewhere(nodes, env, levels[k], ctx0 + Stored(results), now, more, ran + more);
  }

  // ---------------------------------------------------------------- environments that behave alike

  lemma {:induction false} StartsAlike(nodes: seq<Node>, e: Environment, f: Environment, level: seq<string>, st: State)
    requires e.conditions == f.conditions
    ensures StartAll(nodes, e, level, st) == StartAll(nodes, f, level, st)
  {
    if level != [] {
      StartsAlike(nodes, e, f, level[..|level| - 1], st);
    }
  }

  lemma RunsAlike(nodes: seq<Node>, e: Environment, f: Environment, level: seq<string>, st: State)
    requires e.conditions == f.conditions
    requires forall x :: x in Started(level, StartAll(nodes, e, level, st).0) ==> e.run(x, st.ctx) == f.run(x, st.ctx)
    ensures RunLevel(nodes, e, level, st) == RunLevel(nodes, f, level, st)
  {
    StartsAlike(nodes, e, f, level, st);
    var ds := StartAll(nodes, e, level, st).0;
    var ids := Started(level, ds);
    assert Outputs(e, st.ctx, ids) == Outputs(f, st.ctx, ids);
    assert RaisedAmong(e, st.ctx, ids) == RaisedAmong(f, st.ctx, ids);
    ReportsAlike(e, f, level, ds, st.ctx);
  }

  lemma ReportsAlike(e: Environment, f: Environment, level: seq<string>, ds: seq<Decision>, ctx: Context)
    requires |ds| == |level| && forall x :: x in Started(level, ds) ==> e.run(x, ctx) == f.run(x, ctx)
    ensures Reports(e, ctx, level, ds) == Reports(f, ctx, level, ds)
  {
    forall i | 0 <= i < |level|
      ensures FinalReport(e, ctx, level[i], ds[i]) == FinalReport(f, ctx, level[i], ds[i])
    {
      assert ds[i] == Start ==> level[i] in Started(level, ds);
    }
  }

  lemma SiblingsIgnored(nodes: seq<Node>, env: Environment, level: seq<string>, st: State, ran: map<string, Outcome>, started: set<string>)
    requires IgnoreSiblings(env, level) && started == Started(level, StartAll(nodes, env, level, st).0) && ran.Keys == started
    requires RanOn(env, st.ctx, started, ran)
    ensures RunLevel(nodes, Fixed(env, ran), level, st) == RunLevel(nodes, env, level, st)
  {
    assert started <= Elements(level);
    forall x | x in started
      ensures env.run(x, st.ctx) == Fixed(env, ran).run(x, st.ctx)
    {
      var c: Context :| SharedSince(st.ctx, started, c) && ran[x] == env.run(x, c);
      SameOutside(c, st.ctx, started, Elements(level));
      assert x in level;
    }
    RunsAlike(nodes, env, Fixed(env, ran), level, st);
  }

  lemma SameOutside(c: Context, d: Context, part: set<string>, whole: set<string>)
    requires c - part == d - part && part <= whole
    ensures c - whole == d - whole
  {
    assert c - whole == (c - part) - whole && d - whole == (d - part) - whole;
  }

  /** What handlers of other nodes returned makes no difference. */
  lemma {:induction false} LevelsRunAlike(nodes: seq<Node>, e: Environment, f: Environment, levels: seq<seq<string>>, st: State)
    requires e.conditions == f.conditions
    requires forall x, c :: x in Flatten(levels) ==> e.run(x, c) == f.run(x, c)
    ensures RunLevels(nodes, e, levels, st) == RunLevels(nodes, f, levels, st)
  {
    if levels != [] {
      var n := |levels| - 1;
      LevelsRunAlike(nodes, e, f, levels[..n], st);
      RunsAlike(nodes, e, f, levels[n], RunLevels(nodes, e, levels[..n], st).1);
    }
  }

  lemma SkippedNext(results: seq<Result>, r: Result)
    ensures SkippedIn(results + [r]) == SkippedIn(results) + if r.report.Skipped? then {r.id} else {}
  {
    var more := results + [r];
    assert forall i :: 0 <= i < |results| ==> more[i] == results[i];
    assert more[|results|] == r;
    forall x | x in SkippedIn(results)
      ensures x in SkippedIn(more)
    {
      var i :| 0 <= i < |results| && results[i].report.Skipped? && results[i].id == x;
      assert more[i].id == x;
    }
  }

  lemma {:induction false} AfterStartKeepsContext(nodes: seq<Node>, env: Environment, level: seq<string>, st: State)
    ensures StartAll(nodes, env, level, st).1.ctx == st.ctx
  {
    if level != [] {
      AfterStartKeepsContext(nodes, env, level[..|level| - 1], st);
    }
  }

  /** Results and context are those of the level-by-level specification for what the handlers returned;
      and for the handlers as functions of the context when none looks at its siblings. */
  method Execute(nodes: seq<Node>, env: Environment, initial: Context)
      returns (results: seq<Result>, ctx: Context, ran: map<string, Outcome>)
    requires DistinctIds(nodes)
    ensures Truthful(env, ran) && ctx == initial + Stored(results) && ran.Keys <= Elements(Flatten(CompiledLevels(nodes)))
    ensures Accounted(nodes, env, CompiledLevels(nodes), initial, results, ran)
    ensures results == RunLevels(nodes, Fixed(env, ran), CompiledLevels(nodes), State(initial, {}, {})).0
    ensures ctx == RunLevels(nodes, Fixed(env, ran), CompiledLevels(nodes), State(initial, {}, {})).1.ctx
    ensures (forall k :: 0 <= k < |CompiledLevels(nodes)| ==> IgnoreSiblings(env, CompiledLevels(nodes)[k])) ==>
              results == RunLevels(nodes, env, CompiledLevels(nodes), State(initial, {}, {})).0
  {
    var compiled := Compile(nodes);
    CompiledOnce(nodes);
    var st;
    results, st, ran := ExecuteLevels(nodes, env, compiled.levels, State(initial, {}, {}));
    ctx := st.ctx;
  }

  method ExecuteLevels(nodes: seq<Node>, env: Environment, levels: seq<seq<string>>, st0: State)
      returns (results: seq<Result>, st: State, ran: map<string, Outcome>)
    requires DistinctIds(nodes) && NoDuplicates(Flatten(levels))
    ensures Truthful(env, ran) && (results, st) == RunLevels(nodes, Fixed(env, ran), levels, st0)
    ensures st.ctx == st0.ctx + Stored(results) && Accounted(nodes, env, levels, st0.ctx, results, ran)
    ensures ran.Keys <= Elements(Flatten(levels))
    ensures (forall k :: 0 <= k < |levels| ==> IgnoreSiblings(env, levels[k])) ==> (results, st) == RunLevels(nodes, env, levels, st0)
  {
    results, st, ran := [], st0, map[];
    var i := 0;
    while i < |levels|
      invariant 0 <= i <= |levels| && Truthful(env, ran) && ran.Keys <= Elements(Flatten(levels[..i]))
      invariant (results, st) == RunLevels(nodes, Fixed(env, ran), levels[..i], st0)
      invariant st.ctx == st0.ctx + Stored(results) && Accounted(nodes, env, levels[..i], st0.ctx, results, ran)
      invariant (forall k :: 0 <= k < i ==> IgnoreSiblings(env, levels[k])) ==> (results, st) == RunLevels(nodes, env, levels[..i], st0)
    {
      ghost var before := st;
      var now, more;
      now, st, more := ExecuteLevel(nodes, env, levels[i], st);
      LevelIsNew(levels, i);
      RunLevelsNext(nodes, env, levels, i, st0);
      TruthfulBoth(env, ran, more);
      LevelAdded(nodes, env, levels, i, st0, results, before, ran, now, st, more);
      results, ran := results + now, ran + more;
      i := i + 1;
    }
    assert levels[..i] == levels;
  }

  lemma {:induction false} PrefixOnce(levels: seq<seq<string>>, i: nat)
    requires NoDuplicates(Flatten(levels)) && i <= |levels|
    ensures NoDuplicates(Flatten(levels[..i]))
    decreases |levels|
  {
    if i == |levels| {
      assert levels[..i] == levels;
    } else {
      var n := |levels| - 1;
      var lower, top := Flatten(levels[..n]), levels[n];
      assert forall j :: 0 <= j < |lower| ==> lower[j] == Flatten(levels)[j];
      PrefixOnce(levels[..n], i);
      assert levels[..n][..i] == levels[..i];
    }
  }

  lemma DistinctParts(lower: seq<string>, top: seq<string>)
    requires NoDuplicates(lower + top)
    ensures Elements(lower) !! Elements(top) && NoDuplicates(top)
  {
    assert forall j :: 0 <= j < |top| ==> (lower + top)[|lower| + j] == top[j];
    forall j, k | 0 <= j < |lower| && 0 <= k < |top|
      ensures lower[j] != top[k]
    {
      assert (lower + top)[j] == lower[j] && (lower + top)[|lower| + k] == top[k];
    }
    assert forall x :: x in lower ==> x !in top;
  }

  lemma LevelIsNew(levels: seq<seq<string>>, i: nat)
    requires NoDuplicates(Flatten(levels)) && i < |levels|
    ensures Elements(Flatten(levels[..i])) !! Elements(levels[i])
    ensures Elements(Flatten(levels[..i + 1])) == Elements(Flatten(levels[..i])) + Elements(levels[i])
    ensures NoDuplicates(levels[i])
  {
    assert levels[..i + 1][..i] == levels[..i];
    var lower, top := Flatten(levels[..i]), levels[i];
    PrefixOnce(levels, i + 1);
    ElementsOfConcat(lower, top);
    DistinctParts(lower, top);
  }

  lemma LevelAdded(nodes: seq<Node>, env: Environment, levels: seq<seq<string>>, i: nat, st0: State, results: seq<Result>,
                   before: State, ran: map<string, Outcome>, now: seq<Result>, st: State, more: map<string, Outcome>)
    requires i < |levels| && Elements(Flatten(levels[..i])) !! Elements(levels[i])
    requires ran.Keys <= Elements(Flatten(levels[..i])) && more.Keys <= Elements(levels[i])
    requires (results, before) == RunLevels(nodes, Fixed(env, ran), levels[..i], st0)
    requires (now, st) == RunLevel(nodes, Fixed(env, more), levels[i], before)
    requires before.ctx == st0.ctx + Stored(results) && Accounted(nodes, env, levels[..i], st0.ctx, results, ran)
    requires st.ctx == before.ctx + Stored(now) && LevelAccounted(nodes, env, levels[i], before.ctx, now, more)
    ensures (results + now, st) == RunLevels(nodes, Fixed(env, ran + more), levels[..i + 1], st0)
    ensures st.ctx == st0.ctx + Stored(results + now)
    ensures Accounted(nodes, env, levels[..i + 1], st0.ctx, results + now, ran + more)
  {
    LevelRan(nodes, env, levels, i, st0, before, ran, more);
    RunLevelsNext(nodes, Fixed(env, ran + more), levels, i, st0);
    AccountedNext(nodes, env, levels, i, st0.ctx, results, ran, now, more);
    StoredAppend(results, now);
    Overlay(st0.ctx, Stored(results), Stored(now));
  }

  lemma RunLevelsNext(nodes: seq<Node>, env: Environment, levels: seq<seq<string>>, i: nat, st: State)
    requires i < |levels|
    ensures var (before, mid) := RunLevels(nodes, env, levels[..i], st);
            var (now, after) := RunLevel(nodes, env, levels[i], mid);
            RunLevels(nodes, env, levels[..i + 1], st) == (before + now, after)
  {
    assert levels[..i + 1][..i] == levels[..i];
  }

  lemma TruthfulBoth(env: Environment, ran: map<string, Outcome>, more: map<string, Outcome>)
    requires Truthful(env, ran) && Truthful(env, more)
    ensures Truthful(env, ran + more)
  {
  }

  lemma Overlay(a: Context, b: Context, c: Context)
    ensures a + (b + c) == a + b + c
  {
  }

  lemma LevelRan(nodes: seq<Node>, env: Environment, levels: seq<seq<string>>, i: nat, st0: State, before: State,
                 ran: map<string, Outcome>, more: map<string, Outcome>)
    requires i < |levels| && Elements(Flatten(levels[..i])) !! Elements(levels[i])
    requires ran.Keys <= Elements(Flatten(levels[..i])) && more.Keys <= Elements(levels[i])
    requires before == RunLevels(nodes, Fixed(env, ran), levels[..i], st0).1
    ensures RunLevels(nodes, Fixed(env, ran + more), levels[..i], st0) == RunLevels(nodes, Fixed(env, ran), levels[..i], st0)
    ensures RunLevel(nodes, Fixed(env, ran + more), levels[i], before) == RunLevel(nodes, Fixed(env, more), levels[i], before)
  {
    LevelsRunAlike(nodes, Fixed(env, ran + more), Fixed(env, ran), levels[..i], st0);
    RunsAlike(nodes, Fixed(env, ran + more), Fixed(env, more), levels[i], before);
  }
}
