/** Concurrent callers of `transition` and `assign`: each reads a row, then updates it on condition
    that the version is still the one it read. */
module TaskProtocol {
  import opened Optional
  import opened TaskLifecycle
  import opened TaskService

  datatype Caller =
    | Moving(task: string, from: TaskState, version: nat, to: TaskState)
    | Assigning(task: string, agent: string, version: nat)

  /** `log` is the history of states of each task, `wins` the number of updates that went through. */
  datatype System = System(tasks: Tasks, callers: map<string, Caller>, log: map<string, seq<TaskState>>, wins: map<string, nat>)

  datatype Event =
    | Insert(id: string, task: Task)
    | ReadToMove(caller: string, id: string, to: TaskState)
    | ReadToAssign(caller: string, id: string, agent: string)
    | Update(caller: string)

  const EMPTY := System(map[], map[], map[], map[])

  predicate Enabled(s: System, e: Event) {
    match e
    case Insert(id, task) => id !in s.tasks && task.status == Draft && task.version == 1
    case ReadToMove(c, id, to) => c !in s.callers && id in s.tasks && id in s.log && CanTransition(s.tasks[id].status, to)
    case ReadToAssign(c, id, _) => c !in s.callers && id in s.tasks && id in s.log
    case Update(c) => c in s.callers && s.callers[c].task in s.tasks && s.callers[c].task in s.log && s.callers[c].task in s.wins
  }

  function After(s: System, e: Event): System
    requires Enabled(s, e)
  {
    match e
    case Insert(id, task) => s.(tasks := s.tasks[id := task], log := s.log[id := [Draft]], wins := s.wins[id := 0])
    case ReadToMove(c, id, to) =>
      s.(callers := s.callers[c := Moving(id, s.tasks[id].status, s.tasks[id].version, to)])
    case ReadToAssign(c, id, agent) => s.(callers := s.callers[c := Assigning(id, agent, s.tasks[id].version)])
    case Update(c) =>
      var k := s.callers[c];
      var row := s.tasks[k.task];
      var changed := if k.Moving? then row.(status := k.to) else row.(assignee := Some(k.agent));
      var (tasks, ok) := VersionedUpdate(s.tasks, k.task, k.version, changed);
      System(tasks, s.callers - {c},
             if ok && k.Moving? then s.log[k.task := s.log[k.task] + [k.to]] else s.log,
             if ok then s.wins[k.task := s.wins[k.task] + 1] else s.wins)
  }

  ghost predicate CanRun(s: System, es: seq<Event>)
    decreases |es|
  {
    es != [] ==> Enabled(s, es[0]) && CanRun(After(s, es[0]), es[1..])
  }

  ghost function Run(s: System, es: seq<Event>): System
    requires CanRun(s, es)
    decreases |es|
  {
    if es == [] then s else Run(After(s, es[0]), es[1..])
  }

  /** What an insert adds, and what becomes of an update: it goes through exactly when the version is still the one
      read, and then makes the one change it is for and raises the version. */
  lemma StepsMean(s: System, e: Event)
    requires Enabled(s, e)
    ensures e.Insert? ==> After(s, e).tasks == s.tasks[e.id := e.task] && After(s, e).callers == s.callers
    ensures e.ReadToMove? || e.ReadToAssign? ==> After(s, e).tasks == s.tasks && e.caller in After(s, e).callers
    ensures e.Update? ==>
              var k, t := s.callers[e.caller], After(s, e);
              && t.callers == s.callers - {e.caller}
              && (if s.tasks[k.task].version != k.version then t.tasks == s.tasks
                  else if k.Moving? then t.tasks == s.tasks[k.task := s.tasks[k.task].(status := k.to, version := k.version + 1)]
                  else t.tasks == s.tasks[k.task := s.tasks[k.task].(assignee := Some(k.agent), version := k.version + 1)])
  {
  }

  /** The log of a task is a legal trace that ends in its present state, and its version counts its updates. */
  ghost predicate TaskKept(s: System, id: string) {
    id in s.tasks ==>
      && id in s.log && id in s.wins
      && IsTrace(s.log[id]) && s.log[id][|s.log[id]| - 1] == s.tasks[id].status
      && s.tasks[id].version == 1 + s.wins[id]
  }

  /** A caller that still has the present version has the present state. */
  ghost predicate CallerKept(s: System, c: string) {
    c in s.callers ==>
      var k := s.callers[c];
      && k.task in s.tasks && k.version <= s.tasks[k.task].version
      && (k.Moving? ==> CanTransition(k.from, k.to))
      && (k.Moving? && k.version == s.tasks[k.task].version ==> k.from == s.tasks[k.task].status)
  }

  ghost predicate Inv(s: System) {
    (forall id :: TaskKept(s, id)) && forall c :: CallerKept(s, c)
  }

  lemma TaskStep(s: System, e: Event, id: string)
    requires Inv(s) && Enabled(s, e)
    ensures TaskKept(After(s, e), id)
  {
    assert TaskKept(s, id);
    if e.Update? {
      assert CallerKept(s, e.caller);
      var k := s.callers[e.caller];
      if k.task == id && k.Moving? && k.version == s.tasks[id].version {
        TraceExtends(s.log[id], k.to);
      }
    }
  }

  lemma CallerStep(s: System, e: Event, c: string)
    requires Inv(s) && Enabled(s, e)
    ensures CallerKept(After(s, e), c)
  {
    assert CallerKept(s, c);
    if e.Update? {
      assert CallerKept(s, e.caller);
    }
  }

  lemma {:induction false} InvRun(s: System, es: seq<Event>)
    requires Inv(s) && CanRun(s, es)
    ensures Inv(Run(s, es))
    decreases |es|
  {
    if es != [] {
      var t := After(s, es[0]);
      forall id
        ensures TaskKept(t, id)
      {
        TaskStep(s, es[0], id);
      }
      forall c
        ensures CallerKept(t, c)
      {
        CallerStep(s, es[0], c);
      }
      InvRun(t, es[1..]);
    }
  }

  /** Under every interleaving the states of a task form a legal trace, and its version has grown by
      one for each transition or assignment that went through. */
  lemma HistoriesAreTraces(es: seq<Event>, id: string)
    requires CanRun(EMPTY, es) && id in Run(EMPTY, es).tasks
    ensures var s := Run(EMPTY, es);
            && id in s.log && id in s.wins && IsTrace(s.log[id])
            && s.log[id][|s.log[id]| - 1] == s.tasks[id].status
            && s.tasks[id].version == 1 + s.wins[id]
  {
    InvRun(EMPTY, es);
    assert TaskKept(Run(EMPTY, es), id);
  }
}
