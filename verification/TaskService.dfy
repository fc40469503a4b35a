/** `TaskService`: tasks, their dependency graph and the ready queue. */
module TaskService {
  import opened Optional
  import opened Graphs
  import opened TaskLifecycle

  datatype Task = Task(project: string, status: TaskState, priority: int, createdAt: int, version: nat, assignee: Option<string>)

  type Tasks = map<string, Task>

  type Edge = (string, string)

  datatype AddResult = Added | SelfDependency | WouldCycle | InsertRejected

  datatype CreateResult = Created | Rejected(reason: AddResult)

  datatype MoveResult = Moved(from: TaskState, to: TaskState, version: nat) | NotFound | IllegalTransition | VersionConflict

  /** The ids that `id` depends on, in insertion order. */
  function DependsOn(deps: seq<Edge>, id: string): seq<string> {
    if deps == [] then []
    else
      var n := |deps| - 1;
      DependsOn(deps[..n], id) + if deps[n].0 == id then [deps[n].1] else []
  }

  lemma {:induction false} DependsOnIsEdges(deps: seq<Edge>, id: string, d: string)
    ensures d in DependsOn(deps, id) <==> (id, d) in deps
  {
    if deps != [] {
      var n := |deps| - 1;
      assert deps == deps[..n] + [deps[n]];
      DependsOnIsEdges(deps[..n], id, d);
    }
  }

  /** Foreign keys: both ends of every dependency are tasks. */
  ghost predicate EndsExist(tasks: Tasks, deps: seq<Edge>) {
    forall e :: e in deps ==> e.0 in tasks && e.1 in tasks
  }

  // ---------------------------------------------------------------- the ready queue

  predicate IsReady(tasks: Tasks, deps: seq<Edge>, project: string, id: string) {
    && id in tasks && tasks[id].project == project
    && (tasks[id].status == Draft || tasks[id].status == Ready)
    && forall d :: d in DependsOn(deps, id) ==> d !in tasks || tasks[d].status == Completed
  }

  predicate ComesBefore(a: Task, b: Task) {
    a.priority < b.priority || (a.priority == b.priority && a.createdAt <= b.createdAt)
  }

  ghost predicate InOrder(tasks: Tasks, q: seq<string>) {
    forall i, j :: 0 <= i < j < |q| && q[i] in tasks && q[j] in tasks ==> ComesBefore(tasks[q[i]], tasks[q[j]])
  }

  function ReadyIds(tasks: Tasks, deps: seq<Edge>, project: string): set<string> {
    set id | id in tasks && IsReady(tasks, deps, project, id)
  }

  lemma {:induction false} FirstExists(tasks: Tasks, ids: set<string>) returns (first: string)
    requires ids != {} && ids <= tasks.Keys
    ensures first in ids && forall id :: id in ids ==> ComesBefore(tasks[first], tasks[id])
    decreases |ids|
  {
    first :| first in ids;
    var rest := ids - {first};
    if rest != {} {
      var other := FirstExists(tasks, rest);
      if !ComesBefore(tasks[first], tasks[other]) {
        first := other;
      }
    }
  }

  /** What the ready queue needs of a project: every task is waiting or done, and every dependency of
      its tasks lies in it. */
  ghost predicate IsSelfContained(tasks: Tasks, deps: seq<Edge>, project: string) {
    forall id :: id in tasks && tasks[id].project == project ==>
      && (tasks[id].status == Draft || tasks[id].status == Ready || tasks[id].status == Completed)
      && forall d :: (id, d) in deps ==> d in tasks && tasks[d].project == project
  }

  /** In an acyclic graph some unfinished task is always ready. */
  lemma SomeTaskIsReady(tasks: Tasks, deps: seq<Edge>, project: string, id: string)
    requires Acyclic(Elements(deps)) && IsSelfContained(tasks, deps, project)
    requires id in tasks && tasks[id].project == project && tasks[id].status != Completed
    ensures ReadyIds(tasks, deps, project) != {}
  {
    var open := set t | t in tasks && tasks[t].project == project && tasks[t].status != Completed;
    assert id in open;
    var x := AcyclicHasSink(Elements(deps), open);
    forall d | d in DependsOn(deps, x)
      ensures d !in tasks || tasks[d].status == Completed
    {
      DependsOnIsEdges(deps, x, d);
      assert (x, d) in Elements(deps) && d !in open;
    }
    assert x in ReadyIds(tasks, deps, project);
  }

  /** What the ready-queue query may return: the ready tasks, each once, by priority and then by age. */
  ghost predicate IsReadyQueue(tasks: Tasks, deps: seq<Edge>, project: string, q: seq<string>) {
    Elements(q) == ReadyIds(tasks, deps, project) && NoDuplicates(q) && InOrder(tasks, q)
  }

  lemma {:induction false} ReadyQueueExists(tasks: Tasks, ids: set<string>) returns (q: seq<string>)
    requires ids <= tasks.Keys
    ensures Elements(q) == ids && NoDuplicates(q) && InOrder(tasks, q)
    decreases |ids|
  {
    if ids == {} {
      q := [];
    } else {
      var first := FirstExists(tasks, ids);
      var rest := ReadyQueueExists(tasks, ids - {first});
      q := [first] + rest;
      ElementsOfConcat([first], rest);
      AppendKeepsDistinct([first], rest);
      forall j | 0 <= j < |rest|
        ensures ComesBefore(tasks[first], tasks[rest[j]])
      {
        assert rest[j] in Elements(rest);
      }
    }
  }

  ghost predicate HasUnfinished(tasks: Tasks, project: string) {
    exists id :: id in tasks && tasks[id].project == project && tasks[id].status != Completed
  }

  lemma ReadyMeans(tasks: Tasks, deps: seq<Edge>, project: string, id: string)
    requires EndsExist(tasks, deps)
    ensures IsReady(tasks, deps, project, id) <==>
              && id in tasks && tasks[id].project == project && (tasks[id].status == Draft || tasks[id].status == Ready)
              && forall d :: (id, d) in deps ==> tasks[d].status == Completed
  {
    forall d
      ensures d in DependsOn(deps, id) <==> (id, d) in deps
    {
      DependsOnIsEdges(deps, id, d);
    }
  }

  /** The ready queue holds exactly the draft and ready tasks whose dependencies are all completed, the most
      urgent first and among equals the oldest; and the queue of an
      unfinished self-contained project is never empty. */
  lemma ReadyQueueProgress(tasks: Tasks, deps: seq<Edge>, project: string, q: seq<string>)
    requires EndsExist(tasks, deps) && IsReadyQueue(tasks, deps, project, q)
    ensures forall i, d :: 0 <= i < |q| && (q[i], d) in deps ==> d in tasks && tasks[d].status == Completed
    ensures forall id :: id in q <==>
              && id in tasks && tasks[id].project == project && (tasks[id].status == Draft || tasks[id].status == Ready)
              && forall d :: (id, d) in deps ==> tasks[d].status == Completed
    ensures forall i, j :: 0 <= i < j < |q| ==>
              tasks[q[i]].priority < tasks[q[j]].priority ||
              (tasks[q[i]].priority == tasks[q[j]].priority && tasks[q[i]].createdAt <= tasks[q[j]].createdAt)
    ensures (Acyclic(Elements(deps)) && IsSelfContained(tasks, deps, project) && HasUnfinished(tasks, project)) ==> q != []
  {
    forall i, d | 0 <= i < |q| && (q[i], d) in deps
      ensures d in tasks && tasks[d].status == Completed
    {
      assert q[i] in Elements(q);
      DependsOnIsEdges(deps, q[i], d);
    }
    forall id
      ensures id in q <==> id in tasks && tasks[id].project == project && (tasks[id].status == Draft || tasks[id].status == Ready) &&
                           forall d :: (id, d) in deps ==> tasks[d].status == Completed
    {
      ReadyMeans(tasks, deps, project, id);
      assert id in q <==> id in Elements(q);
    }
    forall i, j | 0 <= i < j < |q|
      ensures ComesBefore(tasks[q[i]], tasks[q[j]])
    {
      assert q[i] in Elements(q) && q[j] in Elements(q);
    }
    if Acyclic(Elements(deps)) && IsSelfContained(tasks, deps, project) && HasUnfinished(tasks, project) {
      var id :| id in tasks && tasks[id].project == project && tasks[id].status != Completed;
      SomeTaskIsReady(tasks, deps, project, id);
    }
  }

  // ---------------------------------------------------------------- the service

  class Seen {
    var ids: set<string>

    constructor ()
      ensures ids == {}
    {
      ids := {};
    }
  }

  /** Everything added to `seen` has its successors in `seen` and is not `to`. */
  ghost predicate Explored(g: Graph, before: set<string>, after: set<string>, to: string) {
    && before <= after
    && forall x :: x in after && x !in before ==> x != to && forall y :: (x, y) in g ==> y in after
  }

  lemma ExploredTogether(g: Graph, a: set<string>, b: set<string>, c: set<string>, to: string)
    requires Explored(g, a, b, to) && Explored(g, b, c, to)
    ensures Explored(g, a, c, to)
  {
  }

  class TaskService {
    var tasks: Tasks
    var deps: seq<Edge>

    constructor ()
      ensures tasks == map[] && deps == []
    {
      tasks, deps := map[], [];
    }

    /** Depth-first search with one `seen` set shared by all branches. */
    method ReachesFrom(from: string, to: string, seen: Seen, ghost universe: set<string>) returns (r: bool)
      requires from in universe && forall e :: e in deps ==> e.1 in universe
      modifies seen
      ensures r ==> Reaches(Elements(deps), from, to)
      ensures old(seen.ids) <= seen.ids
      ensures !r ==> from in seen.ids && Explored(Elements(deps), old(seen.ids) , seen.ids, to)
      decreases universe - seen.ids
    {
      if from == to {
        ReachesSelf(Elements(deps), from);
        return true;
      }
      if from in seen.ids {
        return false;
      }
      ghost var before := seen.ids;
      seen.ids := seen.ids + {from};
      var rows := DependsOn(deps, from);
      var i := 0;
      while i < |rows|
        invariant 0 <= i <= |rows| && before + {from} <= seen.ids
        invariant Explored(Elements(deps), before + {from}, seen.ids, to)
        invariant forall k :: 0 <= k < i ==> rows[k] in seen.ids
      {
        DependsOnIsEdges(deps, from, rows[i]);
        ghost var mid := seen.ids;
        var found := ReachesFrom(rows[i], to, seen, universe);
        if found {
          ReachesStep(Elements(deps), from, rows[i], to);
          return true;
        }
        ExploredTogether(Elements(deps), before + {from}, mid, seen.ids, to);
        i := i + 1;
      }
      forall y | (from, y) in Elements(deps)
        ensures y in seen.ids
      {
        DependsOnIsEdges(deps, from, y);
      }
      return false;
    }

    method IsReachable(from: string, to: string) returns (r: bool)
      ensures r <==> Reaches(Elements(deps), from, to)
    {
      var seen := new Seen();
      ghost var universe := {from} + set e | e in deps :: e.1;
      r := ReachesFrom(from, to, seen, universe);
      if !r && Reaches(Elements(deps), from, to) {
        var p :| Connects(Elements(deps), p, from, to);
        ClosedSetContainsReachable(Elements(deps), seen.ids, p);
        assert false;
      }
    }

    /** Adds an edge unless it would close a cycle; the table itself refuses unknown ends and duplicates. */
    method AddDependency(taskId: string, dependsOn: string) returns (r: AddResult)
      modifies this
      ensures tasks == old(tasks)
      ensures deps == if r == Added then old(deps) + [(taskId, dependsOn)] else old(deps)
      ensures r == SelfDependency <==> taskId == dependsOn
      ensures r == WouldCycle <==> taskId != dependsOn && Reaches(Elements(old(deps)), dependsOn, taskId)
      ensures r == Added <==> !Reaches(Elements(old(deps)), dependsOn, taskId) &&
                              taskId in tasks && dependsOn in tasks && (taskId, dependsOn) !in old(deps)
      ensures Acyclic(Elements(old(deps))) ==> Acyclic(Elements(deps))
      ensures EndsExist(tasks, old(deps)) ==> EndsExist(tasks, deps)
    {
      ghost var before := deps;
      if taskId == dependsOn {
        ReachesSelf(Elements(deps), taskId);
        return SelfDependency;
      }
      var closes := IsReachable(dependsOn, taskId);
      if closes {
        return WouldCycle;
      }
      if taskId !in tasks || dependsOn !in tasks || (taskId, dependsOn) in deps {
        return InsertRejected;
      }
      deps := deps + [(taskId, dependsOn)];
      EdgeAdded(before, taskId, dependsOn);
      r := Added;
    }

    /** Inserts a task and its dependencies in one transaction: all of them or nothing. */
    method Create(id: string, project: string, priority: Option<int>, now: int, dependsOn: seq<string>) returns (r: CreateResult)
      requires id !in tasks && EndsExist(tasks, deps) && Acyclic(Elements(deps))
      modifies this
      ensures EndsExist(tasks, deps) && Acyclic(Elements(deps))
      ensures r.Rejected? ==> tasks == old(tasks) && deps == old(deps) && r.reason != WouldCycle
      ensures r == Created <==> NoDuplicates(dependsOn) && forall i :: 0 <= i < |dependsOn| ==> dependsOn[i] in old(tasks)
      ensures r == Created ==> deps == old(deps) + EdgesFrom(id, dependsOn)
      ensures r == Created ==>
                tasks == old(tasks)[id := Task(project, Draft, if priority.Some? then priority.value else 3, now, 1, None)]
    {
      var task := Task(project, Draft, if priority.Some? then priority.value else 3, now, 1, None);
      ghost var oldTasks, oldDeps := tasks, deps;
      var savedTasks, savedDeps := tasks, deps;
      tasks := tasks[id := task];
      var i := 0;
      while i < |dependsOn|
        invariant 0 <= i <= |dependsOn|
        invariant tasks == oldTasks[id := task] && deps == oldDeps + EdgesFrom(id, dependsOn[..i])
        invariant EndsExist(tasks, deps) && Acyclic(Elements(deps))
        invariant NoDuplicates(dependsOn[..i]) && forall k :: 0 <= k < i ==> dependsOn[k] in oldTasks
      {
        assert dependsOn[..i + 1][..i] == dependsOn[..i];
        NewTaskUnreached(oldTasks, oldDeps, id, dependsOn[..i], dependsOn[i]);
        ReachesSelf(Elements(deps), id);
        var added := AddDependency(id, dependsOn[i]);
        if added != Added {
          tasks, deps := savedTasks, savedDeps;
          return Rejected(added);
        }
        i := i + 1;
      }
      assert dependsOn[..i] == dependsOn;
      r := Created;
    }

    method Transition(taskId: string, to: TaskState) returns (r: MoveResult)
      modifies this
      ensures deps == old(deps)
      ensures r == NotFound <==> taskId !in old(tasks)
      ensures r == IllegalTransition <==> taskId in old(tasks) && !CanTransition(old(tasks)[taskId].status, to)
      ensures r != VersionConflict
      ensures if r.Moved? then
                && r.from == old(tasks)[taskId].status && r.to == to && r.version == old(tasks)[taskId].version + 1
                && tasks == old(tasks)[taskId := old(tasks)[taskId].(status := to, version := r.version)]
              else tasks == old(tasks)
    {
      if taskId !in tasks {
        return NotFound;
      }
      var row := tasks[taskId];
      if !CanTransition(row.status, to) {
        return IllegalTransition;
      }
      var (updated, ok) := VersionedUpdate(tasks, taskId, row.version, row.(status := to));
      tasks := updated;
      r := if ok then Moved(row.status, to, row.version + 1) else VersionConflict;
    }
  }

  lemma EdgeAdded(deps: seq<Edge>, t: string, d: string)
    requires !Reaches(Elements(deps), d, t)
    ensures Acyclic(Elements(deps)) ==> Acyclic(Elements(deps + [(t, d)]))
  {
    ElementsOfConcat(deps, [(t, d)]);
    assert Elements([(t, d)]) == {(t, d)};
    if Acyclic(Elements(deps)) {
      InsertKeepsAcyclic(Elements(deps), t, d);
    }
  }

  /** `UPDATE ... , version = version + 1 WHERE id = ? AND version = ?`; `row` carries the new columns. */
  function VersionedUpdate(tasks: Tasks, id: string, expected: nat, row: Task): (Tasks, bool) {
    if id in tasks && tasks[id].version == expected then
      (tasks[id := row.(version := tasks[id].version + 1)], true)
    else (tasks, false)
  }

  function EdgesFrom(id: string, dependsOn: seq<string>): seq<Edge> {
    if dependsOn == [] then []
    else EdgesFrom(id, dependsOn[..|dependsOn| - 1]) + [(id, dependsOn[|dependsOn| - 1])]
  }

  lemma {:induction false} EdgesFromMembers(id: string, dependsOn: seq<string>, e: Edge)
    ensures e in EdgesFrom(id, dependsOn) <==> e.0 == id && e.1 in dependsOn
  {
    if dependsOn != [] {
      var n := |dependsOn| - 1;
      assert dependsOn == dependsOn[..n] + [dependsOn[n]];
      EdgesFromMembers(id, dependsOn[..n], e);
    }
  }

  /** Nothing depends on a task that is just being created; a new dependency is a duplicate only if listed twice. */
  lemma NewTaskUnreached(tasks: Tasks, deps: seq<Edge>, id: string, listed: seq<string>, d: string)
    requires EndsExist(tasks, deps) && id !in tasks && forall k :: 0 <= k < |listed| ==> listed[k] in tasks
    ensures var all := deps + EdgesFrom(id, listed);
            && (Reaches(Elements(all), d, id) ==> d == id)
            && ((id, d) in all <==> d in listed)
  {
    var all := deps + EdgesFrom(id, listed);
    EdgesFromMembers(id, listed, (id, d));
    if d != id && Reaches(Elements(all), d, id) {
      var p :| Connects(Elements(all), p, d, id);
      forall e | e in Elements(all) && e.0 in tasks.Keys + {d}
        ensures e.1 in tasks.Keys + {d}
      {
        EdgesFromMembers(id, listed, e);
      }
      ClosedSetContainsReachable(Elements(all), tasks.Keys + {d}, p);
    }
  }
}
