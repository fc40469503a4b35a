/** `WorkGraph.compile`: Kahn's algorithm over in-degree counters, with the dangling-dependency
    report and the extra level of stranded nodes. */
module WorkGraphCompile {
  import opened Graphs
  import opened WorkGraphLevels
  import opened CycleFinder

  datatype Missing = Missing(node: string, missing: seq<string>)

  datatype Compiled = Compiled(levels: seq<seq<string>>, cycles: seq<seq<string>>, missing: seq<Missing>)

  // ---------------------------------------------------------------- roster order

  /** The ids of `nodes` that lie in `s`, in roster order. */
  function InRosterOrder(nodes: seq<Node>, s: set<string>): seq<string> {
    if nodes == [] then []
    else
      var last := nodes[|nodes| - 1].id;
      InRosterOrder(nodes[..|nodes| - 1], s) + if last in s then [last] else []
  }

  lemma IdsOfPrefix(nodes: seq<Node>)
    requires nodes != []
    ensures IdSet(nodes) == IdSet(nodes[..|nodes| - 1]) + {nodes[|nodes| - 1].id}
  {
    var n := |nodes| - 1;
    var init := nodes[..n];
    forall x | x in IdSet(nodes)
      ensures x in IdSet(init) + {nodes[n].id}
    {
      var i :| 0 <= i < |nodes| && nodes[i].id == x;
      assert i < n ==> init[i].id == x;
    }
    forall x | x in IdSet(init)
      ensures x in IdSet(nodes)
    {
      var i :| 0 <= i < |init| && init[i].id == x;
      assert nodes[i].id == x;
    }
  }

  lemma LastIsNew(nodes: seq<Node>)
    requires DistinctIds(nodes) && nodes != []
    ensures nodes[|nodes| - 1].id !in IdSet(nodes[..|nodes| - 1])
  {
  }

  lemma {:induction false} InRosterOrderMembers(nodes: seq<Node>, s: set<string>)
    requires DistinctIds(nodes)
    ensures forall x :: x in InRosterOrder(nodes, s) <==> x in IdSet(nodes) && x in s
    ensures NoDuplicates(InRosterOrder(nodes, s))
  {
    if nodes != [] {
      InRosterOrderMembers(nodes[..|nodes| - 1], s);
      IdsOfPrefix(nodes);
      LastIsNew(nodes);
    }
  }

  lemma SameElementsSameMultiset(a: seq<string>, b: seq<string>)
    requires NoDuplicates(a) && NoDuplicates(b)
    requires forall x :: x in a <==> x in b
    ensures multiset(a) == multiset(b)
  {
    forall x
      ensures multiset(a)[x] == multiset(b)[x]
    {
      OccursOnce(a, x);
      OccursOnce(b, x);
    }
  }

  lemma {:induction false} OccursOnce(a: seq<string>, x: string)
    requires NoDuplicates(a)
    ensures multiset(a)[x] == if x in a then 1 else 0
  {
    if a != [] {
      var n := |a| - 1;
      assert a == a[..n] + [a[n]];
      OccursOnce(a[..n], x);
      assert a[n] !in a[..n];
    }
  }

  /** Putting a duplicate-free batch in roster order rearranges it and nothing else. */
  lemma RosterOrderRearranges(nodes: seq<Node>, batch: seq<string>)
    requires DistinctIds(nodes) && NoDuplicates(batch) && Elements(batch) <= IdSet(nodes)
    ensures multiset(InRosterOrder(nodes, Elements(batch))) == multiset(batch)
  {
    InRosterOrderMembers(nodes, Elements(batch));
    SameElementsSameMultiset(InRosterOrder(nodes, Elements(batch)), batch);
  }

  /** A batch in roster order lists its ids as the nodes are listed. */
  lemma {:induction false} RosterOrderFollowsNodes(nodes: seq<Node>, s: set<string>, i: nat, j: nat) returns (a: nat, b: nat)
    requires i < j < |InRosterOrder(nodes, s)|
    ensures a < b < |nodes| && nodes[a].id == InRosterOrder(nodes, s)[i] && nodes[b].id == InRosterOrder(nodes, s)[j]
  {
    var n := |nodes| - 1;
    var before := InRosterOrder(nodes[..n], s);
    if j < |before| {
      a, b := RosterOrderFollowsNodes(nodes[..n], s, i, j);
    } else {
      a := RosterPosition(nodes[..n], s, i);
      b := n;
    }
  }

  lemma {:induction false} RosterPosition(nodes: seq<Node>, s: set<string>, i: nat) returns (a: nat)
    requires i < |InRosterOrder(nodes, s)|
    ensures a < |nodes| && nodes[a].id == InRosterOrder(nodes, s)[i]
  {
    var n := |nodes| - 1;
    if i < |InRosterOrder(nodes[..n], s)| {
      a := RosterPosition(nodes[..n], s, i);
    } else {
      a := n;
    }
  }

  // ---------------------------------------------------------------- flattened levels

  function Flatten(levels: seq<seq<string>>): seq<string> {
    if levels == [] then [] else Flatten(levels[..|levels| - 1]) + levels[|levels| - 1]
  }

  /** The first `h` levels, each in roster order. */
  ghost function LevelsUpTo(nodes: seq<Node>, h: nat): seq<seq<string>> {
    if h == 0 then [] else LevelsUpTo(nodes, h - 1) + [InRosterOrder(nodes, LevelSet(nodes, h - 1))]
  }

  ghost function KahnLevels(nodes: seq<Node>): seq<seq<string>> {
    LevelsUpTo(nodes, Height(nodes))
  }

  lemma {:induction false} LevelsUpToAt(nodes: seq<Node>, h: nat, k: nat)
    requires k < h
    ensures |LevelsUpTo(nodes, h)| == h && LevelsUpTo(nodes, h)[k] == InRosterOrder(nodes, LevelSet(nodes, k))
    decreases h
  {
    if h == 1 {
      assert LevelsUpTo(nodes, 0) == [];
    } else if k < h - 1 {
      LevelsUpToAt(nodes, h - 1, k);
    } else {
      LevelsUpToAt(nodes, h - 1, 0);
    }
  }

  lemma {:induction false} FlattenLevels(nodes: seq<Node>, h: nat)
    requires DistinctIds(nodes)
    ensures Elements(Flatten(LevelsUpTo(nodes, h))) == Done(nodes, h)
    ensures NoDuplicates(Flatten(LevelsUpTo(nodes, h)))
    decreases h
  {
    if h > 0 {
      FlattenLevels(nodes, h - 1);
      var below := LevelsUpTo(nodes, h - 1);
      var top := InRosterOrder(nodes, LevelSet(nodes, h - 1));
      InRosterOrderMembers(nodes, LevelSet(nodes, h - 1));
      assert LevelsUpTo(nodes, h) == below + [top];
      assert Flatten(below + [top]) == Flatten(below) + top;
      AppendLevel(Flatten(below), top, Done(nodes, h - 1), LevelSet(nodes, h - 1));
    }
  }

  lemma AppendLevel(lower: seq<string>, top: seq<string>, done: set<string>, level: set<string>)
    requires Elements(lower) == done && NoDuplicates(lower) && NoDuplicates(top)
    requires (forall x :: x in top <==> x in level) && done !! level
    ensures Elements(lower + top) == done + level && NoDuplicates(lower + top)
  {
    forall x | x in lower
      ensures x !in top
    {
      assert x in Elements(lower);
    }
    AppendKeepsDistinct(lower, top);
    ElementsOfConcat(lower, top);
    assert Elements(top) == level;
  }

  // ---------------------------------------------------------------- missing dependencies

  function Dangling(deps: seq<string>, ids: set<string>): (m: seq<string>)
    ensures forall d :: d in m <==> d in deps && d !in ids
  {
    if deps == [] then []
    else
      var n := |deps| - 1;
      assert deps == deps[..n] + [deps[n]];
      Dangling(deps[..n], ids) + if deps[n] in ids then [] else [deps[n]]
  }

  function MissingReport(nodes: seq<Node>, ids: set<string>): seq<Missing> {
    if nodes == [] then []
    else
      var n := |nodes| - 1;
      var m := Dangling(nodes[n].dependsOn, ids);
      MissingReport(nodes[..n], ids) + if m == [] then [] else [Missing(nodes[n].id, m)]
  }

  ghost predicate Describes(r: Missing, n: Node, ids: set<string>) {
    r.node == n.id && r.missing == Dangling(n.dependsOn, ids) && r.missing != []
  }

  ghost predicate DescribesSome(r: Missing, nodes: seq<Node>, ids: set<string>) {
    exists i :: 0 <= i < |nodes| && Describes(r, nodes[i], ids)
  }

  lemma DescribesSomeInit(r: Missing, nodes: seq<Node>, ids: set<string>)
    requires nodes != []
    ensures DescribesSome(r, nodes, ids) <==>
            DescribesSome(r, nodes[..|nodes| - 1], ids) || Describes(r, nodes[|nodes| - 1], ids)
  {
    var init := nodes[..|nodes| - 1];
    if DescribesSome(r, init, ids) {
      var i :| 0 <= i < |init| && Describes(r, init[i], ids);
      assert Describes(r, nodes[i], ids);
    }
    if DescribesSome(r, nodes, ids) {
      var i :| 0 <= i < |nodes| && Describes(r, nodes[i], ids);
      assert i < |init| ==> Describes(r, init[i], ids);
    }
  }

  /** The report lists exactly the nodes with dangling dependencies, each with all of them. */
  lemma {:induction false} ReportedIffDangling(nodes: seq<Node>, ids: set<string>, r: Missing)
    ensures r in MissingReport(nodes, ids) <==> DescribesSome(r, nodes, ids)
  {
    if nodes != [] {
      var n := |nodes| - 1;
      ReportedIffDangling(nodes[..n], ids, r);
      DescribesSomeInit(r, nodes, ids);
    }
  }

  lemma NothingMissingIffComplete(nodes: seq<Node>)
    ensures MissingReport(nodes, IdSet(nodes)) == [] <==> Complete(nodes)
  {
    var ids := IdSet(nodes);
    var report := MissingReport(nodes, ids);
    if report != [] {
      ReportedIffDangling(nodes, ids, report[0]);
      var i :| 0 <= i < |nodes| && Describes(report[0], nodes[i], ids);
      var d := report[0].missing[0];
      assert d in Dangling(nodes[i].dependsOn, ids);
    } else {
      forall i, d | 0 <= i < |nodes| && d in nodes[i].dependsOn
        ensures d in ids
      {
        var r := Missing(nodes[i].id, Dangling(nodes[i].dependsOn, ids));
        ReportedIffDangling(nodes, ids, r);
        assert !DescribesSome(r, nodes, ids);
        assert !Describes(r, nodes[i], ids);
      }
    }
  }

  // ---------------------------------------------------------------- counters

  /** How many entries of `deps` lie outside `placed`. */
  function CountOutside(deps: seq<string>, placed: set<string>): nat {
    if deps == [] then 0
    else CountOutside(deps[..|deps| - 1], placed) + if deps[|deps| - 1] in placed then 0 else 1
  }

  lemma {:induction false} PlaceOne(deps: seq<string>, placed: set<string>, x: string)
    requires x !in placed
    ensures CountOutside(deps, placed + {x}) + multiset(deps)[x] == CountOutside(deps, placed)
  {
    if deps != [] {
      var n := |deps| - 1;
      assert deps == deps[..n] + [deps[n]];
      PlaceOne(deps[..n], placed, x);
    }
  }

  lemma {:induction false} NoneOutside(deps: seq<string>, placed: set<string>)
    ensures CountOutside(deps, placed) == 0 <==> forall d :: d in deps ==> d in placed
  {
    if deps != [] {
      var n := |deps| - 1;
      assert deps == deps[..n] + [deps[n]];
      NoneOutside(deps[..n], placed);
    }
  }

  lemma {:induction false} AllOutside(deps: seq<string>)
    ensures CountOutside(deps, {}) == |deps|
  {
    if deps != [] {
      AllOutside(deps[..|deps| - 1]);
    }
  }

  ghost predicate CountsOutside(nodes: seq<Node>, indeg: map<string, int>, placed: set<string>) {
    indeg.Keys == IdSet(nodes) && forall x :: x in indeg ==> indeg[x] == CountOutside(Deps(nodes, x), placed)
  }

  function Children(dependents: map<string, seq<string>>, d: string): seq<string> {
    if d in dependents then dependents[d] else []
  }

  /** `dependents` inverts the dependency lists, with multiplicities. */
  ghost predicate Inverts(nodes: seq<Node>, dependents: map<string, seq<string>>) {
    forall d, x :: multiset(Children(dependents, d))[x] == multiset(Deps(nodes, x))[d]
  }

  ghost predicate IsReleased(indeg: map<string, int>, settled: set<string>, next: seq<string>) {
    NoDuplicates(next) && forall x :: x in next <==> x in indeg && indeg[x] == 0 && x !in settled
  }

  lemma DepsOfLonger(nodes: seq<Node>, i: nat, x: string)
    requires DistinctIds(nodes) && i < |nodes|
    ensures Deps(nodes[..i + 1], x) == if x == nodes[i].id then nodes[i].dependsOn else Deps(nodes[..i], x)
    decreases i
  {
    if i == 0 {
      assert nodes[..1][1..] == [];
    } else {
      var rest := nodes[1..];
      DepsOfLonger(rest, i - 1, x);
      assert nodes[..i + 1][1..] == rest[..i] && nodes[..i][1..] == rest[..i - 1];
    }
  }

  lemma IndexedPrefix(nodes: seq<Node>, i: nat, indeg: map<string, int>, dependents: map<string, seq<string>>)
    requires DistinctIds(nodes) && i < |nodes|
    requires InvertsPartly(dependents, nodes[..i], nodes[i], |nodes[i].dependsOn|)
    requires nodes[i].id in indeg && indeg[nodes[i].id] == CountOutside(nodes[i].dependsOn, {})
    requires forall x :: x in indeg && x != nodes[i].id ==> indeg[x] == CountOutside(Deps(nodes[..i], x), {})
    ensures Inverts(nodes[..i + 1], dependents)
    ensures forall x :: x in indeg ==> indeg[x] == CountOutside(Deps(nodes[..i + 1], x), {})
  {
    var n := nodes[i];
    assert n.dependsOn[..|n.dependsOn|] == n.dependsOn;
    forall x
      ensures Deps(nodes[..i + 1], x) == Indexed(nodes[..i], n, |n.dependsOn|, x)
    {
      DepsOfLonger(nodes, i, x);
    }
    forall d, x
      ensures multiset(Children(dependents, d))[x] == multiset(Deps(nodes[..i + 1], x))[d]
    {
      assert multiset(Children(dependents, d))[x] == multiset(Indexed(nodes[..i], n, |n.dependsOn|, x))[d];
    }
    forall x | x in indeg
      ensures indeg[x] == CountOutside(Deps(nodes[..i + 1], x), {})
    {
      assert Deps(nodes[..i + 1], x) == Indexed(nodes[..i], n, |n.dependsOn|, x);
    }
  }

  method IndexDependents(nodes: seq<Node>) returns (indeg: map<string, int>, dependents: map<string, seq<string>>)
    requires DistinctIds(nodes)
    ensures CountsOutside(nodes, indeg, {}) && Inverts(nodes, dependents)
  {
    indeg, dependents := map[], map[];
    var i := 0;
    while i < |nodes|
      invariant 0 <= i <= |nodes|
      invariant CountsOutside(nodes[..i], indeg, {})
      invariant Inverts(nodes[..i], dependents)
    {
      var n := nodes[i];
      assert nodes[..i + 1][..i] == nodes[..i];
      IdsOfPrefix(nodes[..i + 1]);
      LastIsNew(nodes[..i + 1]);
      AllOutside(n.dependsOn);
      indeg := indeg[n.id := |n.dependsOn|];
      DepsOfUnknown(nodes[..i], n.id);
      dependents := IndexOne(nodes[..i], n, dependents);
      IndexedPrefix(nodes, i, indeg, dependents);
      i := i + 1;
    }
    assert nodes[..|nodes|] == nodes;
  }

  /** The dependencies of `x` indexed so far: a prefix of those of `n`, all of those of earlier nodes. */
  function Indexed(before: seq<Node>, n: Node, j: nat, x: string): seq<string>
    requires j <= |n.dependsOn|
  {
    if x == n.id then n.dependsOn[..j] else Deps(before, x)
  }

  ghost predicate InvertsPartly(dependents: map<string, seq<string>>, before: seq<Node>, n: Node, j: nat)
    requires j <= |n.dependsOn|
  {
    forall d, x :: multiset(Children(dependents, d))[x] == multiset(Indexed(before, n, j, x))[d]
  }

  lemma IndexNext(dependents: map<string, seq<string>>, before: seq<Node>, n: Node, j: nat)
    requires j < |n.dependsOn| && InvertsPartly(dependents, before, n, j)
    ensures var d := n.dependsOn[j];
            InvertsPartly(dependents[d := Children(dependents, d) + [n.id]], before, n, j + 1)
  {
    var d := n.dependsOn[j];
    var after := dependents[d := Children(dependents, d) + [n.id]];
    forall e, x
      ensures multiset(Children(after, e))[x] == multiset(Indexed(before, n, j + 1, x))[e]
    {
      assert n.dependsOn[..j + 1] == n.dependsOn[..j] + [d];
      assert multiset(Children(dependents, e))[x] == multiset(Indexed(before, n, j, x))[e];
    }
  }

  /** Adds `n` to the child list of each of its dependencies. */
  method IndexOne(ghost before: seq<Node>, n: Node, dependents0: map<string, seq<string>>)
      returns (dependents: map<string, seq<string>>)
    requires Inverts(before, dependents0) && Deps(before, n.id) == []
    ensures InvertsPartly(dependents, before, n, |n.dependsOn|)
  {
    dependents := dependents0;
    var j := 0;
    while j < |n.dependsOn|
      invariant 0 <= j <= |n.dependsOn|
      invariant InvertsPartly(dependents, before, n, j)
    {
      var d := n.dependsOn[j];
      IndexNext(dependents, before, n, j);
      dependents := dependents[d := Children(dependents, d) + [n.id]];
      j := j + 1;
    }
  }

  /** Takes `id` out of the counters of its children and collects those that become free. */
  method ReleaseChildren(nodes: seq<Node>, id: string, children: seq<string>, indeg0: map<string, int>,
                         next0: seq<string>, ghost placed: set<string>, ghost settled: set<string>)
      returns (indeg: map<string, int>, next: seq<string>)
    requires CountsOutside(nodes, indeg0, placed) && id !in placed
    requires IsChildList(nodes, id, children)
    requires forall c :: c in children ==> c !in settled
    requires IsReleased(indeg0, settled, next0)
    ensures CountsOutside(nodes, indeg, placed + {id})
    ensures IsReleased(indeg, settled, next)
  {
    forall j | 0 <= j < |children|
      ensures HasRoom(children, j, indeg0)
    {
      ChildCounts(nodes, id, children, j, indeg0, placed);
    }
    indeg, next := DecrementAll(children, indeg0, next0, settled);
    PlacedCounts(nodes, id, children, indeg0, indeg, placed);
  }

  /** The counter of the child at `j` is not used up by the earlier entries of the list. */
  ghost predicate HasRoom(children: seq<string>, j: nat, indeg: map<string, int>)
    requires j < |children|
  {
    children[j] in indeg && multiset(children[..j])[children[j]] < indeg[children[j]]
  }

  method DecrementAll(children: seq<string>, indeg0: map<string, int>, next0: seq<string>, ghost settled: set<string>)
      returns (indeg: map<string, int>, next: seq<string>)
    requires forall j :: 0 <= j < |children| ==> HasRoom(children, j, indeg0) && children[j] !in settled
    requires IsReleased(indeg0, settled, next0)
    ensures Decremented(indeg0, indeg, children)
    ensures IsReleased(indeg, settled, next)
  {
    indeg, next := indeg0, next0;
    var j := 0;
    while j < |children|
      invariant 0 <= j <= |children|
      invariant Decremented(indeg0, indeg, children[..j])
      invariant IsReleased(indeg, settled, next)
    {
      indeg, next := ReleaseChild(children, j, indeg0, indeg, next, settled);
      j := j + 1;
    }
    assert children[..j] == children;
  }

  ghost predicate IsChildList(nodes: seq<Node>, id: string, children: seq<string>) {
    forall x :: multiset(children)[x] == multiset(Deps(nodes, x))[id]
  }

  lemma PlacedCounts(nodes: seq<Node>, id: string, children: seq<string>, before: map<string, int>,
                     after: map<string, int>, placed: set<string>)
    requires CountsOutside(nodes, before, placed) && id !in placed && IsChildList(nodes, id, children)
    requires Decremented(before, after, children)
    ensures CountsOutside(nodes, after, placed + {id})
  {
    forall x | x in after
      ensures after[x] == CountOutside(Deps(nodes, x), placed + {id})
    {
      PlaceOne(Deps(nodes, x), placed, id);
    }
  }

  lemma DecrementedNext(before: map<string, int>, after: map<string, int>, children: seq<string>, j: nat)
    requires j < |children| && children[j] in before && Decremented(before, after, children[..j])
    ensures Decremented(before, after[children[j] := after[children[j]] - 1], children[..j + 1])
  {
    assert children[..j + 1] == children[..j] + [children[j]];
  }

  ghost predicate Decremented(before: map<string, int>, after: map<string, int>, taken: seq<string>) {
    after.Keys == before.Keys && forall x :: x in after ==> after[x] == before[x] - multiset(taken)[x]
  }

  /** Decrements the counter of one child and collects it when the counter reaches zero. */
  method ReleaseChild(children: seq<string>, j: nat, ghost start: map<string, int>, indeg0: map<string, int>,
                      next0: seq<string>, ghost settled: set<string>)
      returns (indeg: map<string, int>, next: seq<string>)
    requires j < |children| && HasRoom(children, j, start)
    requires Decremented(start, indeg0, children[..j]) && children[j] !in settled
    requires IsReleased(indeg0, settled, next0)
    ensures Decremented(start, indeg, children[..j + 1])
    ensures IsReleased(indeg, settled, next)
  {
    var child := children[j];
    DecrementedNext(start, indeg0, children, j);
    indeg, next := indeg0[child := indeg0[child] - 1], next0;
    if indeg[child] == 0 {
      next := next + [child];
    }
  }

  /** A child is known, and it still has as many entries to give up as remain in the list. */
  lemma ChildCounts(nodes: seq<Node>, id: string, children: seq<string>, j: nat, indeg: map<string, int>,
                    placed: set<string>)
    requires CountsOutside(nodes, indeg, placed) && id !in placed && IsChildList(nodes, id, children)
    requires j < |children|
    ensures HasRoom(children, j, indeg)
  {
    var child := children[j];
    assert children[..j + 1] == children[..j] + [child];
    assert children == children[..j + 1] + children[j + 1..];
    assert multiset(children)[child] == multiset(Deps(nodes, child))[id];
    if child !in IdSet(nodes) {
      DepsOfUnknown(nodes, child);
    }
    PlaceOne(Deps(nodes, child), placed, id);
  }

  // ---------------------------------------------------------------- levels

  /** `queue` holds the nodes of level `k`, in some order. */
  ghost predicate HoldsLevel(nodes: seq<Node>, queue: seq<string>, k: nat) {
    NoDuplicates(queue) && forall x :: x in queue <==> x in LevelSet(nodes, k)
  }

  /** No child of a queued node has been placed or queued. */
  lemma ChildrenAreLater(nodes: seq<Node>, k: nat, id: string, children: seq<string>)
    requires IsChildList(nodes, id, children) && id in LevelSet(nodes, k)
    ensures forall c :: c in children ==> c !in Done(nodes, k + 1)
  {
    forall c | c in children
      ensures c !in Done(nodes, k + 1)
    {
      assert multiset(children)[c] == multiset(Deps(nodes, c))[id];
      assert id in Deps(nodes, c);
      if c in Done(nodes, k + 1) {
        var j := LevelOf(nodes, k + 1, c);
        DoneGrows(nodes, j, k);
        assert false;
      }
    }
  }

  lemma ReleasedIsNextLevel(nodes: seq<Node>, k: nat, indeg: map<string, int>, next: seq<string>)
    requires CountsOutside(nodes, indeg, Done(nodes, k + 1)) && IsReleased(indeg, Done(nodes, k + 1), next)
    ensures HoldsLevel(nodes, next, k + 1)
  {
    forall x
      ensures x in next <==> x in LevelSet(nodes, k + 1)
    {
      NoneOutside(Deps(nodes, x), Done(nodes, k + 1));
    }
  }

  lemma NothingReleasedYet(nodes: seq<Node>, k: nat, indeg: map<string, int>)
    requires CountsOutside(nodes, indeg, Done(nodes, k))
    ensures IsReleased(indeg, Done(nodes, k + 1), [])
  {
    forall x | x in indeg && indeg[x] == 0
      ensures x in Done(nodes, k + 1)
    {
      NoneOutside(Deps(nodes, x), Done(nodes, k));
    }
  }

  /** Drains the queue of level `k`: the counters move past that level, `next` queues the following one. */
  method DrainQueue(nodes: seq<Node>, dependents: map<string, seq<string>>, queue: seq<string>, indeg0: map<string, int>,
                    ghost k: nat)
      returns (batch: seq<string>, next: seq<string>, indeg: map<string, int>)
    requires DistinctIds(nodes) && Inverts(nodes, dependents)
    requires HoldsLevel(nodes, queue, k) && CountsOutside(nodes, indeg0, Done(nodes, k))
    ensures batch == queue && HoldsLevel(nodes, next, k + 1)
    ensures CountsOutside(nodes, indeg, Done(nodes, k + 1))
  {
    batch, next, indeg := [], [], indeg0;
    NothingReleasedYet(nodes, k, indeg);
    PlacedEnds(nodes, queue, k);
    var i := 0;
    while i < |queue|
      invariant 0 <= i <= |queue| && batch == queue[..i]
      invariant CountsOutside(nodes, indeg, Placed(nodes, queue, k, i))
      invariant IsReleased(indeg, Done(nodes, k + 1), next)
    {
      PlacedNext(nodes, queue, k, i);
      ChildrenAreLater(nodes, k, queue[i], Children(dependents, queue[i]));
      batch := batch + [queue[i]];
      indeg, next := ReleaseChildren(nodes, queue[i], Children(dependents, queue[i]), indeg, next,
                                     Placed(nodes, queue, k, i), Done(nodes, k + 1));
      i := i + 1;
    }
    assert queue[..i] == queue;
    ReleasedIsNextLevel(nodes, k, indeg, next);
  }

  /** Everything placed before entry `i` of the queue of level `k` is drained. */
  ghost function Placed(nodes: seq<Node>, queue: seq<string>, k: nat, i: nat): set<string>
    requires i <= |queue|
  {
    Done(nodes, k) + Elements(queue[..i])
  }

  lemma PlacedEnds(nodes: seq<Node>, queue: seq<string>, k: nat)
    requires HoldsLevel(nodes, queue, k)
    ensures Placed(nodes, queue, k, 0) == Done(nodes, k)
    ensures Placed(nodes, queue, k, |queue|) == Done(nodes, k + 1)
  {
    assert queue[..|queue|] == queue && Elements(queue) == LevelSet(nodes, k);
    assert Elements(queue[..0]) == {};
  }

  lemma PlacedNext(nodes: seq<Node>, queue: seq<string>, k: nat, i: nat)
    requires HoldsLevel(nodes, queue, k) && i < |queue|
    ensures queue[i] !in Placed(nodes, queue, k, i) && queue[i] in LevelSet(nodes, k)
    ensures Placed(nodes, queue, k, i + 1) == Placed(nodes, queue, k, i) + {queue[i]}
    ensures queue[..i + 1] == queue[..i] + [queue[i]]
  {
    assert queue[..i + 1] == queue[..i] + [queue[i]];
    assert queue[i] !in queue[..i] && queue[i] in queue;
    assert queue[i] in ReadySet(nodes, Done(nodes, k));
  }

  function Independent(nodes: seq<Node>): set<string> {
    set i | 0 <= i < |nodes| && nodes[i].dependsOn == [] :: nodes[i].id
  }

  lemma QueuedLevel(nodes: seq<Node>, queue: seq<string>, k: nat)
    requires HoldsLevel(nodes, queue, k)
    ensures Elements(queue) == LevelSet(nodes, k)
    ensures queue == [] <==> LevelSet(nodes, k) == {}
  {
    if queue != [] {
      assert queue[0] in LevelSet(nodes, k);
    }
  }

  /** What holds after `|levels|` rounds of Kahn's loop. */
  ghost predicate Peeled(nodes: seq<Node>, levels: seq<seq<string>>, queue: seq<string>, indeg: map<string, int>) {
    && HoldsLevel(nodes, queue, |levels|)
    && CountsOutside(nodes, indeg, Done(nodes, |levels|))
    && levels == LevelsUpTo(nodes, |levels|)
    && HeightFrom(nodes, |levels|) == Height(nodes)
  }

  ghost function Unpeeled(nodes: seq<Node>, k: nat): nat {
    |IdSet(nodes) - Done(nodes, k)|
  }

  /** One round: the queue becomes a level in roster order and is replaced by the next queue. */
  method PeelRound(nodes: seq<Node>, dependents: map<string, seq<string>>, levels0: seq<seq<string>>,
                   queue0: seq<string>, indeg0: map<string, int>)
      returns (levels: seq<seq<string>>, queue: seq<string>, indeg: map<string, int>)
    requires DistinctIds(nodes) && Inverts(nodes, dependents)
    requires Peeled(nodes, levels0, queue0, indeg0) && queue0 != []
    ensures Peeled(nodes, levels, queue, indeg)
    ensures |levels| == |levels0| + 1 && Unpeeled(nodes, |levels|) < Unpeeled(nodes, |levels0|)
  {
    ghost var k := |levels0|;
    QueuedLevel(nodes, queue0, k);
    LevelShrinksRest(nodes, k);
    var batch;
    batch, queue, indeg := DrainQueue(nodes, dependents, queue0, indeg0, k);
    levels := levels0 + [InRosterOrder(nodes, Elements(batch))];
  }

  /** Kahn's loop: one level per round until the queue is empty. */
  method PeelLevels(nodes: seq<Node>) returns (levels: seq<seq<string>>)
    requires DistinctIds(nodes)
    ensures levels == KahnLevels(nodes)
  {
    var indeg, dependents := IndexDependents(nodes);
    levels := [];
    var queue := InRosterOrder(nodes, Independent(nodes));
    FirstQueue(nodes);
    while queue != []
      invariant Peeled(nodes, levels, queue, indeg)
      decreases Unpeeled(nodes, |levels|)
    {
      levels, queue, indeg := PeelRound(nodes, dependents, levels, queue, indeg);
    }
    QueuedLevel(nodes, queue, |levels|);
  }

  lemma FirstQueue(nodes: seq<Node>)
    requires DistinctIds(nodes)
    ensures HoldsLevel(nodes, InRosterOrder(nodes, Independent(nodes)), 0)
  {
    var free := Independent(nodes);
    InRosterOrderMembers(nodes, free);
    forall x
      ensures x in free <==> x in LevelSet(nodes, 0)
    {
      if x in IdSet(nodes) {
        var i :| 0 <= i < |nodes| && nodes[i].id == x;
        DepsAt(nodes, i);
        assert nodes[i].dependsOn != [] ==> nodes[i].dependsOn[0] in Deps(nodes, x);
      }
    }
  }

  /** Levels, cyclic chains and dangling dependencies of a node list. */
  method Compile(nodes: seq<Node>) returns (c: Compiled)
    requires DistinctIds(nodes)
    ensures c.missing == MissingReport(nodes, IdSet(nodes))
    ensures forall k :: 0 <= k < |c.cycles| ==> IsCyclicChain(nodes, c.cycles[k])
    ensures c.cycles == [] <==> Acyclic(Edges(nodes))
    ensures c.levels == CompiledLevels(nodes)
  {
    var missing := CollectMissing(nodes);
    var cycles := FindCycles(nodes);
    var levels := PeelLevels(nodes);
    FlattenLevels(nodes, Height(nodes));
    var visitable := Flatten(levels);
    VisitableCount(nodes, visitable);
    if |visitable| != |IdSet(nodes)| && |cycles| == 0 {
      var stranded := InRosterOrder(nodes, IdSet(nodes) - Elements(visitable));
      levels := levels + [stranded];
    }
    c := Compiled(levels, cycles, missing);
  }

  method CollectMissing(nodes: seq<Node>) returns (missing: seq<Missing>)
    ensures missing == MissingReport(nodes, IdSet(nodes))
  {
    missing := [];
    var i := 0;
    while i < |nodes|
      invariant 0 <= i <= |nodes| && missing == MissingReport(nodes[..i], IdSet(nodes))
    {
      assert nodes[..i + 1][..i] == nodes[..i];
      var m := Dangling(nodes[i].dependsOn, IdSet(nodes));
      if |m| > 0 {
        missing := missing + [Missing(nodes[i].id, m)];
      }
      i := i + 1;
    }
    assert nodes[..i] == nodes;
  }

  lemma VisitableCount(nodes: seq<Node>, visitable: seq<string>)
    requires Elements(visitable) == Layered(nodes) && NoDuplicates(visitable)
    ensures |visitable| != |IdSet(nodes)| <==> Stuck(nodes) != {}
  {
    SizeOfElements(visitable);
    DoneWithinIds(nodes, Height(nodes));
    if Stuck(nodes) != {} {
      RemovingShrinks(IdSet(nodes), Stuck(nodes));
      assert IdSet(nodes) - Stuck(nodes) == Layered(nodes);
    } else {
      assert IdSet(nodes) == Layered(nodes);
    }
  }

  /** The levels `compile` returns: Kahn's, and, when no cycle explains the rest, the rest as one level. */
  ghost function CompiledLevels(nodes: seq<Node>): seq<seq<string>> {
    KahnLevels(nodes) +
    if Acyclic(Edges(nodes)) && Stuck(nodes) != {} then [InRosterOrder(nodes, Stuck(nodes))] else []
  }

  lemma CompiledOnce(nodes: seq<Node>)
    requires DistinctIds(nodes)
    ensures NoDuplicates(Flatten(CompiledLevels(nodes)))
  {
    var levels := KahnLevels(nodes);
    FlattenLevels(nodes, Height(nodes));
    if Acyclic(Edges(nodes)) && Stuck(nodes) != {} {
      var rest := InRosterOrder(nodes, Stuck(nodes));
      InRosterOrderMembers(nodes, Stuck(nodes));
      assert (levels + [rest])[..|levels|] == levels;
      AppendLevel(Flatten(levels), rest, Done(nodes, Height(nodes)), Stuck(nodes));
    } else {
      assert levels + [] == levels;
    }
  }
}
